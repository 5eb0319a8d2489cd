/** A chat server without counters: a room exists if and only if it is the lobby or some client is in it.
    The counting server of ChatModel is shown to behave like this one, output included. */
module ChatReference {
  import Commands
  import opened ChatModel
  import opened ChatInvariant

  /** Only passwords are remembered about rooms. */
  datatype Plain = Plain(clients: Sessions, passwords: map<string, string>)

  ghost function OpenRooms(cs: Sessions): set<string> {
    {LOBBY} + set fd | fd in cs && cs[fd].room != "" :: cs[fd].room
  }

  /** Passwords die with their room; a new room has the empty one. */
  ghost function Keep(passwords: map<string, string>, cs: Sessions): map<string, string> {
    map r | r in OpenRooms(cs) :: if r in passwords then passwords[r] else ""
  }

  ghost function WalkInto(p: Plain, fd: int, r: string): (p': Plain)
    requires fd in p.clients
    ensures p'.clients.Keys == p.clients.Keys
  {
    var c := p.clients[fd];
    var told := if c.room == "" then p.clients else Broadcast(p.clients, LeftRoomMsg(c.nickname, c.room), c.room);
    var moved := told[fd := told[fd].(room := r, connectedRoom := "")];
    Plain(Broadcast(moved, JoinedRoomMsg(c.nickname, r), r), Keep(p.passwords, moved))
  }

  ghost function Vanish(p: Plain, fd: int): Plain
    requires fd in p.clients
  {
    var c := p.clients[fd];
    var told := if c.room == "" then p.clients else Broadcast(p.clients, LeftRoomMsg(c.nickname, c.room), c.room);
    var noted := if c.nickname == "" then told else Broadcast(told, LeftServerMsg(c.nickname), "");
    Plain(noted - {fd}, Keep(p.passwords, noted - {fd}))
  }

  ghost function Update(p: Plain, fd: int, c: Session): Plain {
    p.(clients := p.clients[fd := c])
  }

  ghost function TellOne(p: Plain, fd: int, msg: string): Plain
    requires fd in p.clients
  {
    p.(clients := Tell(p.clients, fd, msg))
  }

  ghost function RequestJoin(p: Plain, fd: int, r: string): Plain
    requires fd in p.clients
  {
    var c := p.clients[fd];
    if c.room == r then TellOne(p, fd, "[SERVER] You are already in this room.\n")
    else if r !in OpenRooms(p.clients) then
      Update(p, fd, Queue(c.(state := StateSetupRoomPassword, connectedRoom := r), "Create room password: "))
    else if r in p.passwords && p.passwords[r] != "" then
      Update(p, fd, Queue(c.(state := StateEnterRoomPassword, connectedRoom := r), "Pls, enter room password: "))
    else WalkInto(p, fd, r)
  }

  /** Room sizes are counted when asked for. */
  ghost function CountedEntries(cs: Sessions, order: seq<string>): seq<string> {
    if order == [] then []
    else
      (if order[0] in OpenRooms(cs) then [RoomEntry(order[0], |Members(cs, order[0])|)] else [])
      + CountedEntries(cs, order[1..])
  }

  ghost function Obey(p: Plain, fd: int, line: string, o: Orders): Plain
    requires fd in p.clients
  {
    var c := p.clients[fd];
    match Commands.Parse(line)
    case PrivateMessage(target, text) =>
      p.(clients := HandlePrivateMessage(Server(p.clients, map[]), fd, target, text, o.clients).clients)
    case PlainMessage(text) => p.(clients := Broadcast(p.clients, ChatMsg(c.nickname, text), c.room))
    case JoinRoom(target) => RequestJoin(p, fd, target)
    case LeaveRoom =>
      if c.room == LOBBY then TellOne(p, fd, "[SERVER] You are in lobby.\n") else WalkInto(p, fd, LOBBY)
    case OnlineList => TellOne(p, fd, OnlineListMsg(p.clients, o.clients, c.room))
    case RoomList => TellOne(p, fd, RoomsListMsg(CountedEntries(p.clients, o.rooms)))
    case Unknown => p
  }

  ghost function Chatting(p: Plain, fd: int, msg: string): Plain
    requires fd in p.clients
  {
    Update(p, fd, Queue(p.clients[fd].(state := StateChat), msg))
  }

  ghost function Process(p: Plain, fd: int, line: string, o: Orders): Plain
    requires fd in p.clients
  {
    var c := p.clients[fd];
    var r := c.connectedRoom;
    match c.state
    case StateNickname =>
      Chatting(WalkInto(Update(p, fd, c.(nickname := line, state := StateChat)), fd, LOBBY),
               fd, "Welcome to the chat, " + line + "!\n")
    case StateSetupRoomPassword =>
      var p' := Chatting(WalkInto(p, fd, r), fd, "Password success setup, welcome to room!\n");
      p'.(passwords := p'.passwords[r := line])
    case StateEnterRoomPassword =>
      if r !in OpenRooms(p.clients) then Chatting(p, fd, "The room has been deleted.\n")
      else if r in p.passwords && p.passwords[r] == line then
        Chatting(WalkInto(p, fd, r), fd, "Password success! Welcome to room.\n")
      else Chatting(p, fd, "Incorrect password! Failed to join the room.\n")
    case StateChat => Obey(p, fd, line, o)
  }

  ghost predicate PlainEnabled(p: Plain, e: Event) {
    match e
    case Accept(fd, _) => fd !in p.clients
    case WriteReady(fd, w) => fd in p.clients && (w.Written? ==> w.count <= |p.clients[fd].outBuffer|)
    case _ => e.fd in p.clients
  }

  ghost function PlainStep(p: Plain, e: Event): Plain
    requires PlainEnabled(p, e)
  {
    match e
    case Accept(fd, registered) =>
      if registered then Update(p, fd, Queue(NEW_SESSION, "Enter your nickname: ")) else p
    case Line(fd, line, o) => Process(p, fd, line, o)
    case WriteReady(fd, w) =>
      var (c, alive) := HandleWrite(p.clients[fd], w);
      if alive then Update(p, fd, c) else Vanish(p, fd)
    case Hangup(fd) => Vanish(p, fd)
  }

  // Simulation

  ghost function Forget(s: Server): Plain {
    Plain(s.clients, map r | r in s.rooms :: s.rooms[r].password)
  }

  lemma ClosedIsEmpty(cs: Sessions, r: string)
    requires r != "" && r !in OpenRooms(cs)
    ensures Members(cs, r) == {}
  {
    forall fd ensures fd !in Members(cs, r) {
      assert fd in cs && cs[fd].room == r ==> r in OpenRooms(cs);
    }
  }

  /** In a consistent state the room table holds exactly the open rooms. */
  lemma TableIsOpenRooms(s: Server)
    requires RoomsOk(s)
    ensures s.rooms.Keys == OpenRooms(s.clients)
  {
    forall r ensures r in s.rooms <==> r in OpenRooms(s.clients) {
      if r in s.rooms && r !in OpenRooms(s.clients) {
        ClosedIsEmpty(s.clients, r);
      }
    }
  }

  lemma OpenRoomsSame(cs: Sessions, cs': Sessions)
    requires SameRooms(cs, cs')
    ensures OpenRooms(cs') == OpenRooms(cs)
  {
    forall r ensures r in OpenRooms(cs') <==> r in OpenRooms(cs) {
      if r in OpenRooms(cs') && r != LOBBY {
        var fd :| fd in cs' && cs'[fd].room != "" && cs'[fd].room == r;
        assert cs[fd].room == r;
      }
      if r in OpenRooms(cs) && r != LOBBY {
        var fd :| fd in cs && cs[fd].room != "" && cs[fd].room == r;
        assert cs'[fd].room == r;
      }
    }
  }

  /** A table whose keys are the open rooms, with the passwords of the old rooms, is the kept one. */
  lemma Kept(s: Server, s': Server)
    requires RoomsOk(s')
    requires forall x | x in s'.rooms :: s'.rooms[x].password == if x in s.rooms then s.rooms[x].password else ""
    ensures Forget(s').passwords == Keep(Forget(s).passwords, s'.clients)
  {
    TableIsOpenRooms(s');
  }

  lemma JoinPasswords(s: Server, fd: int, r: string)
    requires RoomsOk(s) && fd in s.clients && r != "" && s.clients[fd].room != r
    ensures forall x | x in JoinRoom(s, fd, r).rooms ::
              JoinRoom(s, fd, r).rooms[x].password == if x in s.rooms then s.rooms[x].password else ""
    ensures forall x | x in JoinRoom(s, fd, r).rooms :: x in s.rooms || x == r
  {
  }

  lemma JoinSimulated(s: Server, fd: int, r: string)
    requires RoomsOk(s) && fd in s.clients && r != "" && s.clients[fd].room != r
    ensures Forget(JoinRoom(s, fd, r)) == WalkInto(Forget(s), fd, r)
  {
    var j, c := JoinRoom(s, fd, r), s.clients[fd];
    var told := Depart(s, fd).clients;
    var moved := told[fd := told[fd].(room := r, connectedRoom := "")];
    assert j.clients == Broadcast(moved, JoinedRoomMsg(c.nickname, r), r);
    assert Forget(j).passwords == Keep(Forget(s).passwords, j.clients) by {
      JoinRoomOk(s, fd, r);
      JoinPasswords(s, fd, r);
      Kept(s, j);
    }
    assert OpenRooms(moved) == OpenRooms(j.clients) by {
      OpenRoomsSame(moved, j.clients);
    }
  }

  lemma DepartPasswords(s: Server, fd: int)
    requires fd in s.clients
    ensures forall x | x in Depart(s, fd).rooms :: x in s.rooms && Depart(s, fd).rooms[x].password == s.rooms[x].password
  {
  }

  lemma VanishPasswords(s: Server, fd: int)
    requires RoomsOk(s) && fd in s.clients
    ensures Forget(Disconnect(s, fd)).passwords == Keep(Forget(s).passwords, Disconnect(s, fd).clients)
  {
    var d := Disconnect(s, fd);
    DisconnectRoomsOk(s, fd);
    assert d.rooms == Depart(s, fd).rooms by { DisconnectShape(s, fd); }
    DepartPasswords(s, fd);
    Kept(s, d);
  }

  lemma VanishClients(s: Server, fd: int)
    requires RoomsOk(s) && fd in s.clients
    ensures Disconnect(s, fd).clients == Vanish(Forget(s), fd).clients
  {
    var c := s.clients[fd];
    var d := LeaveRoom(s, fd).clients;
    var told := Depart(s, fd).clients;
    assert told[fd].nickname == c.nickname;
    assert d - {fd} == told - {fd};
    if c.nickname != "" {
      assert Broadcast(d, LeftServerMsg(c.nickname), "") - {fd} == Broadcast(told, LeftServerMsg(c.nickname), "") - {fd};
    }
  }

  lemma VanishSimulated(s: Server, fd: int)
    requires RoomsOk(s) && fd in s.clients
    ensures Forget(Disconnect(s, fd)) == Vanish(Forget(s), fd)
  {
    VanishPasswords(s, fd);
    VanishClients(s, fd);
  }

  lemma {:induction false} EntriesSimulated(s: Server, order: seq<string>)
    requires RoomsOk(s)
    ensures RoomEntries(s.rooms, order) == CountedEntries(s.clients, order)
  {
    TableIsOpenRooms(s);
    if order != [] {
      EntriesSimulated(s, order[1..]);
    }
  }

  lemma RequestSimulated(s: Server, fd: int, r: string)
    requires Inv(s) && fd in s.clients && r != ""
    ensures Forget(HandleJoinRoom(s, fd, r)) == RequestJoin(Forget(s), fd, r)
  {
    TableIsOpenRooms(s);
    if s.clients[fd].room != r {
      JoinSimulated(s, fd, r);
    }
  }

  lemma ExecuteSimulated(s: Server, fd: int, line: string, o: Orders)
    requires Inv(s) && fd in s.clients && s.clients[fd].state == StateChat
    ensures Forget(Execute(s, fd, line, o)) == Obey(Forget(s), fd, line, o)
  {
    match Commands.Parse(line)
    case JoinRoom(target) => RequestSimulated(s, fd, target);
    case LeaveRoom =>
      if s.clients[fd].room != LOBBY {
        JoinSimulated(s, fd, LOBBY);
      }
    case RoomList => EntriesSimulated(s, o.rooms);
    case _ =>
  }

  lemma NicknameSimulated(s: Server, fd: int, line: string)
    requires Inv(s) && fd in s.clients && s.clients[fd].state == StateNickname
    ensures Forget(SetupNickname(s, fd, line)) == Process(Forget(s), fd, line, Orders([], []))
  {
    var named := s.(clients := s.clients[fd := s.clients[fd].(nickname := line, state := StateChat)]);
    assert SessionOk(s.clients[fd]);
    RoomsOkSameRooms(s, named.clients);
    JoinSimulated(named, fd, LOBBY);
    JoinRoomSessions(named, fd, LOBBY);
    assert Forget(named) == Update(Forget(s), fd, named.clients[fd]);
    SetStateChat(JoinRoom(named, fd, LOBBY), fd);
  }

  lemma ChattingSimulated(s: Server, fd: int, msg: string)
    requires fd in s.clients
    ensures Forget(Reply(SetState(s, fd, StateChat), fd, msg)) == Chatting(Forget(s), fd, msg)
  {
  }

  lemma LockSimulated(j: Server, r: string, line: string)
    requires r in j.rooms
    ensures Forget(j.(rooms := j.rooms[r := j.rooms[r].(password := line)])) ==
            Forget(j).(passwords := Forget(j).passwords[r := line])
  {
  }

  lemma SetupSimulated(s: Server, fd: int, line: string)
    requires Inv(s) && fd in s.clients && s.clients[fd].state == StateSetupRoomPassword
    ensures Forget(SetupRoomPassword(s, fd, line)) == Process(Forget(s), fd, line, Orders([], []))
  {
    var r := s.clients[fd].connectedRoom;
    assert SessionOk(s.clients[fd]);
    var j := JoinRoom(s, fd, r);
    assert Forget(j) == WalkInto(Forget(s), fd, r) by { JoinSimulated(s, fd, r); }
    LockSimulated(j, r, line);
    ChattingSimulated(j.(rooms := j.rooms[r := j.rooms[r].(password := line)]), fd,
                      "Password success setup, welcome to room!\n");
  }

  lemma EnterSimulated(s: Server, fd: int, line: string)
    requires Inv(s) && fd in s.clients && s.clients[fd].state == StateEnterRoomPassword
    ensures Forget(EnterRoomPassword(s, fd, line)) == Process(Forget(s), fd, line, Orders([], []))
  {
    var r := s.clients[fd].connectedRoom;
    assert SessionOk(s.clients[fd]);
    var p := Forget(s);
    assert r in OpenRooms(p.clients) <==> r in s.rooms by { TableIsOpenRooms(s); }
    if r in s.rooms && s.rooms[r].password == line {
      JoinSimulated(s, fd, r);
      ChattingSimulated(JoinRoom(s, fd, r), fd, "Password success! Welcome to room.\n");
    } else if r in s.rooms {
      ChattingSimulated(s, fd, "Incorrect password! Failed to join the room.\n");
    } else {
      ChattingSimulated(s, fd, "The room has been deleted.\n");
    }
  }

  lemma ProcessSimulated(s: Server, fd: int, line: string, o: Orders)
    requires Inv(s) && fd in s.clients
    ensures Forget(ProcessMessage(s, fd, line, o)) == Process(Forget(s), fd, line, o)
  {
    var c := s.clients[fd];
    assert SessionOk(c);
    match c.state
    case StateNickname => NicknameSimulated(s, fd, line);
    case StateSetupRoomPassword => SetupSimulated(s, fd, line);
    case StateEnterRoomPassword => EnterSimulated(s, fd, line);
    case StateChat => ExecuteSimulated(s, fd, line, o);
  }

  /** One step of the counting server is the same step of the counter-free one. */
  lemma StepSimulated(s: Server, e: Event)
    requires Inv(s) && Enabled(s, e)
    ensures PlainEnabled(Forget(s), e)
    ensures Forget(Step(s, e)) == PlainStep(Forget(s), e)
  {
    match e
    case Accept(fd, registered) =>
    case Line(fd, line, o) => ProcessSimulated(s, fd, line, o);
    case WriteReady(fd, w) => VanishSimulated(s, fd);
    case Hangup(fd) => VanishSimulated(s, fd);
  }

  // /online against /rooms

  lemma {:induction false} EnumeratesCard<T(!new)>(order: seq<T>, keys: set<T>)
    requires Enumerates(order, keys)
    ensures |order| == |keys|
  {
    if order == [] {
      assert keys == {};
    } else {
      var rest := keys - {order[0]};
      assert Enumerates(order[1..], rest) by {
        forall k ensures k in rest <==> k in order[1..] {
          assert order == [order[0]] + order[1..];
        }
      }
      EnumeratesCard(order[1..], rest);
    }
  }

  /** /online names every client of the room, each once, whatever the iteration order. */
  lemma {:induction false} OnlineNamesAll(cs: Sessions, order: seq<int>, room: string) returns (fds: seq<int>)
    requires forall i, j | 0 <= i < j < |order| :: order[i] != order[j]
    ensures forall fd :: fd in fds <==> fd in order && fd in Members(cs, room)
    ensures forall i, j | 0 <= i < j < |fds| :: fds[i] != fds[j]
    ensures |OnlineNames(cs, order, room)| == |fds|
    ensures forall i | 0 <= i < |fds| :: fds[i] in cs && OnlineNames(cs, order, room)[i] == cs[fds[i]].nickname
  {
    if order == [] {
      fds := [];
    } else {
      var rest := OnlineNamesAll(cs, order[1..], room);
      assert order == [order[0]] + order[1..];
      fds := (if order[0] in Members(cs, room) then [order[0]] else []) + rest;
    }
  }

  lemma {:induction false} EntriesAll(rooms: map<string, RoomInfo>, order: seq<string>)
    requires forall r | r in order :: r in rooms
    ensures |RoomEntries(rooms, order)| == |order|
    ensures forall i | 0 <= i < |order| :: RoomEntries(rooms, order)[i] == RoomEntry(order[i], rooms[order[i]].userCount)
  {
    if order != [] {
      var rest := order[1..];
      EntriesAll(rooms, rest);
      var es := RoomEntries(rooms, order);
      assert es == [RoomEntry(order[0], rooms[order[0]].userCount)] + RoomEntries(rooms, rest);
      forall i | 0 <= i < |order| ensures es[i] == RoomEntry(order[i], rooms[order[i]].userCount) {
        if i > 0 {
          assert es[i] == RoomEntries(rooms, rest)[i - 1] && order[i] == rest[i - 1];
        }
      }
    }
  }

  /** The number /rooms prints for a room is the number of names /online prints in it. */
  lemma ListingsAgree(s: Server, o: Orders, r: string)
    requires Inv(s) && r in s.rooms
    requires Enumerates(o.clients, s.clients.Keys) && Enumerates(o.rooms, s.rooms.Keys)
    ensures RoomEntry(r, |OnlineNames(s.clients, o.clients, r)|) in RoomEntries(s.rooms, o.rooms)
    ensures |RoomEntries(s.rooms, o.rooms)| == |s.rooms|
  {
    var fds := OnlineNamesAll(s.clients, o.clients, r);
    assert Enumerates(fds, Members(s.clients, r));
    EnumeratesCard(fds, Members(s.clients, r));
    EntriesAll(s.rooms, o.rooms);
    EnumeratesCard(o.rooms, s.rooms.Keys);
    var i :| 0 <= i < |o.rooms| && o.rooms[i] == r;
    assert RoomEntries(s.rooms, o.rooms)[i] == RoomEntry(r, s.rooms[r].userCount);
  }
}
