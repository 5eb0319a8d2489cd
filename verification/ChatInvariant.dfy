/** What every step of the chat server keeps. */
module ChatInvariant {
  import Commands
  import opened ChatModel

  ghost function Members(cs: Sessions, r: string): set<int> {
    set fd | fd in cs && cs[fd].room == r
  }

  ghost predicate Pending(c: Session) {
    c.state == StateSetupRoomPassword || c.state == StateEnterRoomPassword
  }

  /** One client: in a room exactly once it has chosen a nickname, which is empty before, and a pending join has
      a proper target. */
  ghost predicate SessionOk(c: Session) {
    && (c.room == "" <==> c.state == StateNickname)
    && (c.state == StateNickname ==> c.nickname == "")
    && (Pending(c) ==> c.connectedRoom != "" && c.connectedRoom != LOBBY && c.connectedRoom != c.room)
    && (c.wantWrite <==> c.outBuffer != "")
  }

  /** The room table: a permanent open lobby, exact counters, no ghost rooms, no dangling room of a client. */
  ghost predicate RoomsOk(s: Server) {
    && LOBBY in s.rooms && s.rooms[LOBBY].password == ""
    && "" !in s.rooms
    && (forall r | r in s.rooms :: s.rooms[r].userCount == |Members(s.clients, r)|)
    && (forall r | r in s.rooms :: r == LOBBY || Members(s.clients, r) != {})
    && (forall fd | fd in s.clients :: s.clients[fd].room == "" || s.clients[fd].room in s.rooms)
  }

  ghost predicate SessionsOk(cs: Sessions) {
    forall fd | fd in cs :: SessionOk(cs[fd])
  }

  ghost predicate Inv(s: Server) {
    RoomsOk(s) && SessionsOk(s.clients)
  }

  /** A server differing from another only in what its clients have still to be sent. */
  ghost predicate SameButOutput(a: Session, b: Session) {
    b == a.(outBuffer := b.outBuffer, wantWrite := b.wantWrite)
  }

  ghost predicate OutputOnly(cs: Sessions, cs': Sessions) {
    cs'.Keys == cs.Keys && forall fd | fd in cs :: SameButOutput(cs[fd], cs'[fd])
  }

  /** Nobody changes room. */
  ghost predicate SameRooms(cs: Sessions, cs': Sessions) {
    cs'.Keys == cs.Keys && forall fd | fd in cs :: cs'[fd].room == cs[fd].room
  }

  /** Nobody but fd changes room, and fd is then in room r. */
  ghost predicate Moved(cs: Sessions, cs': Sessions, fd: int, r: string) {
    && cs'.Keys == cs.Keys && fd in cs && cs'[fd].room == r
    && forall g | g in cs && g != fd :: cs'[g].room == cs[g].room
  }

  lemma MembersSame(cs: Sessions, cs': Sessions, x: string)
    requires SameRooms(cs, cs')
    ensures Members(cs', x) == Members(cs, x)
  {
    forall g ensures g in Members(cs', x) <==> g in Members(cs, x) {}
  }

  lemma MembersMoved(cs: Sessions, cs': Sessions, fd: int, r: string, x: string)
    requires Moved(cs, cs', fd, r)
    ensures Members(cs', x) == if x == r then Members(cs, x) - {fd} + {fd} else Members(cs, x) - {fd}
  {
    forall g ensures g in Members(cs', x) <==> g in Members(cs, x) - {fd} || (g == fd && x == r) {}
  }

  /** The room table does not look at the buffers or the states. */
  lemma RoomsOkSameRooms(s: Server, cs': Sessions)
    requires RoomsOk(s) && SameRooms(s.clients, cs')
    ensures RoomsOk(s.(clients := cs'))
  {
    forall r ensures Members(cs', r) == Members(s.clients, r) {
      MembersSame(s.clients, cs', r);
    }
  }

  /** The room table that fits everyone except fd. */
  ghost predicate RoomsFitOthers(cs: Sessions, rooms: map<string, RoomInfo>, fd: int) {
    && LOBBY in rooms && rooms[LOBBY].password == ""
    && "" !in rooms
    && (forall r | r in rooms :: rooms[r].userCount == |Members(cs, r) - {fd}|)
    && (forall r | r in rooms :: r == LOBBY || Members(cs, r) - {fd} != {})
    && (forall g | g in cs && g != fd :: cs[g].room == "" || cs[g].room in rooms)
  }

  lemma CardTwo(m: set<int>, a: int, b: int)
    requires a in m && b in m && a != b
    ensures |m| >= 2 && |m - {a}| == |m| - 1
  {
    assert |m - {a}| == |m| - 1;
    assert b in m - {a};
  }

  lemma ReleaseFits(s: Server, fd: int)
    requires RoomsOk(s) && fd in s.clients && s.clients[fd].room != ""
    ensures RoomsFitOthers(s.clients, Release(s.rooms, s.clients[fd].room), fd)
  {
    var r0 := s.clients[fd].room;
    var rooms := Release(s.rooms, r0);
    var m := Members(s.clients, r0);
    assert fd in m && |m - {fd}| == |m| - 1;
    forall r | r in rooms
      ensures rooms[r].userCount == |Members(s.clients, r) - {fd}|
      ensures r == LOBBY || Members(s.clients, r) - {fd} != {}
    {
      if r != r0 {
        assert Members(s.clients, r) - {fd} == Members(s.clients, r);
      }
    }
    forall g | g in s.clients && g != fd
      ensures s.clients[g].room == "" || s.clients[g].room in rooms
    {
      if s.clients[g].room == r0 {
        CardTwo(m, fd, g);
      }
    }
  }

  /** After the first half of join_room or leave_room the table fits everyone but the mover. */
  lemma DepartFits(s: Server, fd: int)
    requires RoomsOk(s) && fd in s.clients
    ensures RoomsFitOthers(s.clients, Depart(s, fd).rooms, fd)
  {
    if s.clients[fd].room != "" {
      ReleaseFits(s, fd);
    } else {
      forall r | r in s.rooms ensures Members(s.clients, r) - {fd} == Members(s.clients, r) {}
    }
  }

  /** Admission counts the mover in its new room. */
  lemma AdmitFits(cs: Sessions, rooms: map<string, RoomInfo>, fd: int, r: string, cs': Sessions)
    requires RoomsFitOthers(cs, rooms, fd) && r != ""
    requires Moved(cs, cs', fd, r)
    ensures RoomsOk(Server(cs', Admit(rooms, r)))
  {
    var rooms' := Admit(rooms, r);
    forall x | x in rooms'
      ensures rooms'[x].userCount == |Members(cs', x)|
      ensures x == LOBBY || Members(cs', x) != {}
    {
      MembersMoved(cs, cs', fd, r, x);
      if x == r {
        var others := Members(cs, r) - {fd};
        assert |others + {fd}| == |others| + 1;
        if r !in rooms {
          forall g ensures g !in others {
            assert g in Members(cs, r) ==> cs[g].room == r;
          }
        }
      }
    }
  }

  /** join_room changes nothing of the clients but the mover's room and what is queued. */
  lemma JoinRoomSessions(s: Server, fd: int, r: string)
    requires fd in s.clients
    ensures OutputOnly(s.clients[fd := s.clients[fd].(room := r, connectedRoom := "")], JoinRoom(s, fd, r).clients)
    ensures Moved(s.clients, JoinRoom(s, fd, r).clients, fd, r)
    ensures forall g | g in s.clients && SessionOk(s.clients[g]) && g != fd :: SessionOk(JoinRoom(s, fd, r).clients[g])
    ensures (s.clients[fd].wantWrite <==> s.clients[fd].outBuffer != "") ==>
              (JoinRoom(s, fd, r).clients[fd].wantWrite <==> JoinRoom(s, fd, r).clients[fd].outBuffer != "")
  {
  }

  /** join_room keeps the room table, whichever room it is given, even the present one. */
  lemma JoinRoomOk(s: Server, fd: int, r: string)
    requires RoomsOk(s) && fd in s.clients && r != ""
    ensures RoomsOk(JoinRoom(s, fd, r))
  {
    var d := Depart(s, fd);
    var j := JoinRoom(s, fd, r);
    DepartFits(s, fd);
    JoinRoomSessions(s, fd, r);
    AdmitFits(s.clients, d.rooms, fd, r, j.clients);
  }

  // One line of input

  lemma UpdateOk(s: Server, fd: int, c: Session)
    requires Inv(s) && fd in s.clients && SessionOk(c) && c.room == s.clients[fd].room
    ensures Inv(s.(clients := s.clients[fd := c]))
  {
    RoomsOkSameRooms(s, s.clients[fd := c]);
  }

  lemma ReplyOk(s: Server, fd: int, msg: string)
    requires Inv(s) && fd in s.clients
    ensures Inv(Reply(s, fd, msg))
  {
    UpdateOk(s, fd, Queue(s.clients[fd], msg));
  }

  lemma BroadcastOk(s: Server, msg: string, room: string)
    requires Inv(s)
    ensures Inv(s.(clients := Broadcast(s.clients, msg, room)))
  {
    RoomsOkSameRooms(s, Broadcast(s.clients, msg, room));
  }

  /** join_room followed by the client's return to STATE_CHAT. */
  lemma JoinThenChatOk(s: Server, fd: int, r: string)
    requires RoomsOk(s) && fd in s.clients && r != ""
    requires forall g | g in s.clients && g != fd :: SessionOk(s.clients[g])
    requires s.clients[fd].wantWrite <==> s.clients[fd].outBuffer != ""
    ensures Inv(SetState(JoinRoom(s, fd, r), fd, StateChat))
  {
    var j := JoinRoom(s, fd, r);
    hide JoinRoom, RoomsOk;
    assert SessionsOk(SetState(j, fd, StateChat).clients) by {
      JoinRoomSessions(s, fd, r);
    }
    assert RoomsOk(SetState(j, fd, StateChat)) by {
      JoinRoomOk(s, fd, r);
      RoomsOkSameRooms(j, SetState(j, fd, StateChat).clients);
    }
  }

  lemma SetStateChat(s: Server, fd: int)
    requires fd in s.clients && s.clients[fd].state == StateChat
    ensures SetState(s, fd, StateChat) == s
  {
  }

  lemma JoinFromChatOk(s: Server, fd: int, r: string)
    requires Inv(s) && fd in s.clients && r != "" && s.clients[fd].state == StateChat
    ensures Inv(JoinRoom(s, fd, r))
  {
    JoinThenChatOk(s, fd, r);
    JoinRoomSessions(s, fd, r);
    SetStateChat(JoinRoom(s, fd, r), fd);
  }

  lemma SetupNicknameOk(s: Server, fd: int, line: string)
    requires Inv(s) && fd in s.clients && s.clients[fd].state == StateNickname
    ensures Inv(SetupNickname(s, fd, line))
  {
    var c := s.clients[fd].(nickname := line, state := StateChat);
    var s1 := s.(clients := s.clients[fd := c]);
    RoomsOkSameRooms(s, s1.clients);
    JoinThenChatOk(s1, fd, LOBBY);
    JoinRoomSessions(s1, fd, LOBBY);
    SetStateChat(JoinRoom(s1, fd, LOBBY), fd);
    ReplyOk(JoinRoom(s1, fd, LOBBY), fd, WelcomeMsg(line));
  }

  lemma SetupRoomPasswordOk(s: Server, fd: int, line: string)
    requires Inv(s) && fd in s.clients && s.clients[fd].state == StateSetupRoomPassword
    ensures Inv(SetupRoomPassword(s, fd, line))
  {
    var r := s.clients[fd].connectedRoom;
    assert SessionOk(s.clients[fd]);
    var j := JoinRoom(s, fd, r);
    JoinThenChatOk(s, fd, r);
    var locked := j.(rooms := j.rooms[r := j.rooms[r].(password := line)]);
    assert SetState(locked, fd, StateChat).clients == SetState(j, fd, StateChat).clients;
    ReplyOk(SetState(locked, fd, StateChat), fd, "Password success setup, welcome to room!\n");
  }

  lemma EnterRoomPasswordOk(s: Server, fd: int, line: string)
    requires Inv(s) && fd in s.clients && s.clients[fd].state == StateEnterRoomPassword
    ensures Inv(EnterRoomPassword(s, fd, line))
  {
    var r := s.clients[fd].connectedRoom;
    assert SessionOk(s.clients[fd]);
    if r in s.rooms && s.rooms[r].password == line {
      JoinThenChatOk(s, fd, r);
      ReplyOk(SetState(JoinRoom(s, fd, r), fd, StateChat), fd, "Password success! Welcome to room.\n");
    } else {
      UpdateOk(s, fd, s.clients[fd].(state := StateChat));
      ReplyOk(SetState(s, fd, StateChat), fd,
              if r !in s.rooms then "The room has been deleted.\n"
              else "Incorrect password! Failed to join the room.\n");
    }
  }

  lemma HandleJoinRoomOk(s: Server, fd: int, r: string)
    requires Inv(s) && fd in s.clients && s.clients[fd].state == StateChat && r != ""
    ensures Inv(HandleJoinRoom(s, fd, r))
  {
    if s.clients[fd].room == r {
      ReplyOk(s, fd, "[SERVER] You are already in this room.\n");
    } else if r !in s.rooms {
      UpdateOk(s, fd, HandleJoinRoom(s, fd, r).clients[fd]);
    } else if s.rooms[r].password == "" {
      JoinFromChatOk(s, fd, r);
    } else {
      UpdateOk(s, fd, HandleJoinRoom(s, fd, r).clients[fd]);
    }
  }

  lemma HandlePrivateMessageOk(s: Server, fd: int, target: string, text: string, order: seq<int>)
    requires Inv(s) && fd in s.clients
    ensures Inv(HandlePrivateMessage(s, fd, target, text, order))
  {
    var i := FirstAnswering(s.clients, order, target);
    if i == |order| {
      ReplyOk(s, fd, NotFoundMsg(target));
    } else {
      var s1 := Reply(s, order[i], PrivateFromMsg(s.clients[fd].nickname, text));
      ReplyOk(s, order[i], PrivateFromMsg(s.clients[fd].nickname, text));
      ReplyOk(s1, fd, PrivateToMsg(s.clients[order[i]].nickname, text));
    }
  }

  lemma ExecuteOk(s: Server, fd: int, line: string, o: Orders)
    requires Inv(s) && fd in s.clients && s.clients[fd].state == StateChat
    ensures Inv(Execute(s, fd, line, o))
  {
    match Commands.Parse(line)
    case PrivateMessage(target, text) => HandlePrivateMessageOk(s, fd, target, text, o.clients);
    case PlainMessage(text) => BroadcastOk(s, ChatMsg(s.clients[fd].nickname, text), s.clients[fd].room);
    case JoinRoom(target) => HandleJoinRoomOk(s, fd, target);
    case LeaveRoom =>
      if s.clients[fd].room == LOBBY {
        ReplyOk(s, fd, "[SERVER] You are in lobby.\n");
      } else {
        JoinFromChatOk(s, fd, LOBBY);
      }
    case OnlineList => ReplyOk(s, fd, OnlineListMsg(s.clients, o.clients, s.clients[fd].room));
    case RoomList => ReplyOk(s, fd, RoomsListMsg(RoomEntries(s.rooms, o.rooms)));
    case Unknown =>
  }

  lemma ProcessMessageOk(s: Server, fd: int, line: string, o: Orders)
    requires Inv(s) && fd in s.clients
    ensures Inv(ProcessMessage(s, fd, line, o))
  {
    match s.clients[fd].state
    case StateNickname => SetupNicknameOk(s, fd, line);
    case StateSetupRoomPassword => SetupRoomPasswordOk(s, fd, line);
    case StateEnterRoomPassword => EnterRoomPasswordOk(s, fd, line);
    case StateChat => ExecuteOk(s, fd, line, o);
  }

  // The other events

  lemma MembersRemoved(cs: Sessions, fd: int, cs': Sessions, x: string)
    requires cs'.Keys == cs.Keys - {fd} && forall g | g in cs' :: cs'[g].room == cs[g].room
    ensures Members(cs', x) == Members(cs, x) - {fd}
  {
    forall g ensures g in Members(cs', x) <==> g in Members(cs, x) - {fd} {}
  }

  lemma RemovedFits(cs: Sessions, rooms: map<string, RoomInfo>, fd: int, cs': Sessions)
    requires RoomsFitOthers(cs, rooms, fd)
    requires cs'.Keys == cs.Keys - {fd} && forall g | g in cs' :: cs'[g].room == cs[g].room
    ensures RoomsOk(Server(cs', rooms))
  {
    forall x ensures Members(cs', x) == Members(cs, x) - {fd} {
      MembersRemoved(cs, fd, cs', x);
    }
    hide Members;
  }

  lemma LeaveShape(s: Server, fd: int)
    requires fd in s.clients
    ensures LeaveRoom(s, fd).rooms == Depart(s, fd).rooms
    ensures LeaveRoom(s, fd).clients - {fd} == Depart(s, fd).clients - {fd}
  {
    hide Broadcast, Release;
  }

  lemma HeardOne(cs: Sessions, msg: string, room: string, g: int)
    requires g in cs
    ensures SameButOutput(cs[g], Broadcast(cs, msg, room)[g])
    ensures SessionOk(cs[g]) ==> SessionOk(Broadcast(cs, msg, room)[g])
  {
  }

  lemma DepartOne(s: Server, fd: int, g: int)
    requires fd in s.clients && g in s.clients
    ensures SameButOutput(s.clients[g], Depart(s, fd).clients[g])
    ensures SessionOk(s.clients[g]) ==> SessionOk(Depart(s, fd).clients[g])
  {
    var c := s.clients[fd];
    HeardOne(s.clients, LeftRoomMsg(c.nickname, c.room), c.room, g);
  }

  /** The others lose nothing but hear the departure. */
  lemma DisconnectClients(s: Server, fd: int)
    requires fd in s.clients
    ensures Disconnect(s, fd).clients.Keys == s.clients.Keys - {fd}
    ensures forall g | g in s.clients && g != fd :: SameButOutput(s.clients[g], Disconnect(s, fd).clients[g])
    ensures forall g | g in s.clients && g != fd && SessionOk(s.clients[g]) :: SessionOk(Disconnect(s, fd).clients[g])
  {
    LeaveShape(s, fd);
    hide Depart, LeaveRoom, SessionOk;
    var l := LeaveRoom(s, fd).clients;
    forall g | g in s.clients && g != fd
      ensures SameButOutput(s.clients[g], Disconnect(s, fd).clients[g])
      ensures SessionOk(s.clients[g]) ==> SessionOk(Disconnect(s, fd).clients[g])
    {
      assert l[g] == (l - {fd})[g] == Depart(s, fd).clients[g];
      DepartOne(s, fd, g);
      HeardOne(l, LeftServerMsg(l[fd].nickname), "", g);
    }
  }

  /** A disconnection leaves the others as they are, but for the notices, and the table of leave_room. */
  lemma DisconnectShape(s: Server, fd: int)
    requires RoomsOk(s) && fd in s.clients
    ensures Disconnect(s, fd).clients.Keys == s.clients.Keys - {fd}
    ensures OutputOnly(s.clients - {fd}, Disconnect(s, fd).clients)
    ensures Disconnect(s, fd).rooms == Depart(s, fd).rooms
    ensures SessionsOk(s.clients) ==> SessionsOk(Disconnect(s, fd).clients)
  {
    assert Disconnect(s, fd).rooms == LeaveRoom(s, fd).rooms by { hide LeaveRoom; }
    LeaveShape(s, fd);
    DisconnectClients(s, fd);
    hide Disconnect, SessionOk;
  }

  lemma DisconnectRoomsOk(s: Server, fd: int)
    requires RoomsOk(s) && fd in s.clients
    ensures RoomsOk(Disconnect(s, fd))
  {
    DepartFits(s, fd);
    DisconnectShape(s, fd);
    RemovedFits(s.clients, Depart(s, fd).rooms, fd, Disconnect(s, fd).clients);
  }

  lemma DisconnectOk(s: Server, fd: int)
    requires Inv(s) && fd in s.clients
    ensures Inv(Disconnect(s, fd))
  {
    DisconnectRoomsOk(s, fd);
    DisconnectShape(s, fd);
  }

  lemma AcceptOk(s: Server, fd: int, c: Session)
    requires Inv(s) && fd !in s.clients && SessionOk(c) && c.room == ""
    ensures Inv(s.(clients := s.clients[fd := c]))
  {
    var cs' := s.clients[fd := c];
    forall x | x != "" ensures Members(cs', x) == Members(s.clients, x) {
      forall g ensures g in Members(cs', x) <==> g in Members(s.clients, x) {}
    }
  }

  lemma InitialOk()
    ensures INITIAL.clients == map[] && INITIAL.rooms == map["lobby" := RoomInfo("", 0)]
    ensures Inv(INITIAL)
  {
    assert Members(INITIAL.clients, LOBBY) == {};
  }

  /** Every event keeps the invariant. */
  lemma StepOk(s: Server, e: Event)
    requires Inv(s) && Enabled(s, e)
    ensures Inv(Step(s, e))
  {
    match e
    case Accept(fd, registered) =>
      if registered { AcceptOk(s, fd, Queue(NEW_SESSION, "Enter your nickname: ")); }
    case Line(fd, line, o) => ProcessMessageOk(s, fd, line, o);
    case WriteReady(fd, w) =>
      var (c, alive) := HandleWrite(s.clients[fd], w);
      if alive { UpdateOk(s, fd, c); } else { DisconnectOk(s, fd); }
    case Hangup(fd) => DisconnectOk(s, fd);
  }
}
