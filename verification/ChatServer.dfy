/** The objects of src/server, src/client, src/room and src/command, updated in place.
    Every method is tied to the functions of ChatModel; the server carries the run it has made so far. */
module ChatServer {
  import opened Text
  import opened Framing
  import Commands
  import opened ChatModel
  import opened ChatInvariant
  import opened ChatRuns

  /** What the client still owes the socket, and what the kernel was told about it. */
  class Client {
    const fd: int
    var state: ClientState
    var nickname: string
    var inBuffer: string
    var outBuffer: string
    var wantWrite: bool
    var room: string
    var connectedRoom: string

    ghost var interest: bool   // EPOLLOUT is registered for this descriptor
    ghost var ctlFailed: bool  // some epoll_ctl(MOD) failed
    ghost var queued: string   // all that was ever given to QueueMessage
    ghost var sent: string     // all that write(2) ever accepted

    ghost function View(): Session
      reads this
    {
      Session(state, nickname, outBuffer, wantWrite, room, connectedRoom)
    }

    /** Output is a lossless FIFO, and while epoll_ctl works the kernel knows what is wanted. */
    ghost predicate Valid()
      reads this
    {
      && sent + outBuffer == queued
      && (!ctlFailed ==> interest == wantWrite)
    }

    constructor (fd: int)
      ensures this.fd == fd && Valid() && View() == NEW_SESSION && inBuffer == ""
      ensures queued == ""
    {
      this.fd := fd;
      state := StateNickname;
      nickname, inBuffer, outBuffer, room, connectedRoom := "", "", "", "", "";
      wantWrite := false;
      interest, ctlFailed, queued, sent := false, false, "", "";
    }

    /** epoll_ctl(EPOLL_CTL_MOD) may fail; a failure is logged and otherwise ignored. */
    method ModifyInterest(write: bool)
      modifies `interest, `ctlFailed
      ensures (interest == write && ctlFailed == old(ctlFailed)) || (interest == old(interest) && ctlFailed)
    {
      var ok: bool := *;
      if ok {
        interest := write;
      } else {
        ctlFailed := true;
      }
    }

    method QueueMessage(msg: string)
      requires Valid()
      modifies `outBuffer, `wantWrite, `interest, `ctlFailed, `queued
      ensures Valid()
      ensures View() == Queue(old(View()), msg)
      ensures queued == old(queued) + msg
    {
      outBuffer := outBuffer + msg;
      queued := queued + msg;
      assert sent + outBuffer == queued;
      if !wantWrite && outBuffer != "" {
        wantWrite := true;
        ModifyInterest(true);
      }
    }

    method HandleWrite(w: WriteResult) returns (alive: bool)
      requires Valid()
      requires w.Written? ==> w.count <= |outBuffer|
      modifies `outBuffer, `wantWrite, `interest, `ctlFailed, `sent
      ensures Valid()
      ensures (View(), alive) == ChatModel.HandleWrite(old(View()), w)
      ensures alive <==> w.Written? || old(outBuffer) == ""
      ensures w.Written? ==> outBuffer == old(outBuffer)[w.count..]
      ensures w.WriteFailed? ==> outBuffer == old(outBuffer)
      ensures alive && old(outBuffer) != "" ==> sent == old(sent) + old(outBuffer)[..w.count]
      ensures !(alive && old(outBuffer) != "") ==> sent == old(sent)
    {
      if outBuffer == "" {
        if wantWrite {
          wantWrite := false;
          ModifyInterest(false);
        }
        return true;
      }
      match w
      case WriteFailed =>
        return false;
      case Written(n) =>
        sent := sent + outBuffer[..n];
        outBuffer := outBuffer[n..];
        if outBuffer == "" && wantWrite {
          wantWrite := false;
          ModifyInterest(false);
        }
        return true;
    }
  }

  class Room {
    const name: string
    var password: string
    var userCount: int

    ghost function View(): RoomInfo
      reads this
    {
      RoomInfo(password, userCount)
    }

    constructor (name: string, password: string)
      ensures this.name == name && View() == RoomInfo(password, 0)
    {
      this.name, this.password, userCount := name, password, 0;
    }

    method SetPassword(p: string)
      modifies `password
      ensures password == p
    {
      password := p;
    }

    method VerificationPassword(p: string) returns (ok: bool)
      ensures ok <==> password == p
    {
      return password == p;
    }

    method IncreaseUserCounter()
      modifies `userCount
      ensures userCount == old(userCount) + 1
    {
      userCount := userCount + 1;
    }

    method DecreaseUserCounter()
      modifies `userCount
      ensures userCount == old(userCount) - 1
    {
      userCount := userCount - 1;
    }
  }

  method Pick<T>(s: set<T>) returns (x: T)
    requires s != {}
    ensures x in s
  {
    x :| x in s;
  }

  /** The order in which a hash map is walked: any enumeration of its keys. */
  method IterationOrder<T(!new, ==)>(keys: set<T>) returns (order: seq<T>)
    ensures Enumerates(order, keys)
  {
    order := [];
    var todo := keys;
    while todo != {}
      invariant todo <= keys
      invariant forall k :: k in keys <==> k in order || k in todo
      invariant forall k | k in order :: k !in todo
      invariant forall i, j | 0 <= i < j < |order| :: order[i] != order[j]
      decreases |todo|
    {
      var k := Pick(todo);
      order := order + [k];
      todo := todo - {k};
    }
  }

  /** One read(2) on a non-blocking socket; a list of results ends where read would block. */
  datatype ReadResult = Data(bytes: string) | Eof | ReadError

  function DataOf(input: seq<ReadResult>): string {
    if input == [] || !input[0].Data? then "" else input[0].bytes + DataOf(input[1..])
  }

  predicate Closes(input: seq<ReadResult>) {
    input != [] && (!input[0].Data? || Closes(input[1..]))
  }

  function Datas(chunks: seq<string>): seq<ReadResult> {
    if chunks == [] then [] else [Data(chunks[0])] + Datas(chunks[1..])
  }

  /** Any list of results is some chunks, whose concatenation is the data, and then nothing more to read,
      or an end of stream or an error, which closes the connection whatever would follow. */
  lemma {:induction false} ReadShape(input: seq<ReadResult>) returns (chunks: seq<string>, rest: seq<ReadResult>)
    ensures input == Datas(chunks) + rest && (rest == [] || rest[0] == Eof || rest[0] == ReadError)
    ensures DataOf(input) == Concat(chunks)
    ensures Closes(input) <==> rest != []
  {
    if input == [] || !input[0].Data? {
      chunks, rest := [], input;
    } else {
      var cs, r := ReadShape(input[1..]);
      chunks, rest := [input[0].bytes] + cs, r;
      assert chunks[1..] == cs;
      Assoc([input[0]], Datas(cs), rest);
    }
  }

  /** One line event of client fd per message, in order. */
  ghost predicate Spoken(es: seq<Event>, fd: int, messages: seq<string>) {
    && |es| == |messages|
    && forall i | 0 <= i < |es| :: Says(es[i], fd, messages[i])
  }

  /** The events added are one per message, then the hangup if the stream ended. */
  ghost predicate ReadBy(before: seq<Event>, after: seq<Event>, fd: int, messages: seq<string>, closed: bool) {
    exists es :: Spoken(es, fd, messages) && after == before + es + (if closed then [Hangup(fd)] else [])
  }

  /** A broadcast that has so far come to the clients in done. */
  ghost function BroadcastTo(cs: Sessions, done: set<int>, msg: string, room: string): Sessions {
    map fd | fd in cs :: if fd in done && Hears(cs[fd], room) then Queue(cs[fd], msg) else cs[fd]
  }

  lemma OneMoreHears(cs: Sessions, done: set<int>, k: int, msg: string, room: string)
    requires k in cs && k !in done
    ensures BroadcastTo(cs, done + {k}, msg, room) ==
            if Hears(cs[k], room) then ChatModel.Tell(BroadcastTo(cs, done, msg, room), k, msg)
            else BroadcastTo(cs, done, msg, room)
  {
  }

  lemma TakeSnoc<T>(s: seq<T>, i: nat)
    requires i < |s|
    ensures s[..i + 1] == s[..i] + [s[i]]
  {
  }

  lemma {:induction false} SpacedAppend(words: seq<string>, w: string)
    ensures Spaced(words + [w]) == Spaced(words) + (w + " ")
  {
    if words == [] {
      assert [w][1..] == [];
    } else {
      assert (words + [w])[1..] == words[1..] + [w];
      SpacedAppend(words[1..], w);
    }
  }

  lemma {:induction false} OnlineNamesSnoc(cs: Sessions, order: seq<int>, k: int, room: string)
    ensures OnlineNames(cs, order + [k], room) ==
            OnlineNames(cs, order, room) + (if k in cs && cs[k].room == room then [cs[k].nickname] else [])
  {
    if order == [] {
      assert [k][1..] == [];
    } else {
      assert (order + [k])[1..] == order[1..] + [k];
      OnlineNamesSnoc(cs, order[1..], k, room);
    }
  }

  lemma OnlineNamesAppend(cs: Sessions, order: seq<int>, k: int, room: string)
    ensures Spaced(OnlineNames(cs, order + [k], room)) ==
            Spaced(OnlineNames(cs, order, room)) + (if k in cs && cs[k].room == room then cs[k].nickname + " " else "")
  {
    var names := OnlineNames(cs, order, room);
    OnlineNamesSnoc(cs, order, k, room);
    if k in cs && cs[k].room == room {
      SpacedAppend(names, cs[k].nickname);
    } else {
      assert names + [] == names;
    }
  }

  lemma {:induction false} RoomEntriesSnoc(rooms: map<string, RoomInfo>, order: seq<string>, r: string)
    requires r in rooms
    ensures RoomEntries(rooms, order + [r]) == RoomEntries(rooms, order) + [RoomEntry(r, rooms[r].userCount)]
  {
    if order == [] {
      assert [r][1..] == [];
    } else {
      var rest, e := order[1..], RoomEntry(r, rooms[r].userCount);
      assert (order + [r])[1..] == rest + [r];
      RoomEntriesSnoc(rooms, rest, r);
      var head := if order[0] in rooms then [RoomEntry(order[0], rooms[order[0]].userCount)] else [];
      Assoc(head, RoomEntries(rooms, rest), [e]);
    }
  }

  lemma RoomEntriesAppend(rooms: map<string, RoomInfo>, order: seq<string>, r: string)
    requires r in rooms
    ensures Spaced(RoomEntries(rooms, order + [r])) ==
            Spaced(RoomEntries(rooms, order)) + (RoomEntry(r, rooms[r].userCount) + " ")
  {
    RoomEntriesSnoc(rooms, order, r);
    SpacedAppend(RoomEntries(rooms, order), RoomEntry(r, rooms[r].userCount));
  }

  lemma NothingRead(events: seq<Event>, fd: int, buffer: string)
    ensures ReadBy(events, events, fd, Messages([]), false)
    ensures Lines(buffer) == [] + Lines(buffer)
  {
    assert Spoken([], fd, Messages([])) && events == events + [] + [];
  }

  /** Cutting the first line off what is still pending. */
  lemma NextLine(buffer: string, served: seq<string>, pending: string)
    requires Lines(buffer) == served + Lines(pending) && Tail(buffer) == Tail(pending)
    requires Find(pending, '\n') < |pending|
    ensures var pos := Find(pending, '\n');
            Lines(buffer) == served + [pending[..pos]] + Lines(pending[pos + 1..]) &&
            Tail(buffer) == Tail(pending[pos + 1..])
  {
    hide Lines, Tail;
    var pos := Find(pending, '\n');
    FirstLine(pending);
    Assoc(served, [pending[..pos]], Lines(pending[pos + 1..]));
  }

  lemma NoMoreLines(buffer: string, served: seq<string>, pending: string)
    requires Lines(buffer) == served + Lines(pending) && Tail(buffer) == Tail(pending)
    requires Find(pending, '\n') == |pending|
    ensures Lines(buffer) == served && Tail(buffer) == pending
  {
    assert served + [] == served;
  }

  lemma OneMoreRead(before: seq<Event>, after: seq<Event>, fd: int, messages: seq<string>, e: Event)
    requires ReadBy(before, after, fd, messages, false) && e.Line? && e.fd == fd
    ensures ReadBy(before, after + [e], fd, messages + [e.line], false)
  {
    var es :| Spoken(es, fd, messages) && after == before + es + [];
    assert Spoken(es + [e], fd, messages + [e.line]);
    assert after + [e] == before + (es + [e]) + [];
  }

  /** One more raw line served: nothing to do if it is empty, else one more event. */
  lemma ServedMore(before: seq<Event>, after: seq<Event>, fd: int, served: seq<string>, raw: string)
    requires ReadBy(before, after, fd, Messages(served), false)
    ensures DropReturn(raw) == "" ==> ReadBy(before, after, fd, Messages(served + [raw]), false)
    ensures DropReturn(raw) != "" ==>
              forall o :: ReadBy(before, after + [Line(fd, Trim(DropReturn(raw)), o)], fd, Messages(served + [raw]), false)
  {
    MessagesAppend(served, raw);
    var line := DropReturn(raw);
    if line == "" {
      assert Messages(served) + [] == Messages(served);
    } else {
      forall o ensures ReadBy(before, after + [Line(fd, Trim(line), o)], fd, Messages(served) + [Trim(line)], false) {
        OneMoreRead(before, after, fd, Messages(served), Line(fd, Trim(line), o));
      }
    }
  }

  lemma NothingReadYet(events: seq<Event>, fd: int, buffer: string, input: seq<ReadResult>)
    requires '\n' !in buffer
    ensures buffer == Tail(buffer + "") && ReadBy(events, events, fd, Messages(Lines(buffer + "")), false)
    ensures DataOf(input) == "" + DataOf(input[0..]) && Closes(input) == Closes(input[0..])
  {
    assert buffer + "" == buffer && input[0..] == input;
    FindAt(buffer, '\n', |buffer|);
    NothingRead(events, fd, buffer);
  }

  lemma ReadStep(input: seq<ReadResult>, i: nat, data: string)
    requires i < |input| && DataOf(input) == data + DataOf(input[i..]) && Closes(input) == Closes(input[i..])
    ensures input[i].Data? ==>
              DataOf(input) == data + input[i].bytes + DataOf(input[i + 1..]) && Closes(input) == Closes(input[i + 1..])
    ensures !input[i].Data? ==> DataOf(input) == data && Closes(input)
  {
    assert input[i..][1..] == input[i + 1..];
    if input[i].Data? {
      Assoc(data, input[i].bytes, DataOf(input[i + 1..]));
    } else {
      assert data + "" == data;
    }
  }

  lemma ReadEnd(input: seq<ReadResult>, data: string)
    requires DataOf(input) == data + DataOf(input[|input|..]) && Closes(input) == Closes(input[|input|..])
    ensures DataOf(input) == data && !Closes(input)
  {
    assert data + "" == data;
  }

  /** The next chunk adds to the messages those it completes, and to nothing else. */
  lemma ReadAppend(start: string, data: string, bytes: string)
    ensures Messages(Lines(start + (data + bytes))) ==
            Messages(Lines(start + data)) + Messages(Lines(Tail(start + data) + bytes))
    ensures Tail(start + (data + bytes)) == Tail(Tail(start + data) + bytes)
  {
    Assoc(start, data, bytes);
    SplitAppend(start + data, bytes);
    MessagesConcat(Lines(start + data), Lines(Tail(start + data) + bytes));
  }

  lemma ReadByTwice(a: seq<Event>, b: seq<Event>, c: seq<Event>, fd: int, m1: seq<string>, m2: seq<string>)
    requires ReadBy(a, b, fd, m1, false) && ReadBy(b, c, fd, m2, false)
    ensures ReadBy(a, c, fd, m1 + m2, false)
  {
    var e1 :| Spoken(e1, fd, m1) && b == a + e1 + [];
    var e2 :| Spoken(e2, fd, m2) && c == b + e2 + [];
    assert Spoken(e1 + e2, fd, m1 + m2);
    assert c == a + (e1 + e2) + [];
  }

  lemma ClosedRead(before: seq<Event>, after: seq<Event>, fd: int, messages: seq<string>)
    requires ReadBy(before, after, fd, messages, false)
    ensures ReadBy(before, after + [Hangup(fd)], fd, messages, true)
  {
    var es :| Spoken(es, fd, messages) && after == before + es + [];
    assert after + [Hangup(fd)] == before + es + [Hangup(fd)];
  }

  /** The two answers to a /join of another room that exists. */
  lemma JoinVerdict(s: Server, fd: int, r: string)
    requires fd in s.clients && r in s.rooms && s.clients[fd].room != r
    ensures ChatModel.HandleJoinRoom(s, fd, r) ==
            if s.rooms[r].password == "" then ChatModel.JoinRoom(s, fd, r)
            else ChatModel.AskPassword(s, fd, r, StateEnterRoomPassword, "Pls, enter room password: ")
  {
  }

  /** The two answers to a password for a room that exists. */
  lemma PasswordVerdict(s: Server, fd: int, line: string)
    requires fd in s.clients && s.clients[fd].connectedRoom in s.rooms
    ensures ChatModel.EnterRoomPassword(s, fd, line) ==
            var r := s.clients[fd].connectedRoom;
            if s.rooms[r].password == line
            then ChatModel.Reply(ChatModel.SetState(ChatModel.JoinRoom(s, fd, r), fd, StateChat), fd,
                                 "Password success! Welcome to room.\n")
            else ChatModel.Reply(ChatModel.SetState(s, fd, StateChat), fd, "Incorrect password! Failed to join the room.\n")
  {
  }

  lemma ErasedAgain(cs: Sessions, fd: int, c: Session)
    requires fd !in cs
    ensures cs[fd := c] - {fd} == cs
    ensures ChatModel.Tell(cs[fd := c], fd, "Enter your nickname: ") == cs[fd := Queue(c, "Enter your nickname: ")]
  {
  }

  class ChatServer {
    var clients: map<int, Client>
    var rooms: map<string, Room>
    ghost var run: Run
    ghost var roomObjects: set<Room>  // all rooms ever made, erased ones included

    /** Objects are filed under their own names, so no two keys share one. */
    ghost predicate Owned()
      reads this
    {
      && (forall k | k in clients :: clients[k].fd == k)
      && (forall r | r in rooms :: rooms[r].name == r && rooms[r] in roomObjects)
    }

    ghost predicate ClientsValid()
      reads this, clients.Values
    {
      forall k | k in clients :: clients[k].Valid()
    }

    ghost predicate Consistent()
      reads this, clients.Values
    {
      Owned() && ClientsValid()
    }

    twostate predicate OnlyNewRooms()
      reads this
    {
      forall r | r in roomObjects :: r in old(roomObjects) || !old(allocated(r))
    }

    ghost function ClientViews(): Sessions
      reads this, clients.Values
    {
      map k | k in clients :: clients[k].View()
    }

    ghost function RoomViews(): map<string, RoomInfo>
      reads this, rooms.Values
    {
      map r | r in rooms :: rooms[r].View()
    }

    ghost function View(): Server
      reads this, clients.Values, rooms.Values
    {
      Server(ClientViews(), RoomViews())
    }

    /** The heap is the last state of a run of the model. */
    ghost predicate Linked()
      reads this, clients.Values, rooms.Values
    {
      Consistent() && IsRun(run) && Now(run) == View()
    }

    ghost predicate Valid()
      reads this, clients.Values, rooms.Values
    {
      Linked() && forall k | k in clients :: '\n' !in clients[k].inBuffer
    }

    /** Every heap between two events is consistent: the theorems about runs apply to it. */
    lemma HeapInvariant()
      requires Valid()
      ensures Inv(View())
    {
      RunOk(run, |run.events|);
    }

    ghost predicate Holds(client: Client)
      reads this
    {
      client.fd in clients && clients[client.fd] == client
    }

    /** The start of run(): no client yet, and the lobby created. */
    constructor ()
      ensures Valid() && run == Run([INITIAL], [])
    {
      clients := map[];
      var lobby := new Room(LOBBY, "");
      rooms := map[LOBBY := lobby];
      roomObjects := {lobby};
      run := Run([INITIAL], []);
      new;
      assert RoomViews() == INITIAL.rooms;
      assert ClientViews() == INITIAL.clients;
    }

    lemma ClientInView(client: Client)
      requires Holds(client)
      ensures client.fd in ClientViews() && ClientViews()[client.fd] == client.View()
    {
    }

    lemma RoomInView(r: string)
      requires r in rooms
      ensures r in RoomViews() && RoomViews()[r] == rooms[r].View()
    {
    }

    /** An update of one client's object is an update at one key of the view. */
    twostate lemma OneClientChanged(client: Client)
      requires Owned() && Holds(client) && clients == old(clients)
      requires forall k | k in clients && k != client.fd :: clients[k].View() == old(clients[k].View())
      ensures ClientViews() == old(ClientViews())[client.fd := client.View()]
    {
    }

    /** client->queue_message for a client of this server. */
    method Tell(client: Client, msg: string)
      requires Consistent() && Holds(client)
      modifies client`outBuffer, client`wantWrite, client`interest, client`ctlFailed, client`queued
      ensures Consistent()
      ensures ClientViews() == ChatModel.Tell(old(ClientViews()), client.fd, msg)
      ensures RoomViews() == old(RoomViews())
    {
      assert client.Valid();
      client.QueueMessage(msg);
      OneClientChanged(client);
    }

    /** One turn of a broadcast loop. */
    method OfferTo(cl: Client, msg: string, roomName: string, ghost before: Sessions, ghost done: set<int>)
      requires Consistent() && Holds(cl)
      requires cl.fd in before && cl.fd !in done && ClientViews() == BroadcastTo(before, done, msg, roomName)
      modifies cl`outBuffer, cl`wantWrite, cl`interest, cl`ctlFailed, cl`queued
      ensures Consistent()
      ensures ClientViews() == BroadcastTo(before, done + {cl.fd}, msg, roomName)
      ensures RoomViews() == old(RoomViews())
    {
      ClientInView(cl);
      OneMoreHears(before, done, cl.fd, msg, roomName);
      if cl.state != StateChat {
        return;
      }
      if roomName == "" || cl.room == roomName {
        Tell(cl, msg);
      }
    }

    method Broadcast(msg: string, roomName: string)
      requires Consistent()
      modifies clients.Values`outBuffer, clients.Values`wantWrite, clients.Values`interest,
               clients.Values`ctlFailed, clients.Values`queued
      ensures Consistent()
      ensures ClientViews() == ChatModel.Broadcast(old(ClientViews()), msg, roomName)
      ensures RoomViews() == old(RoomViews())
    {
      ghost var before := ClientViews();
      var todo := clients.Keys;
      while todo != {}
        invariant todo <= clients.Keys
        invariant Consistent()
        invariant ClientViews() == BroadcastTo(before, clients.Keys - todo, msg, roomName)
        decreases |todo|
      {
        var k := Pick(todo);
        OfferTo(clients[k], msg, roomName, before, clients.Keys - todo);
        assert clients.Keys - (todo - {k}) == clients.Keys - todo + {k};
        todo := todo - {k};
      }
    }

    /** The source repeats the loop, with the room test left out: the broadcast to everyone. */
    method SendDisconnectNotification(nickname: string)
      requires Consistent()
      modifies clients.Values`outBuffer, clients.Values`wantWrite, clients.Values`interest,
               clients.Values`ctlFailed, clients.Values`queued
      ensures Consistent()
      ensures ClientViews() == ChatModel.Broadcast(old(ClientViews()), LeftServerMsg(nickname), "")
      ensures RoomViews() == old(RoomViews())
    {
      Broadcast(LeftServerMsg(nickname), "");
    }

    // Rooms

    /** One user leaves room r: the counter falls, and a room other than the lobby goes at zero. */
    method ReleaseRoom(r: string)
      requires Owned() && r in rooms
      modifies `rooms, `roomObjects, roomObjects`userCount
      ensures Owned() && roomObjects == old(roomObjects)
      ensures RoomViews() == Release(old(RoomViews()), r)
      ensures ClientViews() == old(ClientViews())
    {
      rooms[r].DecreaseUserCounter();
      if rooms[r].userCount == 0 && r != LOBBY {
        rooms := rooms - {r};
      }
    }

    /** An update of one room's object is an update at one key of the view. */
    twostate lemma OneRoomChanged(r: string)
      requires Owned() && rooms == old(rooms) && r in rooms
      requires forall x | x in rooms && x != r :: rooms[x].View() == old(rooms[x].View())
      ensures RoomViews() == old(RoomViews())[r := rooms[r].View()]
    {
    }

    method CountUser(r: string)
      requires Owned() && r in rooms
      modifies roomObjects`userCount
      ensures RoomViews() ==
              old(RoomViews())[r := old(RoomViews())[r].(userCount := old(RoomViews())[r].userCount + 1)]
      ensures ClientViews() == old(ClientViews())
    {
      rooms[r].IncreaseUserCounter();
      OneRoomChanged(r);
    }

    method CreateRoom(r: string)
      requires Owned() && r !in rooms
      modifies `rooms, `roomObjects
      ensures Owned() && r in rooms && OnlyNewRooms()
      ensures RoomViews() == old(RoomViews())[r := RoomInfo("", 0)]
      ensures ClientViews() == old(ClientViews())
    {
      var room := new Room(r, "");
      rooms := rooms[r := room];
      roomObjects := roomObjects + {room};
    }

    /** One user comes to room r, which is created if absent. */
    method AdmitToRoom(r: string)
      requires Owned()
      modifies `rooms, `roomObjects, roomObjects`userCount
      ensures Owned() && OnlyNewRooms()
      ensures RoomViews() == Admit(old(RoomViews()), r)
      ensures ClientViews() == old(ClientViews())
    {
      if r !in rooms {
        CreateRoom(r);
      }
      CountUser(r);
    }

    /** The part that join_room and leave_room have in common. */
    method DepartRoom(client: Client)
      requires Consistent() && Holds(client) && client.room != "" && client.room in rooms
      modifies `rooms, `roomObjects, roomObjects`userCount,
               clients.Values`outBuffer, clients.Values`wantWrite, clients.Values`interest,
               clients.Values`ctlFailed, clients.Values`queued
      ensures Consistent() && roomObjects == old(roomObjects)
      ensures View() == Depart(old(View()), client.fd)
    {
      hide ChatModel.Broadcast, LeftRoomMsg, Release;
      ClientInView(client);
      Broadcast(LeftRoomMsg(client.nickname, client.room), client.room);
      ReleaseRoom(client.room);
    }

    method SetRoom(client: Client, newRoom: string)
      requires Consistent() && Holds(client)
      modifies client`room, client`connectedRoom
      ensures Consistent()
      ensures ClientViews() ==
              old(ClientViews())[client.fd := old(ClientViews())[client.fd].(room := newRoom, connectedRoom := "")]
      ensures client.room == newRoom
      ensures RoomViews() == old(RoomViews())
    {
      client.room := newRoom;
      client.connectedRoom := "";
      assert forall k | k in clients && k != client.fd :: clients[k] != client;
      OneClientChanged(client);
    }

    method EnterRoom(client: Client, newRoom: string)
      requires Consistent() && Holds(client)
      modifies `rooms, `roomObjects, roomObjects`userCount, client`room, client`connectedRoom,
               clients.Values`outBuffer, clients.Values`wantWrite, clients.Values`interest,
               clients.Values`ctlFailed, clients.Values`queued
      ensures Consistent() && OnlyNewRooms()
      ensures View() == Enter(old(View()), client.fd, newRoom)
    {
      AdmitToRoom(newRoom);
      SetRoom(client, newRoom);
      ClientInView(client);
      Broadcast(JoinedRoomMsg(client.nickname, client.room), client.room);
    }

    /** The source passes newRoom by reference, often to client.connectedRoom itself;
        it is last used before that field is cleared, so passing it by value is the same. */
    method JoinRoom(client: Client, newRoom: string)
      requires Consistent() && Holds(client)
      modifies `rooms, `roomObjects, roomObjects`userCount, client`room, client`connectedRoom,
               clients.Values`outBuffer, clients.Values`wantWrite, clients.Values`interest,
               clients.Values`ctlFailed, clients.Values`queued
      ensures Consistent() && OnlyNewRooms()
      ensures View() == ChatModel.JoinRoom(old(View()), client.fd, newRoom)
    {
      hide Enter;
      ghost var departed := Depart(View(), client.fd);
      ClientInView(client);
      if client.room != "" && client.room in rooms {
        DepartRoom(client);
      }
      assert View() == departed;
      EnterRoom(client, newRoom);
    }

    method LeaveRoom(client: Client)
      requires Consistent() && Holds(client)
      modifies `rooms, `roomObjects, roomObjects`userCount, client`room, client`connectedRoom,
               clients.Values`outBuffer, clients.Values`wantWrite, clients.Values`interest,
               clients.Values`ctlFailed, clients.Values`queued
      ensures Consistent() && roomObjects == old(roomObjects)
      ensures View() == ChatModel.LeaveRoom(old(View()), client.fd)
    {
      ClientInView(client);
      if client.room == "" || client.room !in rooms {
        return;
      }
      DepartRoom(client);
      SetRoom(client, "");
    }

    // Commands (class CommandHandler in the source, a friend holding a reference to the server)

    method Reply(client: Client, msg: string)
      requires Consistent() && Holds(client)
      modifies client`outBuffer, client`wantWrite, client`interest, client`ctlFailed, client`queued
      ensures Consistent()
      ensures View() == ChatModel.Reply(old(View()), client.fd, msg)
    {
      Tell(client, msg);
    }

    method SetStateAndTarget(client: Client, state: ClientState, target: string)
      requires Consistent() && Holds(client)
      modifies client`state, client`connectedRoom
      ensures Consistent()
      ensures ClientViews() ==
              old(ClientViews())[client.fd := old(ClientViews())[client.fd].(state := state, connectedRoom := target)]
      ensures RoomViews() == old(RoomViews())
    {
      client.state := state;
      client.connectedRoom := target;
      assert forall k | k in clients && k != client.fd :: clients[k] != client;
      OneClientChanged(client);
    }

    /** The next line is to be a password for the room the client wants to go to. */
    method AskPassword(client: Client, roomName: string, state: ClientState, prompt: string)
      requires Consistent() && Holds(client)
      modifies client`state, client`connectedRoom,
               client`outBuffer, client`wantWrite, client`interest, client`ctlFailed, client`queued
      ensures Consistent()
      ensures View() == ChatModel.AskPassword(old(View()), client.fd, roomName, state, prompt)
    {
      SetStateAndTarget(client, state, roomName);
      Tell(client, prompt);
    }

    method SetState(client: Client, state: ClientState)
      requires Consistent() && Holds(client)
      modifies client`state
      ensures Consistent()
      ensures View() == ChatModel.SetState(old(View()), client.fd, state)
    {
      client.state := state;
      assert forall k | k in clients && k != client.fd :: clients[k] != client;
      OneClientChanged(client);
    }

    method HandlePlainMessage(client: Client, text: string)
      requires Consistent() && Holds(client)
      modifies clients.Values`outBuffer, clients.Values`wantWrite, clients.Values`interest,
               clients.Values`ctlFailed, clients.Values`queued
      ensures Consistent()
      ensures View() == ChatModel.HandlePlainMessage(old(View()), client.fd, text)
    {
      ClientInView(client);
      Broadcast(ChatMsg(client.nickname, text), client.room);
    }

    method HandlePrivateMessage(client: Client, target: string, text: string, order: seq<int>)
      requires Consistent() && Holds(client) && Enumerates(order, clients.Keys)
      modifies clients.Values`outBuffer, clients.Values`wantWrite, clients.Values`interest,
               clients.Values`ctlFailed, clients.Values`queued
      ensures Consistent()
      ensures View() == ChatModel.HandlePrivateMessage(old(View()), client.fd, target, text, order)
    {
      ghost var cs := ClientViews();
      ghost var first := FirstAnswering(cs, order, target);
      assert client.View() == cs[client.fd];
      for i := 0 to |order|
        invariant i <= first
      {
        var cl := clients[order[i]];
        assert cl.View() == cs[order[i]];
        if cl.nickname == target && cl.state == StateChat {
          assert i == first;
          Tell(cl, PrivateFromMsg(client.nickname, text));
          Tell(client, PrivateToMsg(cl.nickname, text));
          return;
        }
        assert i != first;
      }
      Reply(client, NotFoundMsg(target));
    }

    method JoinExistingRoom(client: Client, roomName: string)
      requires Consistent() && Holds(client) && roomName in rooms && client.room != roomName
      modifies `rooms, `roomObjects, roomObjects`userCount, client`room, client`connectedRoom, client`state,
               clients.Values`outBuffer, clients.Values`wantWrite, clients.Values`interest,
               clients.Values`ctlFailed, clients.Values`queued
      ensures Consistent() && OnlyNewRooms()
      ensures View() == ChatModel.HandleJoinRoom(old(View()), client.fd, roomName)
    {
      hide ChatModel.HandleJoinRoom, ChatModel.JoinRoom, ChatModel.AskPassword;
      ClientInView(client);
      RoomInView(roomName);
      JoinVerdict(View(), client.fd, roomName);
      var passwordIsEmpty := rooms[roomName].VerificationPassword("");
      if passwordIsEmpty {
        JoinRoom(client, roomName);
      } else {
        AskPassword(client, roomName, StateEnterRoomPassword, "Pls, enter room password: ");
      }
    }

    method HandleJoinRoom(client: Client, roomName: string)
      requires Consistent() && Holds(client)
      modifies `rooms, `roomObjects, roomObjects`userCount, client`room, client`connectedRoom, client`state,
               clients.Values`outBuffer, clients.Values`wantWrite, clients.Values`interest,
               clients.Values`ctlFailed, clients.Values`queued
      ensures Consistent() && OnlyNewRooms()
      ensures View() == ChatModel.HandleJoinRoom(old(View()), client.fd, roomName)
    {
      ClientInView(client);
      if client.room == roomName {
        Reply(client, "[SERVER] You are already in this room.\n");
      } else if roomName !in rooms {
        AskPassword(client, roomName, StateSetupRoomPassword, "Create room password: ");
      } else {
        JoinExistingRoom(client, roomName);
      }
    }

    method HandleLeaveRoom(client: Client)
      requires Consistent() && Holds(client)
      modifies `rooms, `roomObjects, roomObjects`userCount, client`room, client`connectedRoom,
               clients.Values`outBuffer, clients.Values`wantWrite, clients.Values`interest,
               clients.Values`ctlFailed, clients.Values`queued
      ensures Consistent() && OnlyNewRooms()
      ensures View() == ChatModel.HandleLeaveRoom(old(View()), client.fd)
    {
      ClientInView(client);
      if client.room == LOBBY {
        Reply(client, "[SERVER] You are in lobby.\n");
        return;
      }
      JoinRoom(client, LOBBY);
    }

    method OnlineList(room: string, order: seq<int>) returns (list: string)
      requires Enumerates(order, clients.Keys)
      ensures list == "Users in room '" + room + "': " + Spaced(OnlineNames(ClientViews(), order, room))
    {
      list := "Users in room '" + room + "': ";
      ghost var head, cs := list, ClientViews();
      for i := 0 to |order|
        invariant list == head + Spaced(OnlineNames(cs, order[..i], room))
      {
        TakeSnoc(order, i);
        OnlineNamesAppend(cs, order[..i], order[i], room);
        assert order[i] in clients;
        var cl := clients[order[i]];
        if cl.room == room {
          Assoc(head, Spaced(OnlineNames(cs, order[..i], room)), cl.nickname + " ");
          list := list + (cl.nickname + " ");
        }
      }
      assert order[..|order|] == order;
    }

    method RoomList(order: seq<string>) returns (list: string)
      requires Owned() && Enumerates(order, rooms.Keys)
      ensures list == "Rooms list: " + Spaced(RoomEntries(RoomViews(), order))
    {
      list := "Rooms list: ";
      ghost var head, rs := list, RoomViews();
      for i := 0 to |order|
        invariant list == head + Spaced(RoomEntries(rs, order[..i]))
      {
        TakeSnoc(order, i);
        assert order[i] in rooms;
        RoomEntriesAppend(rs, order[..i], order[i]);
        var room := rooms[order[i]];
        var entry := RoomEntry(room.name, room.userCount) + " ";
        Assoc(head, Spaced(RoomEntries(rs, order[..i])), entry);
        list := list + entry;
      }
      assert order[..|order|] == order;
    }

    method HandleOnlineList(client: Client, order: seq<int>)
      requires Consistent() && Holds(client) && Enumerates(order, clients.Keys)
      modifies client`outBuffer, client`wantWrite, client`interest, client`ctlFailed, client`queued
      ensures Consistent()
      ensures View() == ChatModel.HandleOnlineList(old(View()), client.fd, order)
    {
      ClientInView(client);
      var list := OnlineList(client.room, order);
      assert list + "\n" == OnlineListMsg(ClientViews(), order, client.room);
      hide OnlineListMsg;
      Reply(client, list + "\n");
    }

    method HandleRoomsList(client: Client, order: seq<string>)
      requires Consistent() && Holds(client) && Enumerates(order, rooms.Keys)
      modifies client`outBuffer, client`wantWrite, client`interest, client`ctlFailed, client`queued
      ensures Consistent()
      ensures View() == ChatModel.HandleRoomsList(old(View()), client.fd, order)
    {
      var list := RoomList(order);
      assert list + "\n" == RoomsListMsg(RoomEntries(RoomViews(), order));
      hide RoomsListMsg;
      Reply(client, list + "\n");
    }

    method Execute(client: Client, line: string, o: Orders)
      requires Consistent() && Holds(client)
      requires Enumerates(o.clients, clients.Keys) && Enumerates(o.rooms, rooms.Keys)
      modifies `rooms, `roomObjects, roomObjects`userCount, client`room, client`connectedRoom, client`state,
               clients.Values`outBuffer, clients.Values`wantWrite, clients.Values`interest,
               clients.Values`ctlFailed, clients.Values`queued
      ensures Consistent() && OnlyNewRooms()
      ensures View() == ChatModel.Execute(old(View()), client.fd, line, o)
    {
      hide ChatModel.HandleJoinRoom, ChatModel.HandleLeaveRoom, ChatModel.HandlePrivateMessage,
           ChatModel.HandlePlainMessage, ChatModel.HandleOnlineList, ChatModel.HandleRoomsList;
      ghost var s, fd := View(), client.fd;
      match Commands.Parse(line)
      case PrivateMessage(target, text) =>
        HandlePrivateMessage(client, target, text, o.clients);
        assert View() == ChatModel.Execute(s, fd, line, o);
      case PlainMessage(text) =>
        HandlePlainMessage(client, text);
        assert View() == ChatModel.Execute(s, fd, line, o);
      case JoinRoom(target) =>
        HandleJoinRoom(client, target);
        assert View() == ChatModel.Execute(s, fd, line, o);
      case LeaveRoom =>
        HandleLeaveRoom(client);
        assert View() == ChatModel.Execute(s, fd, line, o);
      case OnlineList =>
        HandleOnlineList(client, o.clients);
        assert View() == ChatModel.Execute(s, fd, line, o);
      case RoomList =>
        HandleRoomsList(client, o.rooms);
        assert View() == ChatModel.Execute(s, fd, line, o);
      case Unknown =>
        assert View() == ChatModel.Execute(s, fd, line, o);
    }

    // Session transitions

    method SetNickname(client: Client, nickname: string)
      requires Consistent() && Holds(client)
      modifies client`nickname, client`state
      ensures Consistent()
      ensures ClientViews() ==
              old(ClientViews())[client.fd := old(ClientViews())[client.fd].(nickname := nickname, state := StateChat)]
      ensures RoomViews() == old(RoomViews())
    {
      client.nickname := nickname;
      client.state := StateChat;
      assert forall k | k in clients && k != client.fd :: clients[k] != client;
      OneClientChanged(client);
    }

    method SetupNickname(client: Client, line: string)
      requires Consistent() && Holds(client)
      modifies `rooms, `roomObjects, roomObjects`userCount, client`room, client`connectedRoom,
               client`nickname, client`state,
               clients.Values`outBuffer, clients.Values`wantWrite, clients.Values`interest,
               clients.Values`ctlFailed, clients.Values`queued
      ensures Consistent() && OnlyNewRooms()
      ensures View() == ChatModel.SetupNickname(old(View()), client.fd, line)
    {
      SetNickname(client, line);
      JoinRoom(client, LOBBY);
      Reply(client, WelcomeMsg(line));
    }

    method SetRoomPassword(r: string, password: string)
      requires Owned() && r in rooms
      modifies roomObjects`password
      ensures RoomViews() == old(RoomViews())[r := old(RoomViews())[r].(password := password)]
      ensures ClientViews() == old(ClientViews())
    {
      rooms[r].SetPassword(password);
      OneRoomChanged(r);
    }

    /** The end of every password dialogue. */
    method BackToChat(client: Client, msg: string)
      requires Consistent() && Holds(client)
      modifies client`state, client`outBuffer, client`wantWrite, client`interest, client`ctlFailed, client`queued
      ensures Consistent()
      ensures View() == ChatModel.Reply(ChatModel.SetState(old(View()), client.fd, StateChat), client.fd, msg)
    {
      SetState(client, StateChat);
      Reply(client, msg);
    }

    method SetupRoomPassword(client: Client, line: string)
      requires Consistent() && Holds(client)
      modifies `rooms, `roomObjects, roomObjects`userCount, roomObjects`password,
               client`room, client`connectedRoom, client`state,
               clients.Values`outBuffer, clients.Values`wantWrite, clients.Values`interest,
               clients.Values`ctlFailed, clients.Values`queued
      ensures Consistent() && OnlyNewRooms()
      ensures View() == ChatModel.SetupRoomPassword(old(View()), client.fd, line)
    {
      ClientInView(client);
      ghost var r, fd := client.connectedRoom, client.fd;
      JoinRoom(client, client.connectedRoom);
      JoinRoomSessions(old(View()), fd, r);
      ClientInView(client);
      assert client.room == r && r in RoomViews();
      SetRoomPassword(client.room, line);
      BackToChat(client, "Password success setup, welcome to room!\n");
    }

    method JoinThenChat(client: Client, roomName: string, msg: string)
      requires Consistent() && Holds(client)
      modifies `rooms, `roomObjects, roomObjects`userCount, client`room, client`connectedRoom, client`state,
               clients.Values`outBuffer, clients.Values`wantWrite, clients.Values`interest,
               clients.Values`ctlFailed, clients.Values`queued
      ensures Consistent() && OnlyNewRooms()
      ensures View() == ChatModel.Reply(ChatModel.SetState(ChatModel.JoinRoom(old(View()), client.fd, roomName),
                                                           client.fd, StateChat), client.fd, msg)
    {
      hide ChatModel.JoinRoom, ChatModel.Reply, ChatModel.SetState;
      JoinRoom(client, roomName);
      BackToChat(client, msg);
    }

    method CheckPassword(client: Client, line: string)
      requires Consistent() && Holds(client) && client.connectedRoom in rooms
      modifies `rooms, `roomObjects, roomObjects`userCount, client`room, client`connectedRoom, client`state,
               clients.Values`outBuffer, clients.Values`wantWrite, clients.Values`interest,
               clients.Values`ctlFailed, clients.Values`queued
      ensures Consistent() && OnlyNewRooms()
      ensures View() == ChatModel.EnterRoomPassword(old(View()), client.fd, line)
    {
      hide ChatModel.EnterRoomPassword, ChatModel.JoinRoom, ChatModel.Reply, ChatModel.SetState;
      ClientInView(client);
      RoomInView(client.connectedRoom);
      PasswordVerdict(View(), client.fd, line);
      var ok := rooms[client.connectedRoom].VerificationPassword(line);
      if ok {
        JoinThenChat(client, client.connectedRoom, "Password success! Welcome to room.\n");
      } else {
        BackToChat(client, "Incorrect password! Failed to join the room.\n");
      }
    }

    method EnterRoomPassword(client: Client, line: string)
      requires Consistent() && Holds(client)
      modifies `rooms, `roomObjects, roomObjects`userCount, client`room, client`connectedRoom, client`state,
               clients.Values`outBuffer, clients.Values`wantWrite, clients.Values`interest,
               clients.Values`ctlFailed, clients.Values`queued
      ensures Consistent() && OnlyNewRooms()
      ensures View() == ChatModel.EnterRoomPassword(old(View()), client.fd, line)
    {
      hide ChatModel.JoinRoom, ChatModel.Reply, ChatModel.SetState;
      ClientInView(client);
      if client.connectedRoom !in rooms {
        BackToChat(client, "The room has been deleted.\n");
      } else {
        CheckPassword(client, line);
      }
    }

    /** o: the orders in which the two maps are walked while this line is served. */
    method ProcessMessage(client: Client, line: string) returns (ghost o: Orders)
      requires Consistent() && Holds(client)
      modifies `rooms, `roomObjects, roomObjects`userCount, roomObjects`password,
               client`room, client`connectedRoom, client`nickname, client`state,
               clients.Values`outBuffer, clients.Values`wantWrite, clients.Values`interest,
               clients.Values`ctlFailed, clients.Values`queued
      ensures Consistent() && OnlyNewRooms()
      ensures Enumerates(o.clients, old(clients.Keys)) && Enumerates(o.rooms, old(rooms.Keys))
      ensures View() == ChatModel.ProcessMessage(old(View()), client.fd, line, o)
    {
      hide ChatModel.SetupNickname, ChatModel.SetupRoomPassword, ChatModel.EnterRoomPassword, ChatModel.Execute;
      var co := IterationOrder(clients.Keys);
      var ro := IterationOrder(rooms.Keys);
      o := Orders(co, ro);
      ClientInView(client);
      ghost var s, fd := View(), client.fd;
      match client.state
      case StateNickname =>
        SetupNickname(client, line);
        assert View() == ChatModel.ProcessMessage(s, fd, line, o);
      case StateSetupRoomPassword =>
        SetupRoomPassword(client, line);
        assert View() == ChatModel.ProcessMessage(s, fd, line, o);
      case StateEnterRoomPassword =>
        EnterRoomPassword(client, line);
        assert View() == ChatModel.ProcessMessage(s, fd, line, o);
      case StateChat =>
        Execute(client, line, Orders(co, ro));
        assert View() == ChatModel.ProcessMessage(s, fd, line, o);
    }

    // Events

    method ForgetClient(fd: int)
      requires Consistent()
      modifies `clients
      ensures Consistent() && clients == old(clients) - {fd}
      ensures View() == old(View()).(clients := old(ClientViews()) - {fd})
    {
      clients := clients - {fd};
    }

    /** disconnect_client: leave the room, tell everyone, forget the client. */
    method Disconnect(client: Client)
      requires Consistent() && Holds(client)
      modifies `clients, `rooms, `roomObjects, roomObjects`userCount, client`room, client`connectedRoom,
               clients.Values`outBuffer, clients.Values`wantWrite, clients.Values`interest,
               clients.Values`ctlFailed, clients.Values`queued
      ensures Consistent() && OnlyNewRooms()
      ensures clients == old(clients) - {client.fd}
      ensures View() == ChatModel.Disconnect(old(View()), client.fd)
    {
      ghost var d := ChatModel.LeaveRoom(View(), client.fd);
      LeaveRoom(client);
      ClientInView(client);
      if client.nickname != "" {
        SendDisconnectNotification(client.nickname);
      }
      assert View() == d.(clients := if d.clients[client.fd].nickname == "" then d.clients
                                     else ChatModel.Broadcast(d.clients, LeftServerMsg(client.nickname), ""));
      ForgetClient(client.fd);
    }

    /** The heap has made one more step. */
    ghost method Record(e: Event)
      requires Consistent() && IsRun(run) && Enabled(Now(run), e) && View() == Step(Now(run), e)
      modifies `run
      ensures Linked() && run == Extend(old(run), e)
    {
      ExtendIsRun(run, e);
      run := Extend(run, e);
    }

    /** disconnect_client as the reaction to an event: recorded as a hangup. */
    method CloseConnection(client: Client)
      requires Linked() && Holds(client)
      modifies `run, `clients, `rooms, `roomObjects, roomObjects`userCount, client`room, client`connectedRoom,
               clients.Values`outBuffer, clients.Values`wantWrite, clients.Values`interest,
               clients.Values`ctlFailed, clients.Values`queued
      ensures Linked() && OnlyNewRooms() && clients == old(clients) - {client.fd}
      ensures Enabled(Now(old(run)), Hangup(client.fd)) && run == Extend(old(run), Hangup(client.fd))
    {
      hide ChatModel.Disconnect, IsRun, Extend;
      ClientInView(client);
      Disconnect(client);
      Record(Hangup(client.fd));
    }

    /** EPOLLERR or EPOLLHUP on a client. */
    method HangupClient(client: Client)
      requires Valid() && Holds(client)
      modifies `run, `clients, `rooms, `roomObjects, roomObjects`userCount, client`room, client`connectedRoom,
               clients.Values`outBuffer, clients.Values`wantWrite, clients.Values`interest,
               clients.Values`ctlFailed, clients.Values`queued
      ensures Valid()
      ensures Enabled(Now(old(run)), Hangup(client.fd)) && run == Extend(old(run), Hangup(client.fd))
    {
      CloseConnection(client);
    }

    method Prompt(raw: Client)
      requires Consistent() && Holds(raw)
      modifies raw`outBuffer, raw`wantWrite, raw`interest, raw`ctlFailed, raw`queued
      ensures Consistent()
      ensures View() == old(View()).(clients := ChatModel.Tell(old(ClientViews()), raw.fd, "Enter your nickname: "))
    {
      hide Queue;
      Tell(raw, "Enter your nickname: ");
    }

    method AddClient(raw: Client)
      requires Consistent() && raw.fd !in clients && raw.Valid()
      modifies `clients
      ensures Consistent() && clients == old(clients)[raw.fd := raw]
      ensures View() == old(View()).(clients := old(ClientViews())[raw.fd := raw.View()])
    {
      clients := clients[raw.fd := raw];
    }

    /** The entry is erased again when the descriptor cannot be registered with epoll. */
    method InsertClient(fd: int, registered: bool)
      requires Consistent() && fd !in clients
      requires forall k | k in clients :: '\n' !in clients[k].inBuffer
      modifies `clients
      ensures Consistent()
      ensures forall k | k in clients :: '\n' !in clients[k].inBuffer
      ensures View() == if registered
                        then old(View()).(clients := old(ClientViews())[fd := Queue(NEW_SESSION, "Enter your nickname: ")])
                        else old(View())
    {
      hide Queue;
      var raw := new Client(fd);
      ghost var s := View();
      AddClient(raw);
      ErasedAgain(s.clients, fd, NEW_SESSION);
      if registered {
        Prompt(raw);
        assert View() == s.(clients := s.clients[fd := Queue(NEW_SESSION, "Enter your nickname: ")]);
      } else {
        ForgetClient(fd);
        assert View() == s;
      }
    }

    method AcceptNewClient(fd: int, registered: bool)
      requires Valid() && fd !in clients
      modifies `run, `clients
      ensures Valid()
      ensures Enabled(Now(old(run)), Accept(fd, registered)) && run == Extend(old(run), Accept(fd, registered))
    {
      hide IsRun, Extend, Queue;
      InsertClient(fd, registered);
      Record(Accept(fd, registered));
    }

    /** client->handle_write for a client of this server. */
    method FlushClient(client: Client, w: WriteResult) returns (alive: bool)
      requires Consistent() && Holds(client)
      requires w.Written? ==> w.count <= |client.outBuffer|
      modifies client`outBuffer, client`wantWrite, client`interest, client`ctlFailed, client`sent
      ensures Consistent()
      ensures client.fd in old(ClientViews()) && old(ClientViews())[client.fd] == old(client.View())
      ensures var (c, ok) := ChatModel.HandleWrite(old(client.View()), w);
              alive == ok && View() == old(View()).(clients := old(ClientViews())[client.fd := c])
    {
      assert client.Valid();
      alive := client.HandleWrite(w);
      assert forall k | k in clients && k != client.fd :: clients[k] != client;
      OneClientChanged(client);
    }

    method HandleClientWrite(client: Client, w: WriteResult)
      requires Valid() && Holds(client)
      requires w.Written? ==> w.count <= |client.outBuffer|
      modifies `run, `clients, `rooms, `roomObjects, roomObjects`userCount, client`room, client`connectedRoom, client`sent,
               clients.Values`outBuffer, clients.Values`wantWrite, clients.Values`interest,
               clients.Values`ctlFailed, clients.Values`queued
      ensures Valid()
      ensures Enabled(Now(old(run)), WriteReady(client.fd, w)) && run == Extend(old(run), WriteReady(client.fd, w))
    {
      hide ChatModel.Disconnect, IsRun, Extend;
      ClientInView(client);
      var alive := FlushClient(client, w);
      if !alive {
        assert View() == old(View());
        Disconnect(client);
      }
      Record(WriteReady(client.fd, w));
    }

    // Reading

    /** One line of a client's input becomes one event of the run. */
    method ServeLine(client: Client, line: string) returns (ghost o: Orders)
      requires Linked() && Holds(client)
      modifies `run, `rooms, `roomObjects, roomObjects`userCount, roomObjects`password,
               client`room, client`connectedRoom, client`nickname, client`state,
               clients.Values`outBuffer, clients.Values`wantWrite, clients.Values`interest,
               clients.Values`ctlFailed, clients.Values`queued
      ensures Linked() && OnlyNewRooms()
      ensures Enabled(Now(old(run)), Line(client.fd, line, o)) && run == Extend(old(run), Line(client.fd, line, o))
    {
      hide ChatModel.ProcessMessage, IsRun, Extend;
      ClientInView(client);
      o := ProcessMessage(client, line);
      Record(Line(client.fd, line, o));
    }

    /** in_buffer's first line, without its newline; what follows stays pending. */
    method TakeLine(client: Client, pos: nat) returns (line: string)
      requires Linked() && Holds(client) && pos < |client.inBuffer|
      modifies client`inBuffer
      ensures Linked()
      ensures line == old(client.inBuffer)[..pos] && client.inBuffer == old(client.inBuffer)[pos + 1..]
    {
      line := client.inBuffer[..pos];
      client.inBuffer := client.inBuffer[pos + 1..];
    }

    /** The carriage return is dropped, an empty line is skipped, and the rest is trimmed and served. */
    method ServeRaw(client: Client, raw: string, ghost events: seq<Event>, ghost served: seq<string>)
      requires Linked() && Holds(client)
      requires ReadBy(events, run.events, client.fd, Messages(served), false)
      modifies `run, `rooms, `roomObjects, roomObjects`userCount, roomObjects`password,
               client`room, client`connectedRoom, client`nickname, client`state,
               clients.Values`outBuffer, clients.Values`wantWrite, clients.Values`interest,
               clients.Values`ctlFailed, clients.Values`queued
      ensures Linked() && OnlyNewRooms()
      ensures ReadBy(events, run.events, client.fd, Messages(served + [raw]), false)
    {
      hide ReadBy, Messages, DropReturn, IsRun, Linked;
      ServedMore(events, run.events, client.fd, served, raw);
      var line := DropReturn(raw);
      if line != "" {
        line := TrimString(line);
        var o := ServeLine(client, line);
      }
    }

    /** The inner loop of handle_client_read: serve every complete line of the buffer. */
    method ServeLines(client: Client)
      requires Linked() && Holds(client)
      modifies `run, `rooms, `roomObjects, roomObjects`userCount, roomObjects`password,
               client`inBuffer, client`room, client`connectedRoom, client`nickname, client`state,
               clients.Values`outBuffer, clients.Values`wantWrite, clients.Values`interest,
               clients.Values`ctlFailed, clients.Values`queued
      ensures Linked() && OnlyNewRooms()
      ensures client.inBuffer == Tail(old(client.inBuffer))
      ensures ReadBy(old(run.events), run.events, client.fd, Messages(Lines(old(client.inBuffer))), false)
    {
      hide ReadBy, Lines, Tail, Messages, IsRun;
      ghost var buffer, events := client.inBuffer, run.events;
      ghost var served: seq<string> := [];
      NothingRead(events, client.fd, buffer);
      var pos := Find(client.inBuffer, '\n');
      while pos < |client.inBuffer|
        invariant pos == Find(client.inBuffer, '\n')
        invariant Linked() && OnlyNewRooms()
        invariant Lines(buffer) == served + Lines(client.inBuffer) && Tail(buffer) == Tail(client.inBuffer)
        invariant ReadBy(events, run.events, client.fd, Messages(served), false)
        decreases |client.inBuffer|
      {
        NextLine(buffer, served, client.inBuffer);
        var raw := TakeLine(client, pos);
        ServeRaw(client, raw, events, served);
        served := served + [raw];
        pos := Find(client.inBuffer, '\n');
      }
      NoMoreLines(buffer, served, client.inBuffer);
    }

    method AppendInput(client: Client, bytes: string)
      requires Linked() && Holds(client)
      modifies client`inBuffer
      ensures Linked() && client.inBuffer == old(client.inBuffer) + bytes
    {
      client.inBuffer := client.inBuffer + bytes;
    }

    /** handle_client_read: one event per message of the bytes read, wherever the reads happen to cut them,
        and a hangup when the stream ends or fails. */
    method HandleClientRead(client: Client, input: seq<ReadResult>)
      requires Valid() && Holds(client)
      modifies `run, `clients, `rooms, `roomObjects, roomObjects`userCount, roomObjects`password,
               client`inBuffer, client`room, client`connectedRoom, client`nickname, client`state,
               clients.Values`outBuffer, clients.Values`wantWrite, clients.Values`interest,
               clients.Values`ctlFailed, clients.Values`queued
      ensures Valid()
      ensures Closes(input) ==> clients == old(clients) - {client.fd}
      ensures !Closes(input) ==> clients == old(clients) && client.inBuffer == Tail(old(client.inBuffer) + DataOf(input))
      ensures ReadBy(old(run.events), run.events, client.fd,
                     Messages(Lines(old(client.inBuffer) + DataOf(input))), Closes(input))
    {
      hide ReadBy, Lines, Tail, Messages, IsRun, DataOf, Closes;
      ghost var start, events := client.inBuffer, run.events;
      ghost var data := "";
      NothingReadYet(events, client.fd, start, input);
      var i := 0;
      while i < |input|
        invariant 0 <= i <= |input|
        invariant Valid() && OnlyNewRooms() && clients == old(clients)
        invariant DataOf(input) == data + DataOf(input[i..]) && Closes(input) == Closes(input[i..])
        invariant client.inBuffer == Tail(start + data)
        invariant ReadBy(events, run.events, client.fd, Messages(Lines(start + data)), false)
      {
        ReadStep(input, i, data);
        if !input[i].Data? {
          ghost var es := run.events;
          CloseConnection(client);
          ClosedRead(events, es, client.fd, Messages(Lines(start + data)));
          return;
        }
        ghost var before := run.events;
        ReadAppend(start, data, input[i].bytes);
        AppendInput(client, input[i].bytes);
        SplitNewlineFree(client.inBuffer);
        ServeLines(client);
        ReadByTwice(events, before, run.events, client.fd, Messages(Lines(start + data)),
                    Messages(Lines(Tail(start + data) + input[i].bytes)));
        data := data + input[i].bytes;
        i := i + 1;
      }
      ReadEnd(input, data);
    }
  }
}
