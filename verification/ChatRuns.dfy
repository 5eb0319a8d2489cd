/** Whole runs of the chat server: where rooms, passwords and members come from, and who hears what. */
module ChatRuns {
  import opened Text
  import Commands
  import Framing
  import opened ChatModel
  import opened ChatInvariant
  import R = ChatReference

  /** Any interleaving of the clients' lines, writes, connections and disconnections. */
  datatype Run = Run(states: seq<Server>, events: seq<Event>)

  ghost predicate IsRun(run: Run) {
    && |run.states| == |run.events| + 1
    && run.states[0] == INITIAL
    && forall i | 0 <= i < |run.events| ::
         Enabled(run.states[i], run.events[i]) && run.states[i + 1] == Step(run.states[i], run.events[i])
  }

  ghost function Now(run: Run): Server
    requires IsRun(run)
  {
    run.states[|run.events|]
  }

  ghost function Extend(run: Run, e: Event): Run
    requires IsRun(run) && Enabled(Now(run), e)
  {
    Run(run.states + [Step(Now(run), e)], run.events + [e])
  }

  lemma ExtendIsRun(run: Run, e: Event)
    requires IsRun(run) && Enabled(Now(run), e)
    ensures IsRun(Extend(run, e)) && Now(Extend(run, e)) == Step(Now(run), e)
  {
    hide Step, Enabled;
  }

  /** The invariant holds in every reachable state. */
  lemma {:induction false} RunOk(run: Run, n: nat)
    requires IsRun(run) && n <= |run.events|
    ensures Inv(run.states[n])
  {
    if n == 0 {
      InitialOk();
    } else {
      RunOk(run, n - 1);
      StepOk(run.states[n - 1], run.events[n - 1]);
    }
  }

  /** Every run of the counting server is, step for step, a run of the counter-free one. */
  lemma RunRefines(run: Run, n: nat)
    requires IsRun(run) && n < |run.events|
    ensures R.PlainEnabled(R.Forget(run.states[n]), run.events[n])
    ensures R.Forget(run.states[n + 1]) == R.PlainStep(R.Forget(run.states[n]), run.events[n])
  {
    RunOk(run, n);
    R.StepSimulated(run.states[n], run.events[n]);
  }

  // Where rooms and passwords come from

  /** The line that answers "Create room password" for room r. */
  ghost predicate Completes(s: Server, e: Event, r: string) {
    e.Line? && e.fd in s.clients && s.clients[e.fd].state == StateSetupRoomPassword && s.clients[e.fd].connectedRoom == r
  }

  /** Rooms after join_room: none is new except the one joined, and no password changes. */
  ghost predicate RoomsFrom(s: Server, s': Server, r: string) {
    forall x | x in s'.rooms && (x != r || r in s.rooms) :: x in s.rooms && s'.rooms[x].password == s.rooms[x].password
  }

  lemma JoinRoomsFrom(s: Server, fd: int, r: string)
    requires RoomsOk(s) && fd in s.clients && s.clients[fd].room != r
    ensures RoomsFrom(s, JoinRoom(s, fd, r), r)
  {
    R.DepartPasswords(s, fd);
    var d := Depart(s, fd);
    assert r in s.rooms ==> r in d.rooms;
  }

  lemma HandleJoinRoomsFrom(s: Server, fd: int, r: string)
    requires RoomsOk(s) && fd in s.clients
    ensures RoomsFrom(s, HandleJoinRoom(s, fd, r), LOBBY)
  {
    if s.clients[fd].room != r && r in s.rooms && s.rooms[r].password == "" {
      JoinRoomsFrom(s, fd, r);
    }
  }

  lemma NicknameRoomsFrom(s: Server, fd: int, line: string)
    requires Inv(s) && fd in s.clients && s.clients[fd].state == StateNickname
    ensures RoomsFrom(s, SetupNickname(s, fd, line), LOBBY)
  {
    hide JoinRoom;
    assert SessionOk(s.clients[fd]);
    var named := s.(clients := s.clients[fd := s.clients[fd].(nickname := line, state := StateChat)]);
    RoomsOkSameRooms(s, named.clients);
    JoinRoomsFrom(named, fd, LOBBY);
  }

  lemma EnterRoomsFrom(s: Server, fd: int, line: string)
    requires Inv(s) && fd in s.clients && s.clients[fd].state == StateEnterRoomPassword
    ensures RoomsFrom(s, EnterRoomPassword(s, fd, line), LOBBY)
  {
    hide JoinRoom;
    assert SessionOk(s.clients[fd]);
    if s.clients[fd].connectedRoom in s.rooms {
      JoinRoomsFrom(s, fd, s.clients[fd].connectedRoom);
    }
  }

  lemma ExecuteRoomsFrom(s: Server, fd: int, line: string, o: Orders)
    requires RoomsOk(s) && fd in s.clients
    ensures RoomsFrom(s, Execute(s, fd, line, o), LOBBY)
  {
    hide JoinRoom, HandleJoinRoom, RoomsOk;
    match Commands.Parse(line)
    case JoinRoom(target) => HandleJoinRoomsFrom(s, fd, target);
    case LeaveRoom =>
      if s.clients[fd].room != LOBBY {
        JoinRoomsFrom(s, fd, LOBBY);
      }
    case _ =>
  }

  /** A line that completes no setup creates no room and changes no password. */
  lemma LineRoomsFrom(s: Server, fd: int, line: string, o: Orders)
    requires Inv(s) && fd in s.clients && s.clients[fd].state != StateSetupRoomPassword
    ensures RoomsFrom(s, ProcessMessage(s, fd, line, o), LOBBY)
  {
    hide RoomsFrom, Execute, SetupNickname, EnterRoomPassword;
    match s.clients[fd].state
    case StateNickname => NicknameRoomsFrom(s, fd, line);
    case StateEnterRoomPassword => EnterRoomsFrom(s, fd, line);
    case StateChat => ExecuteRoomsFrom(s, fd, line, o);
  }

  lemma SetupRooms(s: Server, fd: int, line: string)
    requires Inv(s) && fd in s.clients && s.clients[fd].state == StateSetupRoomPassword
    ensures var r := s.clients[fd].connectedRoom; var s' := SetupRoomPassword(s, fd, line);
            r in s'.rooms && s'.rooms[r].password == line &&
            forall x | x in s'.rooms && x != r :: x in s.rooms && s'.rooms[x].password == s.rooms[x].password
  {
    assert SessionOk(s.clients[fd]);
    JoinRoomsFrom(s, fd, s.clients[fd].connectedRoom);
  }

  lemma LinePassword(s: Server, fd: int, line: string, o: Orders, r: string)
    requires Inv(s) && fd in s.clients && r in ProcessMessage(s, fd, line, o).rooms && r != LOBBY
    ensures var password := ProcessMessage(s, fd, line, o).rooms[r].password;
            if Completes(s, Line(fd, line, o), r) then password == line
            else r in s.rooms && password == s.rooms[r].password
  {
    hide Execute, SetupNickname, SetupRoomPassword, EnterRoomPassword;
    if s.clients[fd].state == StateSetupRoomPassword {
      SetupRooms(s, fd, line);
    } else {
      hide ProcessMessage;
      LineRoomsFrom(s, fd, line, o);
    }
  }

  lemma DisconnectPasswords(s: Server, fd: int, r: string)
    requires Inv(s) && fd in s.clients && r in Disconnect(s, fd).rooms
    ensures r in s.rooms && Disconnect(s, fd).rooms[r].password == s.rooms[r].password
  {
    hide Disconnect;
    DisconnectShape(s, fd);
    R.DepartPasswords(s, fd);
  }

  /** One step: a room's password is the completing line, or the room and its password were there before. */
  lemma PasswordStep(s: Server, e: Event, r: string)
    requires Inv(s) && Enabled(s, e)
    requires r in Step(s, e).rooms && r != LOBBY
    ensures if Completes(s, e, r) then Step(s, e).rooms[r].password == e.line
            else r in s.rooms && Step(s, e).rooms[r].password == s.rooms[r].password
  {
    hide ProcessMessage, Disconnect, Inv;
    match e
    case Accept(_, _) =>
    case Line(fd, line, o) => LinePassword(s, fd, line, o, r);
    case WriteReady(fd, w) =>
      if !HandleWrite(s.clients[fd], w).1 {
        DisconnectPasswords(s, fd, r);
      }
    case Hangup(fd) => DisconnectPasswords(s, fd, r);
  }

  /** Event i is the latest setup completion for room r before state n, its line is the room's password,
      and the room has stood ever since. */
  ghost predicate PasswordSetAt(run: Run, i: nat, n: nat, r: string) {
    && i < n <= |run.events| && n < |run.states|
    && Completes(run.states[i], run.events[i], r)
    && (forall j | i < j < n :: !Completes(run.states[j], run.events[j], r))
    && (forall j | i < j <= n :: r in run.states[j].rooms)
    && run.states[n].rooms[r].password == run.events[i].line
  }

  /** In any run a room other than the lobby was created by a setup completion,
      and its password is the line of the latest one in its lifetime. */
  lemma {:induction false} PasswordProvenance(run: Run, n: nat, r: string) returns (i: nat)
    requires IsRun(run) && n <= |run.events|
    requires r in run.states[n].rooms && r != LOBBY
    ensures PasswordSetAt(run, i, n, r)
  {
    hide Step, Inv, Enabled, Completes;
    if n == 0 {
      assert false;
    }
    var s, e := run.states[n - 1], run.events[n - 1];
    RunOk(run, n - 1);
    assert run.states[n] == Step(s, e);
    PasswordStep(s, e, r);
    if Completes(s, e, r) {
      i := n - 1;
    } else {
      i := PasswordProvenance(run, n - 1, r);
    }
  }

  /** A standing room's password changes exactly when a client that asked for the room while it was absent
      completes the setup late, with another line: the founder's password is then replaced. */
  lemma PasswordChangesIff(s: Server, e: Event, r: string)
    requires Inv(s) && Enabled(s, e) && r in s.rooms && r in Step(s, e).rooms
    ensures Step(s, e).rooms[r].password != s.rooms[r].password <==>
            Completes(s, e, r) && e.line != s.rooms[r].password
  {
    if r == LOBBY {
      StepOk(s, e);
      assert e.fd in s.clients ==> SessionOk(s.clients[e.fd]);
    } else {
      PasswordStep(s, e, r);
    }
  }

  // How clients enter rooms

  /** The ways into room r. */
  ghost predicate MayEnter(s: Server, e: Event, fd: int, r: string) {
    && e.Line? && e.fd == fd && fd in s.clients
    && var c := s.clients[fd];
       match c.state
       case StateNickname => r == LOBBY
       case StateSetupRoomPassword => c.connectedRoom == r
       case StateEnterRoomPassword => c.connectedRoom == r && r in s.rooms && s.rooms[r].password == e.line
       case StateChat =>
         var cmd := Commands.Parse(e.line);
         (cmd.JoinRoom? && cmd.target == r && r in s.rooms && s.rooms[r].password == "") ||
         (cmd.LeaveRoom? && r == LOBBY)
  }

  /** The room a client's own line takes it to. */
  function NextRoom(s: Server, c: Session, line: string): string {
    match c.state
    case StateNickname => LOBBY
    case StateSetupRoomPassword => c.connectedRoom
    case StateEnterRoomPassword =>
      if c.connectedRoom in s.rooms && s.rooms[c.connectedRoom].password == line then c.connectedRoom else c.room
    case StateChat =>
      var cmd := Commands.Parse(line);
      if cmd.JoinRoom? && cmd.target in s.rooms && s.rooms[cmd.target].password == "" then cmd.target
      else if cmd.LeaveRoom? then LOBBY
      else c.room
  }

  /** What g, not the mover, keeps and hears of somebody walking from room r0 to room r. */
  ghost predicate HearsOnly(g0: Session, g1: Session, heard: bool) {
    && SameButOutput(g0, g1) && g0.outBuffer <= g1.outBuffer
    && (g1 != g0 ==> g0.state == StateChat && heard)
  }

  lemma JoinHeard(s: Server, fd: int, r: string, g: int)
    requires fd in s.clients && g in s.clients && g != fd && r != ""
    ensures HearsOnly(s.clients[g], JoinRoom(s, fd, r).clients[g],
                      s.clients[g].room == s.clients[fd].room || s.clients[g].room == r)
  {
  }

  lemma NicknameHeard(s: Server, fd: int, line: string, g: int)
    requires Inv(s) && fd in s.clients && g in s.clients && g != fd && s.clients[fd].state == StateNickname
    ensures g in SetupNickname(s, fd, line).clients
    ensures HearsOnly(s.clients[g], SetupNickname(s, fd, line).clients[g],
                      s.clients[g].room == s.clients[fd].room || s.clients[g].room == LOBBY)
  {
    hide JoinRoom;
    var c := s.clients[fd].(nickname := line, state := StateChat);
    JoinHeard(s.(clients := s.clients[fd := c]), fd, LOBBY, g);
  }

  lemma SetupHeard(s: Server, fd: int, line: string, g: int)
    requires Inv(s) && fd in s.clients && g in s.clients && g != fd && s.clients[fd].state == StateSetupRoomPassword
    ensures HearsOnly(s.clients[g], SetupRoomPassword(s, fd, line).clients[g],
                      s.clients[g].room == s.clients[fd].room || s.clients[g].room == s.clients[fd].connectedRoom)
  {
    hide JoinRoom;
    assert SessionOk(s.clients[fd]);
    JoinHeard(s, fd, s.clients[fd].connectedRoom, g);
  }

  lemma EnterHeard(s: Server, fd: int, line: string, g: int)
    requires Inv(s) && fd in s.clients && g in s.clients && g != fd && s.clients[fd].state == StateEnterRoomPassword
    ensures g in EnterRoomPassword(s, fd, line).clients
    ensures HearsOnly(s.clients[g], EnterRoomPassword(s, fd, line).clients[g],
                      s.clients[g].room == s.clients[fd].room || s.clients[g].room == NextRoom(s, s.clients[fd], line))
  {
    hide JoinRoom;
    var r := s.clients[fd].connectedRoom;
    assert SessionOk(s.clients[fd]);
    if r in s.rooms && s.rooms[r].password == line {
      JoinHeard(s, fd, r, g);
    }
  }

  lemma RequestHeard(s: Server, fd: int, r: string, g: int)
    requires fd in s.clients && g in s.clients && g != fd && r != ""
    ensures g in HandleJoinRoom(s, fd, r).clients
    ensures HearsOnly(s.clients[g], HandleJoinRoom(s, fd, r).clients[g],
                      s.clients[g].room == s.clients[fd].room ||
                      (r in s.rooms && s.rooms[r].password == "" && s.clients[g].room == r))
  {
    if s.clients[fd].room != r && r in s.rooms && s.rooms[r].password == "" {
      JoinHeard(s, fd, r, g);
    }
  }

  lemma PrivateHeard(s: Server, fd: int, target: string, text: string, order: seq<int>, g: int)
    requires fd in s.clients && g in s.clients && g != fd
    ensures g in HandlePrivateMessage(s, fd, target, text, order).clients
    ensures HearsOnly(s.clients[g], HandlePrivateMessage(s, fd, target, text, order).clients[g], s.clients[g].nickname == target)
  {
    var i := FirstAnswering(s.clients, order, target);
  }

  /** Another client hears a line only in the sender's old or new room, or as a private message to it. */
  ghost predicate InEarshot(s: Server, c: Session, line: string, g0: Session) {
    || g0.room == c.room
    || g0.room == NextRoom(s, c, line)
    || (c.state == StateChat && Commands.Parse(line).PrivateMessage? && Commands.Parse(line).target == g0.nickname)
  }

  lemma ExecuteHeard(s: Server, fd: int, line: string, o: Orders, g: int)
    requires Inv(s) && fd in s.clients && g in s.clients && g != fd && s.clients[fd].state == StateChat
    ensures g in Execute(s, fd, line, o).clients
    ensures HearsOnly(s.clients[g], Execute(s, fd, line, o).clients[g], InEarshot(s, s.clients[fd], line, s.clients[g]))
  {
    hide JoinRoom, HandleJoinRoom, HandlePrivateMessage;
    assert SessionOk(s.clients[fd]);
    match Commands.Parse(line)
    case PrivateMessage(target, text) => PrivateHeard(s, fd, target, text, o.clients, g);
    case PlainMessage(_) =>
    case JoinRoom(target) => RequestHeard(s, fd, target, g);
    case LeaveRoom =>
      if s.clients[fd].room != LOBBY { JoinHeard(s, fd, LOBBY, g); }
    case OnlineList =>
    case RoomList =>
    case Unknown =>
  }

  /** Whatever one client types, another keeps its state, room and pending join, loses no queued output,
      and hears something only within earshot and while chatting. */
  lemma LineIsolation(s: Server, fd: int, line: string, o: Orders, g: int)
    requires Inv(s) && fd in s.clients && g in s.clients && g != fd
    ensures g in ProcessMessage(s, fd, line, o).clients
    ensures HearsOnly(s.clients[g], ProcessMessage(s, fd, line, o).clients[g], InEarshot(s, s.clients[fd], line, s.clients[g]))
  {
    match s.clients[fd].state
    case StateNickname => NicknameHeard(s, fd, line, g);
    case StateSetupRoomPassword => SetupHeard(s, fd, line, g);
    case StateEnterRoomPassword => EnterHeard(s, fd, line, g);
    case StateChat => ExecuteHeard(s, fd, line, o, g);
  }

  lemma OthersStay(s: Server, e: Event, g: int)
    requires Inv(s) && Enabled(s, e) && g in s.clients && g != e.fd
    ensures g in Step(s, e).clients && SameButOutput(s.clients[g], Step(s, e).clients[g])
  {
    match e
    case Accept(_, _) =>
    case Line(fd, line, o) => LineIsolation(s, fd, line, o, g);
    case WriteReady(fd, _) =>
      DisconnectShape(s, fd);
      assert g in s.clients - {fd};
    case Hangup(fd) =>
      DisconnectShape(s, fd);
      assert g in s.clients - {fd};
  }

  lemma ExecuteKeys(s: Server, fd: int, line: string, o: Orders)
    requires fd in s.clients
    ensures Execute(s, fd, line, o).clients.Keys == s.clients.Keys
  {
    hide JoinRoom, Broadcast, Queue;
    if Commands.Parse(line).PrivateMessage? {
      var i := FirstAnswering(s.clients, o.clients, Commands.Parse(line).target);
    }
  }

  lemma LineKeys(s: Server, fd: int, line: string, o: Orders)
    requires fd in s.clients
    ensures ProcessMessage(s, fd, line, o).clients.Keys == s.clients.Keys
  {
    hide JoinRoom, Execute, Queue;
    ExecuteKeys(s, fd, line, o);
  }

  /** A /join that leaves session c waiting for a password: a new one because the room is absent,
      or the present room's. */
  ghost predicate Asks(s: Server, fd: int, line: string, c: Session) {
    && fd in s.clients && s.clients[fd].state == StateChat
    && Commands.Parse(line) == Commands.Command.JoinRoom(c.connectedRoom)
    && c.room == s.clients[fd].room && c.room != c.connectedRoom
    && (c.state == StateSetupRoomPassword ==> c.connectedRoom !in s.rooms)
    && (c.state == StateEnterRoomPassword ==>
          c.connectedRoom in s.rooms && s.rooms[c.connectedRoom].password != "")
  }

  ghost predicate AskedAt(run: Run, i: nat, fd: int, c: Session) {
    && i < |run.events| && i < |run.states| && run.events[i].Line? && run.events[i].fd == fd
    && Asks(run.states[i], fd, run.events[i].line, c)
  }

  /** The sender itself after its line. */
  ghost predicate OwnEffect(s: Server, fd: int, line: string, c': Session)
    requires fd in s.clients
  {
    var c := s.clients[fd];
    c'.room == NextRoom(s, c, line) && (Pending(c') ==> Asks(s, fd, line, c')) && c.outBuffer <= c'.outBuffer
  }

  lemma OwnJoin(s: Server, fd: int, r: string)
    requires fd in s.clients
    ensures JoinRoom(s, fd, r).clients[fd].room == r
    ensures JoinRoom(s, fd, r).clients[fd].state == s.clients[fd].state
    ensures s.clients[fd].outBuffer <= JoinRoom(s, fd, r).clients[fd].outBuffer
  {
    JoinRoomSessions(s, fd, r);
  }

  lemma OwnRequest(s: Server, fd: int, r: string)
    requires fd in s.clients && s.clients[fd].state == StateChat
    ensures fd in HandleJoinRoom(s, fd, r).clients
    ensures var c, c' := s.clients[fd], HandleJoinRoom(s, fd, r).clients[fd];
            && c'.room == (if r in s.rooms && s.rooms[r].password == "" then r else c.room)
            && c.outBuffer <= c'.outBuffer
            && (Pending(c') ==> c'.connectedRoom == r && c.room != r)
            && (c'.state == StateSetupRoomPassword ==> r !in s.rooms)
            && (c'.state == StateEnterRoomPassword ==> r in s.rooms && s.rooms[r].password != "")
  {
    OwnJoin(s, fd, r);
  }

  lemma OwnPrivate(s: Server, fd: int, target: string, text: string, order: seq<int>)
    requires fd in s.clients
    ensures fd in HandlePrivateMessage(s, fd, target, text, order).clients
    ensures var c' := HandlePrivateMessage(s, fd, target, text, order).clients[fd];
            SameButOutput(s.clients[fd], c') && s.clients[fd].outBuffer <= c'.outBuffer
  {
    var i := FirstAnswering(s.clients, order, target);
  }

  lemma OwnExecute(s: Server, fd: int, line: string, o: Orders)
    requires fd in s.clients && s.clients[fd].state == StateChat
    ensures fd in Execute(s, fd, line, o).clients
    ensures OwnEffect(s, fd, line, Execute(s, fd, line, o).clients[fd])
  {
    hide HandleJoinRoom, JoinRoom, Commands.Parse, HandlePrivateMessage, OnlineListMsg, RoomsListMsg;
    match Commands.Parse(line)
    case PrivateMessage(target, text) => OwnPrivate(s, fd, target, text, o.clients);
    case PlainMessage(_) =>
    case JoinRoom(target) => OwnRequest(s, fd, target);
    case LeaveRoom => OwnJoin(s, fd, LOBBY);
    case OnlineList =>
    case RoomList =>
    case Unknown =>
  }

  lemma OwnNickname(s: Server, fd: int, line: string)
    requires fd in s.clients && s.clients[fd].state == StateNickname
    ensures OwnEffect(s, fd, line, SetupNickname(s, fd, line).clients[fd])
  {
    OwnJoin(s.(clients := s.clients[fd := s.clients[fd].(nickname := line, state := StateChat)]), fd, LOBBY);
  }

  lemma OwnSetup(s: Server, fd: int, line: string)
    requires fd in s.clients && s.clients[fd].state == StateSetupRoomPassword
    ensures OwnEffect(s, fd, line, SetupRoomPassword(s, fd, line).clients[fd])
  {
    OwnJoin(s, fd, s.clients[fd].connectedRoom);
  }

  lemma OwnEnter(s: Server, fd: int, line: string)
    requires fd in s.clients && s.clients[fd].state == StateEnterRoomPassword
    ensures fd in EnterRoomPassword(s, fd, line).clients
    ensures OwnEffect(s, fd, line, EnterRoomPassword(s, fd, line).clients[fd])
  {
    hide JoinRoom;
    OwnJoin(s, fd, s.clients[fd].connectedRoom);
  }

  lemma OwnLine(s: Server, fd: int, line: string, o: Orders)
    requires fd in s.clients
    ensures fd in ProcessMessage(s, fd, line, o).clients
    ensures OwnEffect(s, fd, line, ProcessMessage(s, fd, line, o).clients[fd])
  {
    match s.clients[fd].state
    case StateNickname => OwnNickname(s, fd, line);
    case StateSetupRoomPassword => OwnSetup(s, fd, line);
    case StateEnterRoomPassword => OwnEnter(s, fd, line);
    case StateChat => OwnExecute(s, fd, line, o);
  }

  /** A client changes room by exactly these ways. */
  lemma EntryStep(s: Server, e: Event, fd: int, r: string)
    requires Inv(s) && Enabled(s, e) && r != ""
    requires fd in s.clients ==> s.clients[fd].room != r
    ensures fd in Step(s, e).clients && Step(s, e).clients[fd].room == r <==> MayEnter(s, e, fd, r)
  {
    if fd in s.clients && fd != e.fd {
      OthersStay(s, e, fd);
    } else if e.Line? {
      LineKeys(s, e.fd, e.line, e.orders);
      OwnLine(s, e.fd, e.line, e.orders);
    } else if !e.Accept? {
      DisconnectShape(s, e.fd);
    }
  }

  /** The argument of the join_room call a line leads to, or "" if it leads to none. */
  function JoinTarget(s: Server, c: Session, line: string): string {
    match c.state
    case StateNickname => LOBBY
    case StateSetupRoomPassword => c.connectedRoom
    case StateEnterRoomPassword =>
      if c.connectedRoom in s.rooms && s.rooms[c.connectedRoom].password == line then c.connectedRoom else ""
    case StateChat =>
      match Commands.Parse(line)
      case JoinRoom(r) => if c.room != r && r in s.rooms && s.rooms[r].password == "" then r else ""
      case LeaveRoom => if c.room != LOBBY then LOBBY else ""
      case _ => ""
  }

  /** The room table after a line is that of the join_room call JoinTarget names, or the old one if it names none,
      apart from the password a setup stores. */
  ghost predicate TargetJoined(s: Server, fd: int, line: string, rooms': map<string, RoomInfo>)
    requires fd in s.clients
  {
    var c := s.clients[fd];
    var r := JoinTarget(s, c, line);
    var rooms := if r == "" then s.rooms else JoinRoom(s, fd, r).rooms;
    if c.state == StateSetupRoomPassword then r in rooms && rooms' == rooms[r := rooms[r].(password := line)]
    else rooms' == rooms
  }

  lemma ExecuteJoins(s: Server, fd: int, line: string, o: Orders)
    requires fd in s.clients && s.clients[fd].state == StateChat
    ensures TargetJoined(s, fd, line, Execute(s, fd, line, o).rooms)
  {
    hide JoinRoom, Broadcast;
    if Commands.Parse(line).PrivateMessage? {
      var i := FirstAnswering(s.clients, o.clients, Commands.Parse(line).target);
    }
  }

  lemma NicknameJoins(s: Server, fd: int, line: string)
    requires Inv(s) && fd in s.clients && s.clients[fd].state == StateNickname
    ensures TargetJoined(s, fd, line, SetupNickname(s, fd, line).rooms)
  {
    hide Broadcast, Admit, Release;
    assert SessionOk(s.clients[fd]);
  }

  lemma PasswordJoins(s: Server, fd: int, line: string)
    requires Inv(s) && fd in s.clients
    ensures s.clients[fd].state == StateSetupRoomPassword ==>
              TargetJoined(s, fd, line, SetupRoomPassword(s, fd, line).rooms)
    ensures s.clients[fd].state == StateEnterRoomPassword ==>
              TargetJoined(s, fd, line, EnterRoomPassword(s, fd, line).rooms)
  {
    hide JoinRoom;
    assert SessionOk(s.clients[fd]);
  }

  lemma LineJoins(s: Server, fd: int, line: string, o: Orders)
    requires Inv(s) && fd in s.clients
    ensures TargetJoined(s, fd, line, ProcessMessage(s, fd, line, o).rooms)
  {
    hide TargetJoined, Execute, SetupNickname, SetupRoomPassword, EnterRoomPassword;
    match s.clients[fd].state
    case StateNickname => NicknameJoins(s, fd, line);
    case StateSetupRoomPassword => PasswordJoins(s, fd, line);
    case StateEnterRoomPassword => PasswordJoins(s, fd, line);
    case StateChat => ExecuteJoins(s, fd, line, o);
  }

  lemma TargetDiffers(s: Server, fd: int, line: string)
    requires Inv(s) && fd in s.clients
    ensures var c := s.clients[fd];
            JoinTarget(s, c, line) != c.room &&
            NextRoom(s, c, line) == if JoinTarget(s, c, line) == "" then c.room else JoinTarget(s, c, line)
  {
    assert SessionOk(s.clients[fd]);
  }

  /** However other clients interleave, join_room is never given the room the client is in (which, emptied on the
      way, would lose its password), and a client with no pending join keeps the room unless it is called. */
  lemma NeverRejoins(run: Run, n: nat)
    requires IsRun(run) && n < |run.events| && run.events[n].Line?
    ensures var s, e := run.states[n], run.events[n];
            var c := s.clients[e.fd];
            && TargetJoined(s, e.fd, e.line, run.states[n + 1].rooms)
            && JoinTarget(s, c, e.line) != c.room
            && NextRoom(s, c, e.line) == if JoinTarget(s, c, e.line) == "" then c.room else JoinTarget(s, c, e.line)
  {
    RunOk(run, n);
    hide TargetJoined, JoinTarget, NextRoom, ProcessMessage, Inv;
    var s, e := run.states[n], run.events[n];
    LineJoins(s, e.fd, e.line, e.orders);
    TargetDiffers(s, e.fd, e.line);
  }

  // Pending joins

  ghost predicate SameJoin(a: Session, b: Session) {
    a.state == b.state && a.connectedRoom == b.connectedRoom && a.room == b.room
  }

  lemma PendingStep(s: Server, e: Event, fd: int)
    requires Inv(s) && Enabled(s, e)
    requires fd in Step(s, e).clients && Pending(Step(s, e).clients[fd])
    ensures var c := Step(s, e).clients[fd];
            (e.Line? && e.fd == fd && Asks(s, fd, e.line, c)) || (fd in s.clients && SameJoin(s.clients[fd], c))
  {
    if fd in s.clients && fd != e.fd {
      OthersStay(s, e, fd);
    } else if e.Line? {
      LineKeys(s, e.fd, e.line, e.orders);
      OwnLine(s, fd, e.line, e.orders);
    } else if !e.Accept? {
      DisconnectShape(s, e.fd);
    }
  }

  /** In any run a pending join goes back to the client's own /join, and nothing touched it since,
      whatever other clients did to that room. */
  lemma {:induction false} PendingProvenance(run: Run, n: nat, fd: int) returns (i: nat)
    requires IsRun(run) && n <= |run.events|
    requires fd in run.states[n].clients && Pending(run.states[n].clients[fd])
    ensures i < n && AskedAt(run, i, fd, run.states[n].clients[fd])
    ensures forall j | i < j <= n ::
              fd in run.states[j].clients && SameJoin(run.states[j].clients[fd], run.states[n].clients[fd])
  {
    hide Step, Inv, Enabled;
    if n == 0 {
      assert false;
    }
    RunOk(run, n - 1);
    PendingStep(run.states[n - 1], run.events[n - 1], fd);
    if AskedAt(run, n - 1, fd, run.states[n].clients[fd]) {
      i := n - 1;
    } else {
      i := PendingProvenance(run, n - 1, fd);
    }
  }

  /** Event i took fd into room r, where it stayed until state n. */
  ghost predicate EnteredAt(run: Run, i: nat, n: nat, fd: int, r: string) {
    && i < n <= |run.events| && n < |run.states|
    && MayEnter(run.states[i], run.events[i], fd, r)
    && forall j | i < j <= n :: fd in run.states[j].clients && run.states[j].clients[fd].room == r
  }

  /** In any run a member of a room other than the lobby entered it by completing a setup, by the password of that
      moment, or by /join while the password was empty. */
  lemma {:induction false} MemberProvenance(run: Run, n: nat, fd: int) returns (i: nat)
    requires IsRun(run) && n <= |run.events|
    requires fd in run.states[n].clients
    requires run.states[n].clients[fd].room != "" && run.states[n].clients[fd].room != LOBBY
    ensures EnteredAt(run, i, n, fd, run.states[n].clients[fd].room)
  {
    hide Step, Inv, Enabled, MayEnter;
    if n == 0 {
      assert false;
    }
    var s, e, r := run.states[n - 1], run.events[n - 1], run.states[n].clients[fd].room;
    RunOk(run, n - 1);
    assert run.states[n] == Step(s, e);
    if fd in s.clients && s.clients[fd].room == r {
      i := MemberProvenance(run, n - 1, fd);
    } else {
      EntryStep(s, e, fd, r);
      i := n - 1;
    }
  }

  /** A setup that is completed was begun by the same client's /join of a room then absent. */
  lemma FounderProvenance(run: Run, n: nat, r: string) returns (k: nat)
    requires IsRun(run) && n < |run.events| && Completes(run.states[n], run.events[n], r)
    ensures k < n && AskedAt(run, k, run.events[n].fd, run.states[n].clients[run.events[n].fd])
    ensures r !in run.states[k].rooms
  {
    k := PendingProvenance(run, n, run.events[n].fd);
  }

  // Two founders

  lemma {:induction false} SomeOrder<T(!new)>(keys: set<T>) returns (order: seq<T>)
    ensures Enumerates(order, keys)
    decreases |keys|
  {
    if keys == {} {
      order := [];
    } else {
      var k :| k in keys;
      var rest := SomeOrder(keys - {k});
      order := [k] + rest;
    }
  }

  ghost predicate Says(e: Event, fd: int, line: string) {
    e.Line? && e.fd == fd && e.line == line
  }

  /** Any client can send any line at any time. */
  lemma SayLine(run: Run, fd: int, line: string) returns (run': Run)
    requires IsRun(run) && fd in Now(run).clients
    ensures IsRun(run') && |run'.events| == |run.events| + 1
    ensures run'.events[..|run.events|] == run.events && run'.states[..|run.states|] == run.states
    ensures Says(run'.events[|run.events|], fd, line)
    ensures Inv(Now(run)) && exists o :: Now(run') == ProcessMessage(Now(run), fd, line, o)
  {
    var co := SomeOrder(Now(run).clients.Keys);
    var ro := SomeOrder(Now(run).rooms.Keys);
    var e := Line(fd, line, Orders(co, ro));
    RunOk(run, |run.events|);
    ExtendIsRun(run, e);
    run' := Extend(run, e);
    assert Now(run') == ProcessMessage(Now(run), fd, line, e.orders);
  }

  lemma AskForAbsent(s: Server, fd: int, r: string, o: Orders)
    requires Inv(s) && fd in s.clients && s.clients[fd].state == StateChat && r != "" && r !in s.rooms
    ensures ProcessMessage(s, fd, "/join " + r, o) ==
            AskPassword(s, fd, r, StateSetupRoomPassword, "Create room password: ")
  {
    Commands.PrintParse(Commands.Command.JoinRoom(r));
    assert SessionOk(s.clients[fd]);
  }

  /** Client fd is about to give the room r its password. */
  ghost predicate Founding(s: Server, fd: int, r: string) {
    fd in s.clients && s.clients[fd].state == StateSetupRoomPassword && s.clients[fd].connectedRoom == r
  }

  /** The founder moves in and its line becomes the password; others about to found the room still are. */
  lemma Found(s: Server, fd: int, r: string, line: string, o: Orders, g: int)
    requires Inv(s) && Founding(s, fd, r) && g in s.clients && g != fd
    ensures var s' := ProcessMessage(s, fd, line, o);
            && r in s'.rooms && s'.rooms[r].password == line
            && fd in s'.clients && s'.clients[fd].room == r
            && g in s'.clients && SameButOutput(s.clients[g], s'.clients[g])
  {
    SetupRooms(s, fd, line);
    OwnLine(s, fd, line, o);
    LineIsolation(s, fd, line, o, g);
  }

  /** Two chatting clients that both ask for the absent room r before either answers found it twice: any run that has
      two such clients goes on to one in which r stands with password p, its founder inside, and then with password q. */
  lemma SecondPassword(run: Run, a: int, b: int, r: string, p: string, q: string) returns (run': Run)
    requires IsRun(run) && a != b && a in Now(run).clients && b in Now(run).clients
    requires Now(run).clients[a].state == StateChat && Now(run).clients[b].state == StateChat
    requires r != "" && r !in Now(run).rooms
    ensures IsRun(run') && |run'.events| == |run.events| + 4 && run'.events[..|run.events|] == run.events
    ensures var n := |run.events|;
            && Says(run'.events[n], a, "/join " + r) && Says(run'.events[n + 1], b, "/join " + r)
            && Says(run'.events[n + 2], a, p) && Says(run'.events[n + 3], b, q)
    ensures var s, s' := run'.states[|run.events| + 3], Now(run');
            && r in s.rooms && s.rooms[r].password == p && a in s.clients && s.clients[a].room == r
            && r in s'.rooms && s'.rooms[r].password == q && a in s'.clients && s'.clients[a].room == r
  {
    hide ProcessMessage, Inv, IsRun, Enabled;
    var run1 := SayLine(run, a, "/join " + r);
    var o1 :| Now(run1) == ProcessMessage(Now(run), a, "/join " + r, o1);
    AskForAbsent(Now(run), a, r, o1);
    var run2 := SayLine(run1, b, "/join " + r);
    var o2 :| Now(run2) == ProcessMessage(Now(run1), b, "/join " + r, o2);
    AskForAbsent(Now(run1), b, r, o2);
    var run3 := SayLine(run2, a, p);
    var o3 :| Now(run3) == ProcessMessage(Now(run2), a, p, o3);
    Found(Now(run2), a, r, p, o3, b);
    run' := SayLine(run3, b, q);
    var o4 :| Now(run') == ProcessMessage(Now(run3), b, q, o4);
    Found(Now(run3), b, r, q, o4, a);
  }

  lemma NicknameChats(s: Server, fd: int, nick: string, o: Orders)
    requires fd in s.clients && s.clients[fd].state == StateNickname
    ensures fd in ProcessMessage(s, fd, nick, o).clients && ProcessMessage(s, fd, nick, o).clients[fd].state == StateChat
  {
    JoinRoomSessions(s.(clients := s.clients[fd := s.clients[fd].(nickname := nick, state := StateChat)]), fd, LOBBY);
  }

  /** A new client beside the others, who only hear of it, and no room but the lobby opened for it. */
  ghost predicate Joined(s: Server, fd: int, s': Server) {
    && s'.clients.Keys == s.clients.Keys + {fd} && s'.clients[fd].state == StateChat
    && (forall g | g in s.clients && g != fd :: SameButOutput(s.clients[g], s'.clients[g]))
    && (forall r | r in s'.rooms :: r in s.rooms)
  }

  lemma NicknameJoined(s: Server, fd: int, nick: string, o: Orders)
    requires Inv(s) && fd in s.clients && s.clients[fd].state == StateNickname
    ensures Joined(s, fd, ProcessMessage(s, fd, nick, o))
  {
    hide ProcessMessage, SessionsOk;
    LineKeys(s, fd, nick, o);
    LineRoomsFrom(s, fd, nick, o);
    NicknameChats(s, fd, nick, o);
    forall g | g in s.clients && g != fd
      ensures SameButOutput(s.clients[g], ProcessMessage(s, fd, nick, o).clients[g])
    {
      LineIsolation(s, fd, nick, o, g);
    }
  }

  /** Anybody can connect and choose a nickname. */
  lemma NewChatter(run: Run, fd: int, nick: string) returns (run': Run)
    requires IsRun(run) && fd !in Now(run).clients
    ensures IsRun(run') && Joined(Now(run), fd, Now(run'))
  {
    hide ProcessMessage, Inv, IsRun;
    ExtendIsRun(run, Accept(fd, true));
    var run1 := Extend(run, Accept(fd, true));
    run' := SayLine(run1, fd, nick);
    var o :| Now(run') == ProcessMessage(Now(run1), fd, nick, o);
    NicknameJoined(Now(run1), fd, nick, o);
  }

  /** A standing room whose password is p at one moment and q at the next is reached from the start. */
  lemma TwoPasswordsReached(r: string, p: string, q: string) returns (run: Run, n: nat)
    requires r != "" && r != LOBBY
    ensures IsRun(run) && n < |run.events|
    ensures r in run.states[n].rooms && run.states[n].rooms[r].password == p
    ensures r in run.states[n + 1].rooms && run.states[n + 1].rooms[r].password == q
  {
    hide Inv, Step, Enabled;
    var empty := Run([INITIAL], []);
    var one := NewChatter(empty, 5, "ann");
    var two := NewChatter(one, 6, "bob");
    run := SecondPassword(two, 5, 6, r, p, q);
    n := |two.events| + 3;
  }

  // Messages

  function When(b: bool, msg: string): string {
    if b then msg else ""
  }

  /** join_room announces the departure to the old room and the arrival to the new one, each exactly once
      to each chatting client there, the mover included. */
  lemma JoinAnnounces(s: Server, fd: int, r: string, g: int)
    requires Inv(s) && fd in s.clients && g in s.clients && r != "" && s.clients[fd].room != r
    ensures var c, g0, g1 := s.clients[fd], s.clients[g], JoinRoom(s, fd, r).clients[g];
            var leaves := g0.state == StateChat && c.room != "" && g0.room == c.room;
            var arrives := g0.state == StateChat && (g0.room == r || g == fd);
            g1.outBuffer ==
            g0.outBuffer + When(leaves, "[SERVER]: " + c.nickname + " left the room " + "[" + c.room + "]" + ".\n")
                         + When(arrives, "[SERVER]: " + c.nickname + " joined the room " + "[" + r + "]" + ".\n")
  {
    assert LeftRoomMsg(s.clients[fd].nickname, s.clients[fd].room) ==
           "[SERVER]: " + s.clients[fd].nickname + " left the room " + "[" + s.clients[fd].room + "]" + ".\n";
    assert JoinedRoomMsg(s.clients[fd].nickname, r) ==
           "[SERVER]: " + s.clients[fd].nickname + " joined the room " + "[" + r + "]" + ".\n";
    var c, g0 := s.clients[fd], s.clients[g];
    assert g0.outBuffer + "" == g0.outBuffer;
    hide LeftRoomMsg, JoinedRoomMsg;
    var d := Depart(s, fd).clients[g];
    assert d.state == g0.state && d.room == g0.room;
    assert d.outBuffer == g0.outBuffer + When(g0.state == StateChat && c.room != "" && g0.room == c.room,
                                              LeftRoomMsg(c.nickname, c.room));
    assert d.outBuffer + "" == d.outBuffer;
  }

  /** A lost connection is announced to its room, and then to every chatting client if it had a nickname. */
  lemma DisconnectAnnounces(s: Server, fd: int, g: int)
    requires Inv(s) && fd in s.clients && g in s.clients && g != fd
    ensures g in Disconnect(s, fd).clients
    ensures var c, g0, g1 := s.clients[fd], s.clients[g], Disconnect(s, fd).clients[g];
            var inRoom := g0.state == StateChat && c.room != "" && g0.room == c.room;
            var anywhere := g0.state == StateChat && c.nickname != "";
            g1.outBuffer ==
            g0.outBuffer + When(inRoom, "[SERVER]: " + c.nickname + " left the room " + "[" + c.room + "]" + ".\n")
                         + When(anywhere, c.nickname + " left the server\n")
  {
    assert LeftRoomMsg(s.clients[fd].nickname, s.clients[fd].room) ==
           "[SERVER]: " + s.clients[fd].nickname + " left the room " + "[" + s.clients[fd].room + "]" + ".\n";
    assert LeftServerMsg(s.clients[fd].nickname) == s.clients[fd].nickname + " left the server\n";
    hide LeftRoomMsg, LeftServerMsg;
    var c, g0 := s.clients[fd], s.clients[g];
    assert g0.outBuffer + "" == g0.outBuffer;
    var l := LeaveRoom(s, fd).clients;
    assert l[fd].nickname == c.nickname;
    var d := l[g];
    assert d == Depart(s, fd).clients[g];
    assert d.state == g0.state && d.room == g0.room;
    assert d.outBuffer == g0.outBuffer + When(g0.state == StateChat && c.room != "" && g0.room == c.room,
                                              LeftRoomMsg(c.nickname, c.room));
    assert d.outBuffer + "" == d.outBuffer;
  }

  /** A plain message is appended exactly once to each chatting client of the sender's room and to no other;
      the address "everyone" is never used. */
  lemma PlainMessageReaches(run: Run, n: nat, g: int)
    requires IsRun(run) && n < |run.events| && run.events[n].Line?
    requires g in run.states[n].clients
    requires var c := run.states[n].clients[run.events[n].fd];
             c.state == StateChat && Commands.Parse(run.events[n].line).PlainMessage?
    ensures var s, s', e := run.states[n], run.states[n + 1], run.events[n];
            var c, g0 := s.clients[e.fd], s.clients[g];
            && c.room != "" && c.room in s.rooms
            && s'.rooms == s.rooms && s'.clients.Keys == s.clients.Keys
            && s'.clients[g] ==
               if g0.state == StateChat && g0.room == c.room
               then g0.(outBuffer := g0.outBuffer + "[" + c.nickname + "]: " + e.line + "\n", wantWrite := true)
               else g0
  {
    RunOk(run, n);
    var s, e := run.states[n], run.events[n];
    var c, g0 := s.clients[e.fd], s.clients[g];
    assert c.room != "" && c.room in s.rooms && SessionOk(g0) by { assert SessionOk(c); }
    hide Inv;
    assert run.states[n + 1] == s.(clients := Broadcast(s.clients, ChatMsg(c.nickname, e.line), c.room));
    assert g0.outBuffer + ChatMsg(c.nickname, e.line) == g0.outBuffer + "[" + c.nickname + "]: " + e.line + "\n";
  }

  lemma BroadcastsCommute(cs: Sessions, m1: string, r1: string, m2: string, r2: string)
    requires r1 != "" && r2 != "" && r1 != r2
    ensures Broadcast(Broadcast(cs, m1, r1), m2, r2) == Broadcast(Broadcast(cs, m2, r2), m1, r1)
  {
    var a, b := Broadcast(cs, m1, r1), Broadcast(cs, m2, r2);
    forall fd | fd in cs ensures Broadcast(a, m2, r2)[fd] == Broadcast(b, m1, r1)[fd] {
      assert !(Hears(cs[fd], r1) && Hears(cs[fd], r2));
    }
  }

  /** Messages said in two different rooms commute. */
  lemma MessagesCommute(s: Server, a: int, la: string, oa: Orders, b: int, lb: string, ob: Orders)
    requires Inv(s) && a in s.clients && b in s.clients
    requires s.clients[a].state == StateChat && s.clients[b].state == StateChat
    requires s.clients[a].room != s.clients[b].room
    requires Commands.Parse(la).PlainMessage? && Commands.Parse(lb).PlainMessage?
    ensures b in ProcessMessage(s, a, la, oa).clients && a in ProcessMessage(s, b, lb, ob).clients
    ensures ProcessMessage(ProcessMessage(s, a, la, oa), b, lb, ob) == ProcessMessage(ProcessMessage(s, b, lb, ob), a, la, oa)
  {
    var ra, rb := s.clients[a].room, s.clients[b].room;
    var ma, mb := ChatMsg(s.clients[a].nickname, la), ChatMsg(s.clients[b].nickname, lb);
    assert SessionOk(s.clients[a]) && SessionOk(s.clients[b]);
    assert ProcessMessage(s, a, la, oa) == s.(clients := Broadcast(s.clients, ma, ra));
    assert ProcessMessage(s, b, lb, ob) == s.(clients := Broadcast(s.clients, mb, rb));
    BroadcastsCommute(s.clients, ma, ra, mb, rb);
  }

  /** Private delivery, for every iteration order of the client map: some chatting client of that nickname gets the
      message and the sender the confirmation, or nobody has the nickname and only the sender is told so. */
  lemma PrivateDelivery(s: Server, fd: int, target: string, text: string, order: seq<int>) returns (g: int)
    requires fd in s.clients && Enumerates(order, s.clients.Keys)
    ensures var s', c := HandlePrivateMessage(s, fd, target, text, order), s.clients[fd];
            s'.rooms == s.rooms &&
            if exists h :: h in s.clients && s.clients[h].nickname == target && s.clients[h].state == StateChat then
              && g in s.clients && s.clients[g].nickname == target && s.clients[g].state == StateChat
              && (g != fd ==>
                    s'.clients == s.clients[g := Queue(s.clients[g], "[Private msg from " + c.nickname + "]: " + text + "\n")]
                                           [fd := Queue(c, "[Private msg to " + target + "]: " + text + "\n")])
              && (g == fd ==>
                    s'.clients == s.clients[fd := Queue(Queue(c, "[Private msg from " + target + "]: " + text + "\n"),
                                                        "[Private msg to " + target + "]: " + text + "\n")])
            else
              s'.clients == s.clients[fd := Queue(c, "User: " + target + " not found\n")]
  {
    var i := FirstAnswering(s.clients, order, target);
    g := if i < |order| then order[i] else fd;
    if h :| h in s.clients && s.clients[h].nickname == target && s.clients[h].state == StateChat {
      assert h in order;
      var j :| 0 <= j < |order| && order[j] == h;
    }
  }

  /** A client that disconnects before it has a nickname leaves without a word. */
  lemma SilentDisconnect(s: Server, fd: int)
    requires Inv(s) && fd in s.clients && s.clients[fd].state == StateNickname
    ensures Disconnect(s, fd) == s.(clients := s.clients - {fd})
  {
    assert SessionOk(s.clients[fd]);
  }

  /** An accepted client is asked for its nickname; if it cannot be registered nothing has happened. */
  lemma AcceptPrompts(s: Server, fd: int, registered: bool)
    requires fd !in s.clients
    ensures Step(s, Accept(fd, registered)) ==
            if registered
            then s.(clients := s.clients[fd := Session(StateNickname, "", "Enter your nickname: ", true, "", "")])
            else s
  {
    assert "" + "Enter your nickname: " == "Enter your nickname: ";
  }

  // Listings

  function Nicknames(cs: Sessions, fds: seq<int>): (words: seq<string>)
    requires forall i | 0 <= i < |fds| :: fds[i] in cs
    ensures |words| == |fds|
    ensures forall i | 0 <= i < |fds| :: words[i] == cs[fds[i]].nickname
  {
    if fds == [] then [] else [cs[fds[0]].nickname] + Nicknames(cs, fds[1..])
  }

  /** Each word followed by a blank. */
  function Blanked(words: seq<string>): seq<string> {
    seq(|words|, i requires 0 <= i < |words| => words[i] + " ")
  }

  lemma {:induction false} SpacedIsBlanked(words: seq<string>)
    ensures Spaced(words) == Framing.Concat(Blanked(words))
  {
    if words != [] {
      SpacedIsBlanked(words[1..]);
      assert Blanked(words)[1..] == Blanked(words[1..]);
    }
  }

  /** Nothing happened but that fd was sent reply. */
  ghost predicate OnlySent(s: Server, s': Server, fd: int, reply: string) {
    && fd in s.clients
    && var c := s.clients[fd];
       s' == s.(clients := s.clients[fd := c.(outBuffer := c.outBuffer + reply, wantWrite := true)])
  }

  /** /online, whatever the iteration order: the sender is sent its room's name and the nicknames of exactly the clients
      in that room, each once and each followed by a blank; nothing else changes. */
  lemma OnlineReply(s: Server, fd: int, line: string, o: Orders) returns (fds: seq<int>)
    requires Inv(s) && Enabled(s, Line(fd, line, o)) && s.clients[fd].state == StateChat && "/online" <= line
    ensures forall g :: g in fds <==> g in s.clients && s.clients[g].room == s.clients[fd].room
    ensures forall i, j | 0 <= i < j < |fds| :: fds[i] != fds[j]
    ensures var c := s.clients[fd];
            OnlySent(s, Step(s, Line(fd, line, o)), fd,
                     "Users in room '" + c.room + "': " + Framing.Concat(Blanked(Nicknames(s.clients, fds))) + "\n")
  {
    var c := s.clients[fd];
    Commands.ParsedKinds(line);
    fds := R.OnlineNamesAll(s.clients, o.clients, c.room);
    assert OnlineNames(s.clients, o.clients, c.room) == Nicknames(s.clients, fds) by { hide OnlineNames, Nicknames; }
    SpacedIsBlanked(Nicknames(s.clients, fds));
    hide OnlineNames, Spaced, Nicknames, Blanked, Framing.Concat;
  }

  /** A room's entry in the /rooms reply: its name and the number of its members. */
  ghost function Entry(cs: Sessions, r: string): string {
    r + "[" + Decimal(|Members(cs, r)|) + "]"
  }

  ghost function Entries(cs: Sessions, order: seq<string>): seq<string> {
    seq(|order|, i requires 0 <= i < |order| => Entry(cs, order[i]))
  }

  lemma EntriesCount(s: Server, order: seq<string>)
    requires RoomsOk(s) && Enumerates(order, s.rooms.Keys)
    ensures RoomEntries(s.rooms, order) == Entries(s.clients, order)
  {
    R.EntriesAll(s.rooms, order);
  }

  /** /rooms: the sender is sent each room once, in iteration order, with the number of its members;
      nothing else changes. */
  lemma RoomsReply(s: Server, fd: int, line: string, o: Orders)
    requires Inv(s) && Enabled(s, Line(fd, line, o)) && s.clients[fd].state == StateChat && "/rooms" <= line
    ensures Enumerates(o.rooms, s.rooms.Keys)
    ensures OnlySent(s, Step(s, Line(fd, line, o)), fd,
                     "Rooms list: " + Framing.Concat(Blanked(Entries(s.clients, o.rooms))) + "\n")
  {
    Commands.ParsedKinds(line);
    EntriesCount(s, o.rooms);
    SpacedIsBlanked(Entries(s.clients, o.rooms));
    hide RoomEntries, Spaced, Entries, Blanked, Framing.Concat;
  }

  lemma ChatterHasRoom(s: Server, fd: int)
    requires Inv(s) && fd in s.clients && s.clients[fd].state == StateChat
    ensures s.clients[fd].room in s.rooms
  {
    assert SessionOk(s.clients[fd]);
  }

  lemma EntryOf(s: Server, fds: seq<int>, order: seq<string>, r: string)
    requires r in s.rooms && Enumerates(order, s.rooms.Keys)
    requires forall g :: g in fds <==> g in s.clients && s.clients[g].room == r
    requires forall i, j | 0 <= i < j < |fds| :: fds[i] != fds[j]
    ensures r + "[" + Decimal(|fds|) + "]" in Entries(s.clients, order) && |Entries(s.clients, order)| == |s.rooms|
  {
    assert Enumerates(fds, Members(s.clients, r));
    R.EnumeratesCard(fds, Members(s.clients, r));
    R.EnumeratesCard(order, s.rooms.Keys);
    var i :| 0 <= i < |order| && order[i] == r;
    assert Entries(s.clients, order)[i] == Entry(s.clients, r);
  }

  /** The two replies agree: whoever asks, whatever the iteration orders, the number of nicknames sent to a in answer to
      /online is the number sent to b in answer to /rooms for the room of a. */
  lemma RepliesAgree(s: Server, a: int, la: string, oa: Orders, b: int, lb: string, ob: Orders) returns (names: seq<string>)
    requires Inv(s) && Enabled(s, Line(a, la, oa)) && Enabled(s, Line(b, lb, ob))
    requires s.clients[a].state == StateChat && s.clients[b].state == StateChat
    requires "/online" <= la && "/rooms" <= lb
    ensures var r := s.clients[a].room;
            && OnlySent(s, Step(s, Line(a, la, oa)), a, "Users in room '" + r + "': " + Framing.Concat(Blanked(names)) + "\n")
            && exists entries ::
                 && OnlySent(s, Step(s, Line(b, lb, ob)), b, "Rooms list: " + Framing.Concat(Blanked(entries)) + "\n")
                 && r + "[" + Decimal(|names|) + "]" in entries && |entries| == |s.rooms|
  {
    ChatterHasRoom(s, a);
    hide Step, Inv, Enumerates, OnlySent, Framing.Concat, Blanked, Entries, Decimal, Nicknames;
    var fds := OnlineReply(s, a, la, oa);
    RoomsReply(s, b, lb, ob);
    names := Nicknames(s.clients, fds);
    EntryOf(s, fds, ob.rooms, s.clients[a].room);
  }

  // Output

  /** A writable client stays unless a write fails with output pending. Then the others hear of it; else exactly the
      written bytes are gone from the front, and more is wanted as long as something is left. */
  lemma WriteOutcome(s: Server, fd: int, w: WriteResult)
    requires Inv(s) && Enabled(s, WriteReady(fd, w))
    ensures var s', c := Step(s, WriteReady(fd, w)), s.clients[fd];
            var rest := if w.Written? then c.outBuffer[w.count..] else c.outBuffer;
            if w.Written? || c.outBuffer == ""
            then s' == s.(clients := s.clients[fd := c.(outBuffer := rest, wantWrite := rest != "")])
            else s' == Disconnect(s, fd) && fd !in s'.clients
  {
    assert SessionOk(s.clients[fd]);
    DisconnectClients(s, fd);
    hide Disconnect;
    var c := s.clients[fd];
    if c.outBuffer == "" {
      assert w.Written? ==> c.outBuffer[w.count..] == c.outBuffer;
    }
  }

  /** In any run a client is gone after an event exactly if that was its hangup,
      or a failing write of its with output pending. */
  lemma GoneIff(run: Run, n: nat, fd: int)
    requires IsRun(run) && n < |run.events| && fd in run.states[n].clients
    ensures var s, e := run.states[n], run.events[n];
            fd !in run.states[n + 1].clients <==>
            e == Hangup(fd) || (e == WriteReady(fd, WriteFailed) && s.clients[fd].outBuffer != "")
  {
    hide ProcessMessage, Disconnect, HandleWrite, Inv;
    var s, e := run.states[n], run.events[n];
    RunOk(run, n);
    if fd != e.fd {
      OthersStay(s, e, fd);
    } else {
      match e
      case Accept(_, _) =>
      case Line(_, line, o) => LineKeys(s, fd, line, o);
      case WriteReady(_, w) => WriteOutcome(s, fd, w);
      case Hangup(_) => DisconnectClients(s, fd);
    }
  }

  /** The bytes write(2) took from fd's buffer in this event. */
  function TakenBy(s: Server, e: Event, fd: int): string {
    if e.WriteReady? && e.fd == fd && e.result.Written? && fd in s.clients && e.result.count <= |s.clients[fd].outBuffer|
    then s.clients[fd].outBuffer[..e.result.count] else ""
  }

  lemma DisconnectHeard(s: Server, fd: int, g: int)
    requires RoomsOk(s) && fd in s.clients && g in s.clients && g != fd
    ensures g in Disconnect(s, fd).clients && s.clients[g].outBuffer <= Disconnect(s, fd).clients[g].outBuffer
  {
    DisconnectShape(s, fd);
    assert s.clients[g].outBuffer <= LeaveRoom(s, fd).clients[g].outBuffer;
  }

  lemma OthersHear(s: Server, e: Event, g: int)
    requires Inv(s) && Enabled(s, e) && g in s.clients && g != e.fd
    ensures g in Step(s, e).clients && s.clients[g].outBuffer <= Step(s, e).clients[g].outBuffer
  {
    match e
    case Accept(_, _) =>
    case Line(fd, line, o) => LineIsolation(s, fd, line, o, g);
    case WriteReady(fd, _) => DisconnectHeard(s, fd, g);
    case Hangup(fd) => DisconnectHeard(s, fd, g);
  }

  lemma WriteTakes(c: Session, w: WriteResult)
    requires w.Written? ==> w.count <= |c.outBuffer|
    ensures var (c', alive) := HandleWrite(c, w);
            alive ==> c.outBuffer <= (if w.Written? then c.outBuffer[..w.count] else "") + c'.outBuffer
  {
    if w.Written? {
      assert c.outBuffer == c.outBuffer[..w.count] + c.outBuffer[w.count..];
    }
  }

  /** No event removes or changes queued bytes, except that a write takes them from the front. */
  lemma OutputStep(s: Server, e: Event, fd: int)
    requires Inv(s) && Enabled(s, e) && fd in s.clients && fd in Step(s, e).clients
    ensures s.clients[fd].outBuffer <= TakenBy(s, e, fd) + Step(s, e).clients[fd].outBuffer
  {
    hide ProcessMessage, Disconnect, HandleWrite, Inv;
    if fd != e.fd {
      hide Step, Enabled;
      OthersHear(s, e, fd);
    } else {
      match e
      case Accept(_, _) =>
      case Line(_, line, o) => OwnLine(s, fd, line, o);
      case WriteReady(_, w) =>
        WriteTakes(s.clients[fd], w);
        DisconnectClients(s, fd);
      case Hangup(_) => DisconnectClients(s, fd);
    }
  }

  lemma PrefixChain(a: string, t: string, b: string, u: string, c: string)
    requires a <= t + b && b <= u + c
    ensures a <= t + u + c
  {
    assert t + u + c == t + (u + c);
  }

  ghost function Taken(run: Run, i: nat, n: nat, fd: int): string
    requires i <= n <= |run.events| && n <= |run.states|
  {
    if i == n then "" else Taken(run, i, n - 1, fd) + TakenBy(run.states[n - 1], run.events[n - 1], fd)
  }

  /** Output is a lossless FIFO: in any run, what is buffered for a client at state i is a prefix of what is written
      to it from then on followed by what is still buffered, whoever queues more in between. */
  lemma {:induction false} OutputFifo(run: Run, i: nat, n: nat, fd: int)
    requires IsRun(run) && i <= n <= |run.events|
    requires forall j | i <= j <= n :: fd in run.states[j].clients
    ensures run.states[i].clients[fd].outBuffer <= Taken(run, i, n, fd) + run.states[n].clients[fd].outBuffer
  {
    hide Step, Inv, Enabled, TakenBy;
    if i < n {
      var s, e := run.states[n - 1], run.events[n - 1];
      OutputFifo(run, i, n - 1, fd);
      RunOk(run, n - 1);
      assert run.states[n] == Step(s, e);
      OutputStep(s, e, fd);
      PrefixChain(run.states[i].clients[fd].outBuffer, Taken(run, i, n - 1, fd), s.clients[fd].outBuffer,
                  TakenBy(s, e, fd), run.states[n].clients[fd].outBuffer);
    }
  }
}
