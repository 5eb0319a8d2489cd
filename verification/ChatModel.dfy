/** The chat server on values: what each operation of src/server/chat_server.cpp and
    src/command/command_handler.cpp makes of the clients and the rooms.
    The classes of ChatServer.dfy are proved against these functions. */
module ChatModel {
  import opened Text
  import opened Commands

  const LOBBY: string := "lobby"

  datatype ClientState =
    | StateNickname
    | StateChat
    | StateSetupRoomPassword
    | StateEnterRoomPassword

  datatype Session = Session(
    state: ClientState,
    nickname: string,
    outBuffer: string,
    wantWrite: bool,
    room: string,
    connectedRoom: string)

  datatype RoomInfo = RoomInfo(password: string, userCount: int)

  type Sessions = map<int, Session>

  datatype Server = Server(clients: Sessions, rooms: map<string, RoomInfo>)

  const NEW_SESSION := Session(StateNickname, "", "", false, "", "")

  /** The state when the event loop starts. */
  const INITIAL := Server(map[], map[LOBBY := RoomInfo("", 0)])

  // Output

  function Queue(c: Session, msg: string): Session {
    var out := c.outBuffer + msg;
    c.(outBuffer := out, wantWrite := c.wantWrite || out != "")
  }

  function Tell(cs: Sessions, fd: int, msg: string): Sessions
    requires fd in cs
  {
    cs[fd := Queue(cs[fd], msg)]
  }

  /** Who hears a broadcast; the empty room name addresses every chatting client. */
  predicate Hears(c: Session, room: string) {
    c.state == StateChat && (room == "" || c.room == room)
  }

  function Broadcast(cs: Sessions, msg: string, room: string): (r: Sessions)
    ensures r.Keys == cs.Keys
  {
    map fd | fd in cs :: if Hears(cs[fd], room) then Queue(cs[fd], msg) else cs[fd]
  }

  function LeftRoomMsg(nick: string, room: string): string {
    "[SERVER]: " + nick + " left the room " + "[" + room + "]" + ".\n"
  }

  function JoinedRoomMsg(nick: string, room: string): string {
    "[SERVER]: " + nick + " joined the room " + "[" + room + "]" + ".\n"
  }

  function LeftServerMsg(nick: string): string {
    nick + " left the server\n"
  }

  function ChatMsg(nick: string, text: string): string {
    "[" + nick + "]: " + text + "\n"
  }

  function PrivateFromMsg(nick: string, text: string): string {
    "[Private msg from " + nick + "]: " + text + "\n"
  }

  function PrivateToMsg(nick: string, text: string): string {
    "[Private msg to " + nick + "]: " + text + "\n"
  }

  function NotFoundMsg(target: string): string {
    "User: " + target + " not found\n"
  }

  function WelcomeMsg(nick: string): string {
    "Welcome to the chat, " + nick + "!\n"
  }

  // Rooms

  /** One user fewer; a room other than the lobby is erased at zero. */
  function Release(rooms: map<string, RoomInfo>, r: string): map<string, RoomInfo>
    requires r in rooms
  {
    var info := rooms[r].(userCount := rooms[r].userCount - 1);
    if info.userCount == 0 && r != LOBBY then rooms - {r} else rooms[r := info]
  }

  /** One user more; an absent room is created with the empty password. */
  function Admit(rooms: map<string, RoomInfo>, r: string): map<string, RoomInfo> {
    var info := if r in rooms then rooms[r] else RoomInfo("", 0);
    rooms[r := info.(userCount := info.userCount + 1)]
  }

  /** The common first part of join_room and leave_room. */
  function Depart(s: Server, fd: int): (s': Server)
    requires fd in s.clients
    ensures s'.clients.Keys == s.clients.Keys
  {
    var c := s.clients[fd];
    if c.room == "" || c.room !in s.rooms then s
    else Server(Broadcast(s.clients, LeftRoomMsg(c.nickname, c.room), c.room), Release(s.rooms, c.room))
  }

  function Enter(s: Server, fd: int, r: string): (s': Server)
    requires fd in s.clients
    ensures s'.clients.Keys == s.clients.Keys
    ensures r in s'.rooms
  {
    var cs := s.clients[fd := s.clients[fd].(room := r, connectedRoom := "")];
    Server(Broadcast(cs, JoinedRoomMsg(cs[fd].nickname, r), r), Admit(s.rooms, r))
  }

  function JoinRoom(s: Server, fd: int, r: string): (s': Server)
    requires fd in s.clients
    ensures s'.clients.Keys == s.clients.Keys
    ensures r in s'.rooms
  {
    Enter(Depart(s, fd), fd, r)
  }

  function LeaveRoom(s: Server, fd: int): (s': Server)
    requires fd in s.clients
    ensures s'.clients.Keys == s.clients.Keys
  {
    var c := s.clients[fd];
    if c.room == "" || c.room !in s.rooms then s
    else
      var d := Depart(s, fd);
      d.(clients := d.clients[fd := d.clients[fd].(room := "", connectedRoom := "")])
  }

  function Disconnect(s: Server, fd: int): Server
    requires fd in s.clients
  {
    var d := LeaveRoom(s, fd);
    var nick := d.clients[fd].nickname;
    var cs := if nick == "" then d.clients else Broadcast(d.clients, LeftServerMsg(nick), "");
    d.(clients := cs - {fd})
  }

  // Commands

  function SetState(s: Server, fd: int, state: ClientState): Server
    requires fd in s.clients
  {
    s.(clients := s.clients[fd := s.clients[fd].(state := state)])
  }

  function Reply(s: Server, fd: int, msg: string): Server
    requires fd in s.clients
  {
    s.(clients := Tell(s.clients, fd, msg))
  }

  function HandlePlainMessage(s: Server, fd: int, text: string): Server
    requires fd in s.clients
  {
    var c := s.clients[fd];
    s.(clients := Broadcast(s.clients, ChatMsg(c.nickname, text), c.room))
  }

  predicate Answers(cs: Sessions, fd: int, nick: string) {
    fd in cs && cs[fd].nickname == nick && cs[fd].state == StateChat
  }

  /** Position in the map's iteration order of the first client that answers to nick, or |order|. */
  function FirstAnswering(cs: Sessions, order: seq<int>, nick: string): (i: nat)
    ensures i <= |order|
    ensures i < |order| ==> Answers(cs, order[i], nick)
    ensures forall j | 0 <= j < i :: !Answers(cs, order[j], nick)
  {
    if order == [] || Answers(cs, order[0], nick) then 0
    else 1 + FirstAnswering(cs, order[1..], nick)
  }

  function HandlePrivateMessage(s: Server, fd: int, target: string, text: string, order: seq<int>): Server
    requires fd in s.clients
  {
    var i := FirstAnswering(s.clients, order, target);
    if i == |order| then Reply(s, fd, NotFoundMsg(target))
    else
      var told := Tell(s.clients, order[i], PrivateFromMsg(s.clients[fd].nickname, text));
      s.(clients := Tell(told, fd, PrivateToMsg(s.clients[order[i]].nickname, text)))
  }

  /** A pending join: the client's next line is a password for room r. */
  function AskPassword(s: Server, fd: int, r: string, state: ClientState, prompt: string): Server
    requires fd in s.clients
  {
    var c := s.clients[fd].(state := state, connectedRoom := r);
    s.(clients := s.clients[fd := Queue(c, prompt)])
  }

  function HandleJoinRoom(s: Server, fd: int, r: string): Server
    requires fd in s.clients
  {
    if s.clients[fd].room == r then
      Reply(s, fd, "[SERVER] You are already in this room.\n")
    else if r !in s.rooms then
      AskPassword(s, fd, r, StateSetupRoomPassword, "Create room password: ")
    else if s.rooms[r].password == "" then
      JoinRoom(s, fd, r)
    else
      AskPassword(s, fd, r, StateEnterRoomPassword, "Pls, enter room password: ")
  }

  function HandleLeaveRoom(s: Server, fd: int): Server
    requires fd in s.clients
  {
    if s.clients[fd].room == LOBBY then Reply(s, fd, "[SERVER] You are in lobby.\n")
    else JoinRoom(s, fd, LOBBY)
  }

  /** The nicknames /online prints for a room, in iteration order. */
  function OnlineNames(cs: Sessions, order: seq<int>, room: string): seq<string> {
    if order == [] then []
    else
      (if order[0] in cs && cs[order[0]].room == room then [cs[order[0]].nickname] else [])
      + OnlineNames(cs, order[1..], room)
  }

  function Spaced(words: seq<string>): string {
    if words == [] then "" else words[0] + " " + Spaced(words[1..])
  }

  function RoomEntry(name: string, count: int): string {
    name + "[" + ToString(count) + "]"
  }

  function RoomEntries(rooms: map<string, RoomInfo>, order: seq<string>): seq<string> {
    if order == [] then []
    else
      (if order[0] in rooms then [RoomEntry(order[0], rooms[order[0]].userCount)] else [])
      + RoomEntries(rooms, order[1..])
  }

  function OnlineListMsg(cs: Sessions, order: seq<int>, room: string): string {
    "Users in room '" + room + "': " + Spaced(OnlineNames(cs, order, room)) + "\n"
  }

  function RoomsListMsg(entries: seq<string>): string {
    "Rooms list: " + Spaced(entries) + "\n"
  }

  function HandleOnlineList(s: Server, fd: int, order: seq<int>): Server
    requires fd in s.clients
  {
    Reply(s, fd, OnlineListMsg(s.clients, order, s.clients[fd].room))
  }

  function HandleRoomsList(s: Server, fd: int, order: seq<string>): Server
    requires fd in s.clients
  {
    Reply(s, fd, RoomsListMsg(RoomEntries(s.rooms, order)))
  }

  /** The orders in which the two hash maps happen to be walked. */
  datatype Orders = Orders(clients: seq<int>, rooms: seq<string>)

  function Execute(s: Server, fd: int, line: string, o: Orders): Server
    requires fd in s.clients
  {
    match Parse(line)
    case PrivateMessage(target, text) => HandlePrivateMessage(s, fd, target, text, o.clients)
    case PlainMessage(text) => HandlePlainMessage(s, fd, text)
    case JoinRoom(target) => HandleJoinRoom(s, fd, target)
    case LeaveRoom => HandleLeaveRoom(s, fd)
    case OnlineList => HandleOnlineList(s, fd, o.clients)
    case RoomList => HandleRoomsList(s, fd, o.rooms)
    case Unknown => s
  }

  // Session transitions

  function SetupNickname(s: Server, fd: int, line: string): Server
    requires fd in s.clients
  {
    var c := s.clients[fd].(nickname := line, state := StateChat);
    Reply(JoinRoom(s.(clients := s.clients[fd := c]), fd, LOBBY), fd, WelcomeMsg(line))
  }

  function SetupRoomPassword(s: Server, fd: int, line: string): Server
    requires fd in s.clients
  {
    var r := s.clients[fd].connectedRoom;
    var j := JoinRoom(s, fd, r);
    var locked := j.(rooms := j.rooms[r := j.rooms[r].(password := line)]);
    Reply(SetState(locked, fd, StateChat), fd, "Password success setup, welcome to room!\n")
  }

  function EnterRoomPassword(s: Server, fd: int, line: string): Server
    requires fd in s.clients
  {
    var r := s.clients[fd].connectedRoom;
    if r !in s.rooms then
      Reply(SetState(s, fd, StateChat), fd, "The room has been deleted.\n")
    else if s.rooms[r].password == line then
      Reply(SetState(JoinRoom(s, fd, r), fd, StateChat), fd, "Password success! Welcome to room.\n")
    else
      Reply(SetState(s, fd, StateChat), fd, "Incorrect password! Failed to join the room.\n")
  }

  function ProcessMessage(s: Server, fd: int, line: string, o: Orders): Server
    requires fd in s.clients
  {
    match s.clients[fd].state
    case StateNickname => SetupNickname(s, fd, line)
    case StateSetupRoomPassword => SetupRoomPassword(s, fd, line)
    case StateEnterRoomPassword => EnterRoomPassword(s, fd, line)
    case StateChat => Execute(s, fd, line, o)
  }

  // Events of the epoll loop

  /** What write(2) did with the buffer. */
  datatype WriteResult = Written(count: nat) | WriteFailed

  /** The session after handle_write, and whether the connection survives. */
  function HandleWrite(c: Session, w: WriteResult): (Session, bool)
    requires w.Written? ==> w.count <= |c.outBuffer|
  {
    if c.outBuffer == "" then (c.(wantWrite := false), true)
    else if w.WriteFailed? then (c, false)
    else
      var rest := c.outBuffer[w.count..];
      (c.(outBuffer := rest, wantWrite := c.wantWrite && rest != ""), true)
  }

  datatype Event =
    | Accept(fd: int, registered: bool)
    | Line(fd: int, line: string, orders: Orders)
    | WriteReady(fd: int, result: WriteResult)
    | Hangup(fd: int)

  ghost predicate Enumerates<T(!new)>(order: seq<T>, keys: set<T>) {
    && (forall k :: k in keys <==> k in order)
    && (forall i, j | 0 <= i < j < |order| :: order[i] != order[j])
  }

  ghost predicate Enabled(s: Server, e: Event) {
    match e
    case Accept(fd, _) => fd !in s.clients
    case Line(fd, _, o) =>
      fd in s.clients && Enumerates(o.clients, s.clients.Keys) && Enumerates(o.rooms, s.rooms.Keys)
    case WriteReady(fd, w) =>
      fd in s.clients && (w.Written? ==> w.count <= |s.clients[fd].outBuffer|)
    case Hangup(fd) => fd in s.clients
  }

  ghost function Step(s: Server, e: Event): Server
    requires Enabled(s, e)
  {
    match e
    case Accept(fd, registered) =>
      if registered then s.(clients := s.clients[fd := Queue(NEW_SESSION, "Enter your nickname: ")]) else s
    case Line(fd, line, o) => ProcessMessage(s, fd, line, o)
    case WriteReady(fd, w) =>
      var (c, alive) := HandleWrite(s.clients[fd], w);
      if alive then s.(clients := s.clients[fd := c]) else Disconnect(s, fd)
    case Hangup(fd) => Disconnect(s, fd)
  }
}
