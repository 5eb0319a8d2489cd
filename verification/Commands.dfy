/** src/command/command_parser.cpp */
module Commands {
  import opened Text

  datatype Command =
    | PlainMessage(text: string)
    | PrivateMessage(target: string, text: string)
    | JoinRoom(target: string)
    | LeaveRoom
    | OnlineList
    | RoomList
    | Unknown

  /** The scan for the blank after the nickname starts behind "/msg ". */
  function ParsePrivateMessage(line: string): Command
    requires "/msg " <= line
  {
    var i := 5 + Find(line[5..], ' ');
    if i == |line| || i == |line| - 1 then Unknown
    else PrivateMessage(line[5..i], line[i + 1..])
  }

  /** parse_private_message as written: index 0 stands for "no blank found". */
  method ParsePrivateMessageLoop(line: string) returns (cmd: Command)
    requires "/msg " <= line
    ensures cmd == ParsePrivateMessage(line)
  {
    var start := 0;
    var i := 5;
    while i < |line|
      invariant 5 <= i <= |line| && start == 0
      invariant ' ' !in line[5..i]
    {
      if line[i] == ' ' {
        start := i;
        break;
      }
      i := i + 1;
    }
    assert line[5..][..i - 5] == line[5..i];
    FindAt(line[5..], ' ', i - 5);
    if start == 0 || start == |line| - 1 {
      return Unknown;
    }
    return PrivateMessage(line[5..start], line[start + 1..]);
  }

  function ParseJoinRoom(line: string): Command
    requires "/join " <= line
  {
    if line[6..] == "" then Unknown else JoinRoom(line[6..])
  }

  function Parse(line: string): Command {
    if "/msg " <= line then ParsePrivateMessage(line)
    else if "/join " <= line then ParseJoinRoom(line)
    else if "/leave" <= line then LeaveRoom
    else if "/online" <= line then OnlineList
    else if "/rooms" <= line then RoomList
    else PlainMessage(line)
  }

  function Print(cmd: Command): string
    requires !cmd.Unknown?
  {
    match cmd
    case PlainMessage(text) => text
    case PrivateMessage(target, text) => "/msg " + target + " " + text
    case JoinRoom(target) => "/join " + target
    case LeaveRoom => "/leave"
    case OnlineList => "/online"
    case RoomList => "/rooms"
  }

  predicate HasCommandPrefix(line: string) {
    "/msg " <= line || "/join " <= line || "/leave" <= line || "/online" <= line || "/rooms" <= line
  }

  predicate Printable(cmd: Command) {
    match cmd
    case PlainMessage(text) => !HasCommandPrefix(text)
    case PrivateMessage(target, text) => ' ' !in target && text != ""
    case JoinRoom(target) => target != ""
    case Unknown => false
    case _ => true
  }

  lemma PrivatePrinted(target: string, text: string)
    requires ' ' !in target
    ensures Parse("/msg " + target + " " + text) == if text == "" then Unknown else PrivateMessage(target, text)
  {
    var line := "/msg " + target + " " + text;
    var k := |target|;
    assert line[..5] == "/msg ";
    assert line[5..][..k] == target && line[5..][k] == ' ';
    FindAt(line[5..], ' ', k);
    assert line[5..5 + k] == target && line[5 + k + 1..] == text;
  }

  /** A parsed private message is the line it came from. */
  lemma ParsedPrivate(line: string)
    ensures Parse(line).PrivateMessage? ==>
              var cmd := Parse(line);
              line == "/msg " + cmd.target + " " + cmd.text && ' ' !in cmd.target && cmd.text != ""
  {
    if Parse(line).PrivateMessage? {
      var i := 5 + Find(line[5..], ' ');
      assert line[5..][..i - 5] == line[5..i];
      assert line == line[..5] + line[5..i] + [line[i]] + line[i + 1..];
    }
  }

  /** A command parses back to itself exactly when it is printable. */
  lemma PrintParse(cmd: Command)
    requires !cmd.Unknown?
    ensures Parse(Print(cmd)) == cmd <==> Printable(cmd)
  {
    var line := Print(cmd);
    match cmd
    case PlainMessage(text) =>
    case PrivateMessage(target, text) =>
      assert line[..5] == "/msg ";
      if ' ' !in target {
        PrivatePrinted(target, text);
      } else {
        ParsedPrivate(line);
      }
    case JoinRoom(target) =>
      assert line[..6] == "/join " && line[6..] == target;
      assert line[1] == 'j';
    case LeaveRoom =>
      assert line[1] == 'l';
    case OnlineList =>
      assert line[1] == 'o';
    case RoomList =>
      assert line[1] == 'r';
  }

  /** What parses is what was printed: Parse loses nothing of a recognised message, join or plain line. */
  lemma ParsePrint(line: string)
    ensures var cmd := Parse(line);
            cmd.PlainMessage? || cmd.PrivateMessage? || cmd.JoinRoom? ==> Print(cmd) == line && Printable(cmd)
  {
    ParsedPrivate(line);
    if Parse(line).JoinRoom? {
      assert line == line[..6] + line[6..];
    }
  }

  /** Which lines give which command: decided by the prefix alone, except for the commands with an argument. */
  lemma ParsedKinds(line: string)
    ensures Parse(line) == LeaveRoom <==> "/leave" <= line
    ensures Parse(line) == OnlineList <==> "/online" <= line
    ensures Parse(line) == RoomList <==> "/rooms" <= line
    ensures Parse(line).JoinRoom? <==> "/join " < line
    ensures Parse(line).PrivateMessage? ==> "/msg " <= line
    ensures Parse(line).PlainMessage? <==>
              !("/msg " <= line || "/join " <= line || "/leave" <= line || "/online" <= line || "/rooms" <= line)
  {
    if |line| >= 2 {
      assert "/msg " <= line ==> line[1] == 'm';
      assert "/join " <= line ==> line[1] == 'j';
      assert "/leave" <= line ==> line[1] == 'l';
      assert "/online" <= line ==> line[1] == 'o';
      assert "/rooms" <= line ==> line[1] == 'r';
    }
  }

  /** Exactly which lines are dropped as UNKNOWN, and what that becomes once lines are trimmed. */
  lemma UnknownLines(line: string)
    ensures Parse(line).Unknown? <==>
              line == "/join " || ("/msg " <= line && ' ' !in line[5..|line|]) ||
              (exists target: string :: ' ' !in target && line == "/msg " + target + " ")
    ensures IsTrimmed(line) ==> (Parse(line).Unknown? <==> "/msg " <= line && ' ' !in line[5..])
  {
    if "/msg " <= line {
      var i := 5 + Find(line[5..], ' ');
      assert line[5..][..i - 5] == line[5..i];
      if i == |line| - 1 {
        var target := line[5..i];
        assert line == line[..5] + target + [line[i]];
        assert line == "/msg " + target + " ";
      }
      forall target: string | ' ' !in target && line == "/msg " + target + " "
        ensures Parse(line).Unknown?
      {
        PrivatePrinted(target, "");
        assert line == "/msg " + target + " " + "";
      }
    } else if "/join " <= line {
      assert line[1] == 'j';
      if line[6..] == "" {
        assert line == line[..6] + line[6..];
      }
    }
  }
}
