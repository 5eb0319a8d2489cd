/** Line framing of ChatServer::handle_client_read (src/server/chat_server.cpp). */
module Framing {
  import opened Text

  function Concat(chunks: seq<string>): string {
    if chunks == [] then "" else chunks[0] + Concat(chunks[1..])
  }

  /** The complete lines of a stream, without their newlines. */
  function Lines(s: string): seq<string>
    decreases |s|
  {
    var k := Find(s, '\n');
    if k == |s| then [] else [s[..k]] + Lines(s[k + 1..])
  }

  /** What follows the last newline. */
  function Tail(s: string): string
    decreases |s|
  {
    var k := Find(s, '\n');
    if k == |s| then s else Tail(s[k + 1..])
  }

  lemma FirstLine(s: string)
    requires Find(s, '\n') < |s|
    ensures var k := Find(s, '\n'); Lines(s) == [s[..k]] + Lines(s[k + 1..]) && Tail(s) == Tail(s[k + 1..])
  {
  }

  function Unlines(ls: seq<string>): string {
    if ls == [] then "" else ls[0] + "\n" + Unlines(ls[1..])
  }

  predicate NewlineFree(ls: seq<string>) {
    forall i | 0 <= i < |ls| :: '\n' !in ls[i]
  }

  lemma UnlinesCons(l: string, ls: seq<string>)
    ensures Unlines([l] + ls) == l + "\n" + Unlines(ls)
  {
    assert ([l] + ls)[1..] == ls;
  }

  lemma Assoc<T>(a: seq<T>, b: seq<T>, c: seq<T>)
    ensures a + b + c == a + (b + c)
  {}

  lemma CutAt(s: string, k: nat)
    requires k < |s| && s[k] == '\n'
    ensures s == s[..k] + "\n" + s[k + 1..]
  {}

  /** Lines and Tail cut the stream at newlines, losing nothing ... */
  lemma {:induction false} SplitJoins(s: string)
    ensures Unlines(Lines(s)) + Tail(s) == s
    decreases |s|
  {
    var k := Find(s, '\n');
    if k < |s| {
      var head, rest := s[..k], s[k + 1..];
      SplitJoins(rest);
      UnlinesCons(head, Lines(rest));
      CutAt(s, k);
      Assoc(head + "\n", Unlines(Lines(rest)), Tail(rest));
    }
  }

  lemma {:induction false} SplitNewlineFree(s: string)
    ensures NewlineFree(Lines(s)) && '\n' !in Tail(s)
    decreases |s|
  {
    var k := Find(s, '\n');
    if k < |s| {
      SplitNewlineFree(s[k + 1..]);
    } else {
      assert s[..k] == s;
    }
  }

  /** ... and no other cut has newline-free pieces. */
  lemma {:induction false} SplitUnique(ls: seq<string>, tail: string)
    requires NewlineFree(ls) && '\n' !in tail
    ensures Lines(Unlines(ls) + tail) == ls && Tail(Unlines(ls) + tail) == tail
  {
    var s := Unlines(ls) + tail;
    if ls == [] {
      assert s == tail;
      FindAt(s, '\n', |s|);
    } else {
      var k := |ls[0]|;
      var rest := Unlines(ls[1..]) + tail;
      assert s == ls[0] + "\n" + rest by { Assoc(ls[0] + "\n", Unlines(ls[1..]), tail); }
      assert s[..k] == ls[0] && s[k] == '\n' && s[k + 1..] == rest;
      FindAt(s, '\n', k);
      SplitUnique(ls[1..], tail);
    }
  }

  lemma UnlinesConcat(a: seq<string>, b: seq<string>)
    ensures Unlines(a + b) == Unlines(a) + Unlines(b)
  {
    if a == [] {
      assert a + b == b;
    } else {
      assert (a + b)[1..] == a[1..] + b;
      UnlinesConcat(a[1..], b);
    }
  }

  /** Later bytes only ever extend the pending tail. */
  lemma SplitAppend(a: string, b: string)
    ensures Lines(a + b) == Lines(a) + Lines(Tail(a) + b)
    ensures Tail(a + b) == Tail(Tail(a) + b)
  {
    var t := Tail(a) + b;
    SplitJoins(a);
    SplitJoins(t);
    SplitNewlineFree(a);
    SplitNewlineFree(t);
    UnlinesConcat(Lines(a), Lines(t));
    Assoc(Unlines(Lines(a)), Tail(a), b);
    Assoc(Unlines(Lines(a)), Unlines(Lines(t)), Tail(t));
    SplitUnique(Lines(a) + Lines(t), Tail(t));
  }

  /** One carriage return before the newline is dropped. */
  function DropReturn(line: string): string {
    if line != "" && line[|line| - 1] == '\r' then line[..|line| - 1] else line
  }

  /** The argument of process_message for each raw line; empty lines give none. */
  function Messages(lines: seq<string>): seq<string> {
    if lines == [] then []
    else
      var line := DropReturn(lines[0]);
      (if line == "" then [] else [Trim(line)]) + Messages(lines[1..])
  }

  lemma {:induction false} MessagesConcat(a: seq<string>, b: seq<string>)
    ensures Messages(a + b) == Messages(a) + Messages(b)
  {
    if a == [] {
      assert a + b == b;
    } else {
      assert (a + b)[1..] == a[1..] + b;
      MessagesConcat(a[1..], b);
    }
  }

  predicate EndsInReturn(line: string) {
    line != "" && line[|line| - 1] == '\r'
  }

  /** One line ended by CR LF, and one ended by LF alone: the message is what the user typed, without outer blanks;
      of several carriage returns all but one stay. */
  lemma MessageTyped(line: string)
    ensures Messages([line + "\r"]) == if line == "" then [] else [Trim(line)]
    ensures !EndsInReturn(line) ==> Messages([line]) == if line == "" then [] else [Trim(line)]
  {
    assert (line + "\r")[..|line|] == line;
    assert [line][1..] == [] && [line + "\r"][1..] == [];
  }

  /** What a user means by typing lines: the non-empty ones, without outer blanks. */
  function Typed(ls: seq<string>): seq<string> {
    if ls == [] then [] else (if ls[0] == "" then [] else [Trim(ls[0])]) + Typed(ls[1..])
  }

  function WithReturns(ls: seq<string>): seq<string> {
    if ls == [] then [] else [ls[0] + "\r"] + WithReturns(ls[1..])
  }

  lemma NoMessages()
    ensures Messages([]) == []
  {
  }

  lemma {:induction false} ReturnsTyped(ls: seq<string>)
    ensures Messages(WithReturns(ls)) == Typed(ls)
    ensures NewlineFree(ls) ==> NewlineFree(WithReturns(ls))
  {
    hide Messages, Trim;
    if ls == [] {
      NoMessages();
    } else {
      ReturnsTyped(ls[1..]);
      MessageTyped(ls[0]);
      MessagesConcat([ls[0] + "\r"], WithReturns(ls[1..]));
    }
  }

  lemma {:induction false} PlainTyped(ls: seq<string>)
    requires forall i | 0 <= i < |ls| :: !EndsInReturn(ls[i])
    ensures Messages(ls) == Typed(ls)
  {
    hide Messages, Trim, EndsInReturn;
    if ls == [] {
      NoMessages();
    } else {
      PlainTyped(ls[1..]);
      MessageTyped(ls[0]);
      assert ls == [ls[0]] + ls[1..];
      MessagesConcat([ls[0]], ls[1..]);
    }
  }

  /** A stream of lines ended by LF, or by CR LF, gives the messages typed. */
  lemma StreamTyped(ls: seq<string>)
    requires NewlineFree(ls)
    ensures Messages(Lines(Unlines(WithReturns(ls)))) == Typed(ls)
    ensures (forall i | 0 <= i < |ls| :: !EndsInReturn(ls[i])) ==> Messages(Lines(Unlines(ls))) == Typed(ls)
  {
    ReturnsTyped(ls);
    if forall i | 0 <= i < |ls| :: !EndsInReturn(ls[i]) { PlainTyped(ls); }
    SplitUnique(ls, "");
    SplitUnique(WithReturns(ls), "");
    assert Unlines(ls) + "" == Unlines(ls) && Unlines(WithReturns(ls)) + "" == Unlines(WithReturns(ls));
  }

  lemma MessagesAppend(lines: seq<string>, raw: string)
    ensures Messages(lines + [raw]) ==
            Messages(lines) + (if DropReturn(raw) == "" then [] else [Trim(DropReturn(raw))])
  {
    MessagesConcat(lines, [raw]);
    assert [raw][1..] == [];
  }

  /** Every message handed on is trimmed. */
  lemma {:induction false} MessagesTrimmed(lines: seq<string>)
    ensures forall m | m in Messages(lines) :: IsTrimmed(m)
  {
    if lines != [] {
      MessagesTrimmed(lines[1..]);
      var a, b := TrimSplits(DropReturn(lines[0]));
    }
  }

  /** One client's reads, chunk by chunk: pending bytes and messages so far. */
  datatype Reader = Reader(pending: string, messages: seq<string>)

  function ReadChunk(r: Reader, chunk: string): Reader {
    var buffer := r.pending + chunk;
    Reader(Tail(buffer), r.messages + Messages(Lines(buffer)))
  }

  function ReadChunks(r: Reader, chunks: seq<string>): Reader
    decreases |chunks|
  {
    if chunks == [] then r else ReadChunks(ReadChunk(r, chunks[0]), chunks[1..])
  }

  lemma ReadTwo(r: Reader, a: string, b: string)
    ensures ReadChunk(ReadChunk(r, a), b) == ReadChunk(r, a + b)
  {
    var buffer := r.pending + a;
    Assoc(r.pending, a, b);
    var first, second := Lines(buffer), Lines(Tail(buffer) + b);
    assert Tail(buffer + b) == Tail(Tail(buffer) + b) && Lines(buffer + b) == first + second by {
      SplitAppend(buffer, b);
    }
    assert Messages(first + second) == Messages(first) + Messages(second) by {
      MessagesConcat(first, second);
    }
    Assoc(r.messages, Messages(first), Messages(second));
  }

  lemma {:induction false} ReadChunksFrom(r: Reader, chunks: seq<string>)
    requires '\n' !in r.pending
    ensures ReadChunks(r, chunks) == ReadChunk(r, Concat(chunks))
    decreases |chunks|
  {
    if chunks == [] {
      assert r.pending + "" == r.pending;
      FindAt(r.pending, '\n', |r.pending|);
    } else {
      SplitNewlineFree(r.pending + chunks[0]);
      ReadChunksFrom(ReadChunk(r, chunks[0]), chunks[1..]);
      ReadTwo(r, chunks[0], Concat(chunks[1..]));
    }
  }

  /** However the stream is cut into reads, the messages and the pending bytes are those of the whole stream. */
  lemma ChunkingIrrelevant(chunks: seq<string>)
    ensures ReadChunks(Reader("", []), chunks) == Reader(Tail(Concat(chunks)), Messages(Lines(Concat(chunks))))
  {
    ReadChunksFrom(Reader("", []), chunks);
    assert "" + Concat(chunks) == Concat(chunks);
  }
}
