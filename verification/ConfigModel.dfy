/** src/config/config.cpp on values: what a configuration file means. */
module ConfigModel {
  import opened Text
  import opened Framing

  type Bindings = map<string, string>

  /** parse_line: `key=value`, anything from '#' on being a comment; other lines bind nothing. */
  function ParseLine(data: Bindings, line: string): Bindings {
    var hash := Find(line, '#');
    var equal := if '=' in line then Find(line, '=') else 0;
    if line == "" || hash == 0 || equal == 0 || equal == |line| - 1 || equal > hash then data
    else
      var value := line[equal + 1..];
      data[Trim(line[..equal]) := Trim(value[..Find(value, '#')])]
  }

  /** What getline returns, one after the other. */
  function FileLines(text: string): seq<string> {
    Lines(text) + (if Tail(text) == "" then [] else [Tail(text)])
  }

  function ParseLines(data: Bindings, lines: seq<string>): Bindings
    decreases |lines|
  {
    if lines == [] then data else ParseLines(ParseLine(data, lines[0]), lines[1..])
  }

  function Load(data: Bindings, text: string): Bindings {
    ParseLines(data, FileLines(text))
  }

  // Which lines bind what

  /** The text before the first '=' is non-empty and free of '#', and something follows the '='. */
  predicate Accepted(line: string) {
    var equal := Find(line, '=');
    0 < equal && equal + 1 < |line| && '#' !in line[..equal]
  }

  function KeyOf(line: string): string
    requires Accepted(line)
  {
    Trim(line[..Find(line, '=')])
  }

  function ValueOf(line: string): string
    requires Accepted(line)
  {
    var value := line[Find(line, '=') + 1..];
    Trim(value[..Find(value, '#')])
  }

  ghost predicate AcceptedFor(lines: seq<string>, i: nat, key: string) {
    i < |lines| && Accepted(lines[i]) && KeyOf(lines[i]) == key
  }

  /** On every line, malformed ones included: an accepted line binds its key, which may be empty after trimming,
      and any other line binds nothing. */
  lemma ParseAccepted(data: Bindings, line: string)
    ensures ParseLine(data, line) == if Accepted(line) then data[KeyOf(line) := ValueOf(line)] else data
  {
    var hash, equal := Find(line, '#'), Find(line, '=');
    if equal < |line| {
      assert equal <= hash ==> '#' !in line[..equal] by {
        assert equal <= hash ==> forall i | 0 <= i < equal :: line[..equal][i] == line[..hash][i];
      }
      assert hash < equal ==> line[..equal][hash] == '#';
    } else {
      assert line[..equal] == line;
    }
  }

  /** A key that no accepted line has keeps what it had. */
  lemma {:induction false} Unbound(data: Bindings, lines: seq<string>, key: string)
    requires forall j: nat :: !AcceptedFor(lines, j, key)
    ensures key in ParseLines(data, lines) <==> key in data
    ensures key in data ==> ParseLines(data, lines)[key] == data[key]
    decreases |lines|
  {
    hide ParseLine, Accepted, KeyOf, ValueOf;
    if lines != [] {
      assert !AcceptedFor(lines, 0, key);
      forall j: nat ensures !AcceptedFor(lines[1..], j, key) {
        assert !AcceptedFor(lines, j + 1, key);
      }
      ParseAccepted(data, lines[0]);
      Unbound(ParseLine(data, lines[0]), lines[1..], key);
    }
  }

  /** Of all lines whatever, the last accepted one for a key decides. */
  lemma {:induction false} LastBindingWins(data: Bindings, lines: seq<string>, i: nat)
    requires i < |lines| && Accepted(lines[i])
    requires forall j | i < j < |lines| :: !AcceptedFor(lines, j, KeyOf(lines[i]))
    ensures KeyOf(lines[i]) in ParseLines(data, lines)
    ensures ParseLines(data, lines)[KeyOf(lines[i])] == ValueOf(lines[i])
    decreases |lines|
  {
    hide ParseLine, Accepted, KeyOf, ValueOf;
    var rest, next, key := lines[1..], ParseLine(data, lines[0]), KeyOf(lines[i]);
    if i > 0 {
      assert rest[i - 1] == lines[i];
      forall j | i - 1 < j < |rest| ensures !AcceptedFor(rest, j, key) {
        assert !AcceptedFor(lines, j + 1, key);
      }
      LastBindingWins(next, rest, i - 1);
    } else {
      forall j: nat ensures !AcceptedFor(rest, j, key) {
        assert !AcceptedFor(lines, j + 1, key) || j >= |rest|;
      }
      ParseAccepted(data, lines[0]);
      Unbound(next, rest, key);
    }
  }

  lemma HashInValue(line: string, equal: nat)
    requires equal < |line| && equal <= Find(line, '#') && line[equal] == '='
    ensures Find(line, '#') == |line| ==> line[equal + 1..][..Find(line[equal + 1..], '#')] == line[equal + 1..]
  {
    var hash, value := Find(line, '#'), line[equal + 1..];
    if hash == |line| {
      assert line[..hash] == line;
      assert forall i | 0 <= i < |value| :: value[i] == line[equal + 1 + i];
      assert '#' !in value;
    }
  }

  lemma NextFileLine(rest: string)
    requires rest != ""
    ensures var k := Find(rest, '\n');
            FileLines(rest) == [rest[..k]] + FileLines(if k < |rest| then rest[k + 1..] else "")
  {
    var k := Find(rest, '\n');
    if k < |rest| {
      FirstLine(rest);
      Assoc([rest[..k]], Lines(rest[k + 1..]), if Tail(rest) == "" then [] else [Tail(rest)]);
    } else {
      assert rest[..k] == rest;
    }
  }

  lemma ParseNextLine(data: Bindings, line: string, lines: seq<string>)
    ensures ParseLines(data, [line] + lines) == ParseLines(ParseLine(data, line), lines)
    ensures ParseLines(data, []) == data
  {
    hide ParseLine;
    assert ([line] + lines)[1..] == lines;
  }

  // Writing and loading

  /** A line of a hand-written file: a binding with optional padding and comment, a comment line, or nothing. */
  datatype FileLine =
    | Binding(key: string, value: string, p0: string, p1: string, p2: string, p3: string, comment: string)
    | Comment(text: string)
    | Blank

  predicate ValidKey(k: string) {
    k != "" && IsTrimmed(k) && '=' !in k && '#' !in k && '\n' !in k
  }

  predicate ValidValue(v: string) {
    v != "" && IsTrimmed(v) && '#' !in v && '\n' !in v
  }

  predicate ValidLine(l: FileLine) {
    match l
    case Binding(k, v, p0, p1, p2, p3, comment) =>
      && ValidKey(k) && ValidValue(v)
      && AllSpaces(p0) && AllSpaces(p1) && AllSpaces(p2) && AllSpaces(p3)
      && (comment == "" || comment[0] == '#') && '\n' !in comment
    case Comment(text) => '\n' !in text
    case Blank => true
  }

  function Print(l: FileLine): string {
    match l
    case Binding(k, v, p0, p1, p2, p3, comment) => (p0 + k + p1) + "=" + ((p2 + v + p3) + comment)
    case Comment(text) => "#" + text
    case Blank => ""
  }

  function PrintAll(ls: seq<FileLine>): seq<string> {
    if ls == [] then [] else [Print(ls[0])] + PrintAll(ls[1..])
  }

  /** What the lines mean: later bindings win. */
  function Meaning(data: Bindings, ls: seq<FileLine>): Bindings
    decreases |ls|
  {
    if ls == [] then data
    else Meaning(if ls[0].Binding? then data[ls[0].key := ls[0].value] else data, ls[1..])
  }

  lemma NotInParts(a: string, b: string, c: string, x: char)
    requires x !in a && x !in b && x !in c
    ensures x !in a + b + c
  {
  }

  lemma ParseSplit(data: Bindings, left: string, right: string)
    requires left != "" && right != "" && '=' !in left && '#' !in left
    ensures ParseLine(data, left + "=" + right) ==
            data[Trim(left) := Trim(right[..Find(right, '#')])]
  {
    hide ParseLine, Trim;
    var line, n := left + "=" + right, |left|;
    assert line[..n] == left && line[n] == '=' && line[n + 1..] == right;
    FindAt(line, '=', n);
    ParseAccepted(data, line);
  }

  lemma CommentCut(v: string, comment: string)
    requires '#' !in v && (comment == "" || comment[0] == '#')
    ensures (v + comment)[..Find(v + comment, '#')] == v
  {
    assert (v + comment)[..|v|] == v;
    FindAt(v + comment, '#', |v|);
  }

  lemma ParseBinding(data: Bindings, k: string, v: string, p0: string, p1: string, p2: string, p3: string, comment: string)
    requires ValidLine(Binding(k, v, p0, p1, p2, p3, comment))
    ensures ParseLine(data, (p0 + k + p1) + "=" + ((p2 + v + p3) + comment)) == data[k := v]
  {
    hide ParseLine, Trim, Find;
    var left, right := p0 + k + p1, p2 + v + p3;
    NotInParts(p0, k, p1, '=');
    NotInParts(p0, k, p1, '#');
    NotInParts(p2, v, p3, '#');
    ParseSplit(data, left, right + comment);
    CommentCut(right, comment);
    TrimPadded(p0, k, p1);
    TrimPadded(p2, v, p3);
  }

  lemma PrintedNewlineFree(l: FileLine)
    requires ValidLine(l)
    ensures '\n' !in Print(l)
  {
    match l
    case Binding(k, v, p0, p1, p2, p3, comment) =>
      NotInParts(p0, k, p1, '\n');
      NotInParts(p2, v, p3, '\n');
      NotInParts(p0 + k + p1, "=", (p2 + v + p3) + comment, '\n');
    case Comment(text) =>
    case Blank =>
  }

  lemma ParsePrinted(data: Bindings, l: FileLine)
    requires ValidLine(l)
    ensures ParseLine(data, Print(l)) == if l.Binding? then data[l.key := l.value] else data
  {
    match l
    case Binding(k, v, p0, p1, p2, p3, comment) => ParseBinding(data, k, v, p0, p1, p2, p3, comment);
    case Comment(text) => FindAt("#" + text, '#', 0);
    case Blank =>
  }

  lemma {:induction false} ParseAllPrinted(data: Bindings, ls: seq<FileLine>)
    requires forall l | l in ls :: ValidLine(l)
    ensures ParseLines(data, PrintAll(ls)) == Meaning(data, ls)
    ensures NewlineFree(PrintAll(ls))
    decreases |ls|
  {
    if ls != [] {
      ParsePrinted(data, ls[0]);
      PrintedNewlineFree(ls[0]);
      ParseAllPrinted(if ls[0].Binding? then data[ls[0].key := ls[0].value] else data, ls[1..]);
      assert PrintAll(ls)[1..] == PrintAll(ls[1..]);
    }
  }

  lemma PrintedFile(ls: seq<FileLine>)
    requires forall l | l in ls :: ValidLine(l)
    ensures FileLines(Unlines(PrintAll(ls))) == PrintAll(ls)
  {
    ParseAllPrinted(map[], ls);
    SplitUnique(PrintAll(ls), "");
    assert Unlines(PrintAll(ls)) + "" == Unlines(PrintAll(ls));
    assert PrintAll(ls) + [] == PrintAll(ls);
  }

  /** Loading what was written gives its meaning. */
  lemma LoadPrinted(ls: seq<FileLine>)
    requires forall l | l in ls :: ValidLine(l)
    ensures Load(map[], Unlines(PrintAll(ls))) == Meaning(map[], ls)
  {
    PrintedFile(ls);
    ParseAllPrinted(map[], ls);
  }

  /** The newline after the last line may be missing. */
  lemma FinalNewlineOptional(xs: seq<string>, y: string)
    requires NewlineFree(xs) && '\n' !in y && y != ""
    ensures FileLines(Unlines(xs) + y) == FileLines(Unlines(xs + [y]))
  {
    SplitUnique(xs, y);
    SplitUnique(xs + [y], "");
    assert Unlines(xs + [y]) + "" == Unlines(xs + [y]);
    assert xs + [y] + [] == xs + [y];
  }

  ghost predicate Binds(ls: seq<FileLine>, i: nat, key: string) {
    i < |ls| && ls[i].Binding? && ls[i].key == key
  }

  /** The lines of ls write out m: one binding per key, in any order, among comments and blank lines. */
  ghost predicate Writes(ls: seq<FileLine>, m: Bindings) {
    && (forall l | l in ls :: ValidLine(l))
    && (forall i: nat, key | Binds(ls, i, key) :: key in m && m[key] == ls[i].value)
    && (forall key | key in m :: exists i: nat :: Binds(ls, i, key))
  }

  lemma {:induction false} PrintedAt(ls: seq<FileLine>, i: nat)
    requires i < |ls|
    ensures |PrintAll(ls)| == |ls| && PrintAll(ls)[i] == Print(ls[i])
  {
    if i > 0 {
      PrintedAt(ls[1..], i - 1);
    } else if |ls| > 1 {
      PrintedAt(ls[1..], 0);
    }
  }

  /** A printed line is accepted if it is a binding, and then for its key and value. */
  lemma PrintedAccepted(l: FileLine)
    requires ValidLine(l)
    ensures Accepted(Print(l)) <==> l.Binding?
    ensures l.Binding? ==> KeyOf(Print(l)) == l.key && ValueOf(Print(l)) == l.value
  {
    var empty: Bindings := map[];
    ParseAccepted(empty, Print(l));
    ParsePrinted(empty, l);
    hide Accepted, KeyOf, ValueOf, ParseLine, Print;
    var parsed := ParseLine(empty, Print(l));
    assert Accepted(Print(l)) ==> KeyOf(Print(l)) in parsed;
    assert l.Binding? ==> l.key in parsed;
  }

  lemma PrintedBinds(ls: seq<FileLine>, i: nat, key: string)
    requires forall l | l in ls :: ValidLine(l)
    ensures AcceptedFor(PrintAll(ls), i, key) <==> Binds(ls, i, key)
    ensures Binds(ls, i, key) ==> ValueOf(PrintAll(ls)[i]) == ls[i].value
  {
    if i < |ls| {
      PrintedAt(ls, i);
      PrintedAccepted(ls[i]);
    } else if ls != [] {
      PrintedAt(ls, 0);
    }
    hide Accepted, KeyOf, ValueOf, Print, ValidLine;
  }

  lemma LastBinding(ls: seq<FileLine>, i: nat, key: string) returns (k: nat)
    requires Binds(ls, i, key)
    ensures Binds(ls, k, key) && forall j | k < j < |ls| :: !Binds(ls, j, key)
    decreases |ls| - i
  {
    if j :| i < j < |ls| && Binds(ls, j, key) {
      k := LastBinding(ls, j, key);
    } else {
      k := i;
    }
  }

  /** Writing a map, one binding per line in whatever order, and loading the file gives the map back. */
  lemma ConfigRoundTrip(ls: seq<FileLine>, m: Bindings)
    requires Writes(ls, m)
    ensures Load(map[], Unlines(PrintAll(ls))) == m
  {
    var lines := PrintAll(ls);
    PrintedFile(ls);
    var r := ParseLines(map[], lines);
    forall key ensures key in r <==> key in m
      ensures key in m ==> key in r && r[key] == m[key]
    {
      forall j: nat ensures AcceptedFor(lines, j, key) <==> Binds(ls, j, key) {
        PrintedBinds(ls, j, key);
      }
      if key in m {
        var i: nat :| Binds(ls, i, key);
        var k := LastBinding(ls, i, key);
        PrintedBinds(ls, k, key);
        LastBindingWins(map[], lines, k);
      } else {
        Unbound(map[], lines, key);
      }
    }
  }
}
