/** String helpers of src/utils/helper.cpp, and decimal printing.
    A `char` stands for one byte of the source's std::string. */
module Text {

  predicate AllSpaces(s: string) {
    forall i | 0 <= i < |s| :: s[i] == ' '
  }

  /** No blank at either end (the empty string included). */
  predicate IsTrimmed(s: string) {
    s == "" || (s[0] != ' ' && s[|s| - 1] != ' ')
  }

  function DropLeading(s: string): string {
    if s != "" && s[0] == ' ' then DropLeading(s[1..]) else s
  }

  function DropTrailing(s: string): string {
    if s != "" && s[|s| - 1] == ' ' then DropTrailing(s[..|s| - 1]) else s
  }

  function Trim(s: string): string {
    DropTrailing(DropLeading(s))
  }

  lemma {:induction false} DropLeadingPadded(a: string, s: string)
    requires AllSpaces(a)
    ensures DropLeading(a + s) == DropLeading(s)
  {
    if a == "" {
      assert a + s == s;
    } else {
      assert (a + s)[1..] == a[1..] + s;
      DropLeadingPadded(a[1..], s);
    }
  }

  lemma {:induction false} DropTrailingPadded(s: string, b: string)
    requires AllSpaces(b)
    ensures DropTrailing(s + b) == DropTrailing(s)
  {
    if b == "" {
      assert s + b == s;
    } else {
      assert (s + b)[..|s + b| - 1] == s + b[..|b| - 1];
      DropTrailingPadded(s, b[..|b| - 1]);
    }
  }

  /** Trimming removes exactly the padding: this and TrimSplits fix Trim uniquely. */
  lemma TrimPadded(a: string, t: string, b: string)
    requires AllSpaces(a) && AllSpaces(b) && IsTrimmed(t)
    ensures Trim(a + t + b) == t
  {
    assert a + t + b == a + (t + b);
    DropLeadingPadded(a, t + b);
    if t == "" {
      assert t + b == b + "";
      DropLeadingPadded(b, "");
    } else {
      DropTrailingPadded(t, b);
    }
  }

  lemma {:induction false} DropLeadingSplits(s: string) returns (a: string)
    ensures AllSpaces(a) && s == a + DropLeading(s)
    ensures DropLeading(s) == "" || DropLeading(s)[0] != ' '
  {
    if s != "" && s[0] == ' ' {
      var a' := DropLeadingSplits(s[1..]);
      a := [' '] + a';
    } else {
      a := "";
    }
  }

  lemma {:induction false} DropTrailingSplits(s: string) returns (b: string)
    ensures AllSpaces(b) && s == DropTrailing(s) + b
    ensures DropTrailing(s) == "" || DropTrailing(s)[|DropTrailing(s)| - 1] != ' '
  {
    if s != "" && s[|s| - 1] == ' ' {
      var b' := DropTrailingSplits(s[..|s| - 1]);
      b := b' + [' '];
    } else {
      b := "";
    }
  }

  /** Every string is blanks, its trimmed form, blanks. */
  lemma TrimSplits(s: string) returns (a: string, b: string)
    ensures AllSpaces(a) && AllSpaces(b) && IsTrimmed(Trim(s))
    ensures s == a + Trim(s) + b
  {
    a := DropLeadingSplits(s);
    b := DropTrailingSplits(DropLeading(s));
    var t := Trim(s);
    assert t != "" ==> t[0] == DropLeading(s)[0];
  }

  /** trim_string, with its two counting loops and the erasures between them. */
  method TrimString(s: string) returns (r: string)
    ensures r == Trim(s)
  {
    r := s;
    if r == "" {
      return;
    }
    var start := 0;
    while start < |r| && r[start] == ' '
      invariant 0 <= start <= |r|
      invariant AllSpaces(r[..start])
    {
      start := start + 1;
    }
    DropLeadingPadded(r[..start], r[start..]);
    assert r[..start] + r[start..] == r;
    r := r[start..];
    if r == "" {
      return;
    }
    var end := |r|;
    var i := |r| - 1;
    while i > 0 && r[i] == ' '
      invariant 0 <= i < |r| && end == i + 1
      invariant AllSpaces(r[end..])
    {
      end := end - 1;
      i := i - 1;
    }
    assert r[..end] + r[end..] == r;
    DropTrailingPadded(r[..end], r[end..]);
    r := r[..end];
  }

  /** Index of the first occurrence of c, or |s| for std::string::npos. */
  function Find(s: string, c: char): (k: nat)
    ensures k <= |s|
    ensures k < |s| ==> s[k] == c
    ensures c !in s[..k]
  {
    if s == "" || s[0] == c then 0
    else
      var k := 1 + Find(s[1..], c);
      assert s[..k] == [s[0]] + s[1..][..k - 1];
      k
  }

  lemma FindAt(s: string, c: char, k: nat)
    requires k <= |s| && c !in s[..k] && (k < |s| ==> s[k] == c)
    ensures Find(s, c) == k
  {
    var f := Find(s, c);
    assert forall i | 0 <= i < k :: s[i] != c by {
      assert forall i | 0 <= i < k :: s[..k][i] == s[i];
    }
    assert forall i | 0 <= i < f :: s[i] != c by {
      assert forall i | 0 <= i < f :: s[..f][i] == s[i];
    }
  }

  // Decimal printing (std::to_string and the "{}" of fmt on a size_t)

  function Digit(d: nat): char
    requires d < 10
  {
    "0123456789"[d]
  }

  function Decimal(n: nat): (s: string)
    ensures s != ""
  {
    if n < 10 then [Digit(n)] else Decimal(n / 10) + [Digit(n % 10)]
  }

  function ToString(n: int): string {
    if n < 0 then "-" + Decimal(-n) else Decimal(n)
  }

  predicate IsDigits(s: string) {
    forall i | 0 <= i < |s| :: '0' <= s[i] <= '9'
  }

  /** Reading decimal digits. */
  function DecimalValue(s: string): nat
    requires IsDigits(s)
  {
    if s == "" then 0 else 10 * DecimalValue(s[..|s| - 1]) + (s[|s| - 1] as nat - '0' as nat)
  }

  /** A number is printed in digits, without leading zeros, that read as the number. */
  lemma {:induction false} DecimalReads(n: nat)
    ensures IsDigits(Decimal(n)) && DecimalValue(Decimal(n)) == n
    ensures n > 0 ==> Decimal(n)[0] != '0'
  {
    var s := Decimal(n);
    if n >= 10 {
      DecimalReads(n / 10);
      assert s[..|s| - 1] == Decimal(n / 10);
    } else {
      assert s[..|s| - 1] == "";
    }
  }

  lemma DecimalInjective(m: nat, n: nat)
    requires Decimal(m) == Decimal(n)
    ensures m == n
  {
    DecimalReads(m);
    DecimalReads(n);
  }
}
