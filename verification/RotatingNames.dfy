/** File names of the rotating sink: split_by_extension (include/spdlog/details/file_helper-inl.h) and
    calc_filename (include/spdlog/sinks/rotating_file_sink-inl.h). Paths use '/' as the folder separator. */
module RotatingNames {
  import opened Text

  /** rfind: the last index of c, or -1. */
  function LastIndexOf(s: string, c: char): (k: int)
    ensures -1 <= k < |s|
    ensures k >= 0 ==> s[k] == c
    ensures forall i | k < i < |s| :: s[i] != c
  {
    if s == "" then -1
    else if s[|s| - 1] == c then |s| - 1
    else LastIndexOf(s[..|s| - 1], c)
  }

  function SplitByExtension(fname: string): (string, string) {
    var dot := LastIndexOf(fname, '.');
    if dot == -1 || dot == 0 || dot == |fname| - 1 then (fname, "")
    else
      var folder := LastIndexOf(fname, '/');
      if folder != -1 && folder >= dot - 1 then (fname, "")
      else (fname[..dot], fname[dot..])
  }

  /** A stem that is not a bare folder, and an extension that is one dot and some plain characters. */
  predicate IsSplit(stem: string, ext: string) {
    && stem != "" && stem[|stem| - 1] != '/'
    && |ext| >= 2 && ext[0] == '.' && '.' !in ext[1..] && '/' !in ext
  }

  /** The two parts always make up the name, and an extension is found exactly when the name ends in one. */
  lemma SplitMeaning(fname: string)
    ensures var (stem, ext) := SplitByExtension(fname);
            stem + ext == fname && (ext == "" || IsSplit(stem, ext))
  {
    var dot := LastIndexOf(fname, '.');
    var (stem, ext) := SplitByExtension(fname);
    if ext != "" {
      assert forall i | 0 <= i < |ext| :: ext[i] == fname[dot + i];
    }
  }

  lemma SplitUnique(stem: string, ext: string)
    requires IsSplit(stem, ext)
    ensures SplitByExtension(stem + ext) == (stem, ext)
  {
    var fname, d := stem + ext, |stem|;
    assert forall i | 0 < i < |ext| :: ext[i] == ext[1..][i - 1];
    assert forall i | d <= i < |fname| :: fname[i] == ext[i - d];
    assert fname[d] == '.';
    assert LastIndexOf(fname, '.') == d;
    assert fname[d - 1] == stem[d - 1];
    var folder := LastIndexOf(fname, '/');
    assert folder < d - 1;
    assert fname[..d] == stem && fname[d..] == ext;
  }

  function CalcFilename(fname: string, index: nat): string {
    if index == 0 then fname
    else
      var (stem, ext) := SplitByExtension(fname);
      stem + "." + Decimal(index) + ext
  }

  /** The index stands before the extension if there is one, else at the end; index 0 is the name itself. */
  lemma FilenameOf(stem: string, ext: string, index: nat)
    requires IsSplit(stem, ext)
    ensures CalcFilename(stem + ext, 0) == stem + ext
    ensures index > 0 ==> CalcFilename(stem + ext, index) == stem + "." + Decimal(index) + ext
  {
    SplitUnique(stem, ext);
  }

  lemma FilenameWithoutExtension(fname: string, index: nat)
    requires forall stem, ext | stem + ext == fname :: !IsSplit(stem, ext)
    ensures CalcFilename(fname, 0) == fname
    ensures index > 0 ==> CalcFilename(fname, index) == fname + "." + Decimal(index)
  {
    SplitMeaning(fname);
    var (stem, ext) := SplitByExtension(fname);
    assert ext == "" && stem == fname;
    assert fname + "." + Decimal(index) + "" == fname + "." + Decimal(index);
  }

  lemma Sandwich(a: string, x: string, y: string, b: string)
    requires a + x + b == a + y + b
    ensures x == y
  {
    assert |x| == |y|;
    forall i | 0 <= i < |x| ensures x[i] == y[i] {
      assert (a + x + b)[|a| + i] == x[i];
      assert (a + y + b)[|a| + i] == y[i];
    }
  }

  /** Two slots never share a file. */
  lemma FilenamesDistinct(fname: string, i: nat, j: nat)
    requires CalcFilename(fname, i) == CalcFilename(fname, j)
    ensures i == j
  {
    var (stem, ext) := SplitByExtension(fname);
    SplitMeaning(fname);
    if i != 0 && j != 0 {
      Sandwich(stem + ".", Decimal(i), Decimal(j), ext);
      DecimalInjective(i, j);
    }
  }
}
