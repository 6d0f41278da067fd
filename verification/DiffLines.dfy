/** Lines as diff compares them: hashed first, then byte by byte, both with case
    folding and white space taken out when the options ask for it. */
module DiffLines {
  import opened EditScript

  /** A line without its newline. Text files hold no NUL, which ends a line in memory. */
  type Line = seq<bv8>

  datatype Options = Options(icase: bool, iwhite: bool)

  predicate Skipped(o: Options, c: bv8) { o.iwhite && (c == 32 || c == 9 || c == 13) }

  function Fold(o: Options, c: bv8): bv8 { if o.icase && 65 <= c <= 90 then c + 32 else c }

  /** What is left of a line for comparing: its significant bytes, folded. */
  function Normal(o: Options, s: Line): Line {
    if s == [] then []
    else if Skipped(o, s[0]) then Normal(o, s[1..])
    else [Fold(o, s[0])] + Normal(o, s[1..])
  }

  const SEED: bv32 := 2166136261

  function Mix(h: bv32, c: bv8): bv32 { (h ^ (c as bv32)) * 16777619 }

  function Hash(h: bv32, s: Line): bv32
    decreases s
  {
    if s == [] then h else Hash(Mix(h, s[0]), s[1..])
  }

  /** The hash of a line is a function of its normal form alone. */
  method HashLine(o: Options, s: Line) returns (h: bv32)
    ensures h == Hash(SEED, Normal(o, s))
  {
    h := SEED;
    var i := 0;
    while i < |s|
      invariant i <= |s|
      invariant Hash(h, Normal(o, s[i..])) == Hash(SEED, Normal(o, s))
    {
      assert s[i..][1..] == s[i + 1..];
      ghost var rest := Normal(o, s[i + 1..]);
      if !Skipped(o, s[i]) {
        assert Normal(o, s[i..]) == [Fold(o, s[i])] + rest;
        assert ([Fold(o, s[i])] + rest)[1..] == rest;
        h := Mix(h, Fold(o, s[i]));
      }
      i := i + 1;
    }
  }

  /** The byte at `i`, or the NUL that ends the line. */
  function At(s: Line, i: nat): bv8 { if i < |s| then s[i] else 0 }

  /** Compares two lines without building their normal forms. */
  method SameText(o: Options, x: Line, y: Line) returns (same: bool)
    requires 0 !in x && 0 !in y
    ensures same <==> Normal(o, x) == Normal(o, y)
  {
    var i, j := 0, 0;
    while true
      invariant i <= |x| && j <= |y|
      invariant Normal(o, x[i..]) == Normal(o, y[j..]) <==> Normal(o, x) == Normal(o, y)
      decreases |x| - i + |y| - j
    {
      i := SkipBlanks(o, x, i);
      j := SkipBlanks(o, y, j);
      var cx, cy := Fold(o, At(x, i)), Fold(o, At(y, j));
      HeadOfNormal(o, x, i);
      HeadOfNormal(o, y, j);
      ghost var nx, ny := Normal(o, x[i..]), Normal(o, y[j..]);
      assert i < |x| ==> nx[0] == cx && nx[1..] == Normal(o, x[i + 1..]);
      assert j < |y| ==> ny[0] == cy && ny[1..] == Normal(o, y[j + 1..]);
      if cx != cy { return false; }
      if cx == 0 { return true; }
      assert i < |x| && j < |y|;
      i, j := i + 1, j + 1;
    }
  }

  method SkipBlanks(o: Options, s: Line, from: nat) returns (i: nat)
    requires from <= |s|
    ensures from <= i <= |s| && !(i < |s| && Skipped(o, s[i]))
    ensures Normal(o, s[i..]) == Normal(o, s[from..])
  {
    i := from;
    while i < |s| && Skipped(o, s[i])
      invariant from <= i <= |s|
      invariant Normal(o, s[i..]) == Normal(o, s[from..])
    {
      assert s[i..][1..] == s[i + 1..];
      i := i + 1;
    }
  }

  lemma HeadOfNormal(o: Options, s: Line, i: nat)
    requires 0 !in s && i <= |s| && !(i < |s| && Skipped(o, s[i]))
    ensures Fold(o, At(s, i)) == 0 <==> i == |s|
    ensures Normal(o, s[i..]) == if i == |s| then [] else [Fold(o, s[i])] + Normal(o, s[i + 1..])
  {
    if i < |s| {
      assert s[i] in s;
      assert s[i..][1..] == s[i + 1..];
    }
  }

  /** A file cut into lines. */
  datatype File = File(line: seq<Line>, hash: seq<bv32>, noFinalNl: bool) {
    ghost predicate Valid(o: Options) {
      && |hash| == |line|
      && forall i | 0 <= i < |line| :: 0 !in line[i] && hash[i] == Hash(SEED, Normal(o, line[i]))
    }
  }

  /** Line `i` of one file against line `j` of another: the text as the options see
      it, and for two last lines also whether a newline ends them. */
  predicate SameLine(o: Options, fa: File, fb: File, i: int, j: int) {
    && 0 <= i < |fa.line| && 0 <= j < |fb.line|
    && (i == |fa.line| - 1 && j == |fb.line| - 1 ==> fa.noFinalNl == fb.noFinalNl)
    && Normal(o, fa.line[i]) == Normal(o, fb.line[j])
  }

  function Lines(o: Options, fa: File, fb: File): Rel {
    (i: int, j: int) => SameLine(o, fa, fb, i, j)
  }

  /** Looking at the hashes first never hides an equality. */
  method Eq(o: Options, fa: File, fb: File, i: nat, j: nat) returns (same: bool)
    requires fa.Valid(o) && fb.Valid(o) && i < |fa.line| && j < |fb.line|
    ensures same <==> SameLine(o, fa, fb, i, j)
  {
    if fa.hash[i] != fb.hash[j] { return false; }
    if i == |fa.line| - 1 && j == |fb.line| - 1 && fa.noFinalNl != fb.noFinalNl { return false; }
    same := SameText(o, fa.line[i], fb.line[j]);
  }

  /** With no option set a line is its own normal form, so equal means identical. */
  lemma {:induction false} PlainIsIdentity(s: Line)
    ensures Normal(Options(false, false), s) == s
  {
    if s != [] {
      PlainIsIdentity(s[1..]);
    }
  }

  // ── What the options mean ──────────────────────────────────────────

  const SPACE: bv8 := 32
  const TAB: bv8 := 9
  const RETURN: bv8 := 13

  /** A line without its blanks, if they are to be ignored. */
  function Kept(o: Options, s: Line): Line {
    if s == [] || !o.iwhite then s
    else (if s[0] in [SPACE, TAB, RETURN] then [] else [s[0]]) + Kept(o, s[1..])
  }

  /** Two bytes are the same, or, if case is ignored, the same ASCII letter in upper and lower case. */
  predicate Alike(o: Options, c: bv8, d: bv8) {
    || c == d
    || (o.icase && ((65 <= c <= 90 && d == c + 32) || (65 <= d <= 90 && c == d + 32)))
  }

  /** Folding makes equal exactly what is alike. */
  lemma FoldsAlike(o: Options, c: bv8, d: bv8)
    ensures Fold(o, c) == Fold(o, d) <==> Alike(o, c, d)
  {
  }

  lemma {:induction false} NormalIsKept(o: Options, s: Line)
    ensures |Normal(o, s)| == |Kept(o, s)|
    ensures forall k | 0 <= k < |Kept(o, s)| :: Normal(o, s)[k] == Fold(o, Kept(o, s)[k])
    decreases |s|
  {
    if s != [] {
      NormalIsKept(o, s[1..]);
      if !o.iwhite { assert Kept(o, s[1..]) == s[1..]; }
    }
  }

  /** Two lines compare as equal exactly when what is kept of them is alike byte by byte. */
  lemma NormalMeans(o: Options, x: Line, y: Line)
    ensures Normal(o, x) == Normal(o, y) <==>
      |Kept(o, x)| == |Kept(o, y)| && forall k | 0 <= k < |Kept(o, x)| :: Alike(o, Kept(o, x)[k], Kept(o, y)[k])
  {
    hide Normal, Kept, Fold, Alike;
    NormalIsKept(o, x);
    NormalIsKept(o, y);
    forall k | 0 <= k < |Kept(o, x)| && k < |Kept(o, y)|
      ensures Normal(o, x)[k] == Normal(o, y)[k] <==> Alike(o, Kept(o, x)[k], Kept(o, y)[k])
    {
      FoldsAlike(o, Kept(o, x)[k], Kept(o, y)[k]);
    }
  }
}
