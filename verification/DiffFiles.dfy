/** One pair of text files, from lines to unified output. */
module DiffFiles {
  import opened Optional
  import opened EditScript
  import opened DiffLines
  import opened Unified
  import opened UnifiedView
  import opened Myers

  datatype Outcome =
    | Equal
    | LaidOut(out: seq<Token>)
    | TooFar

  /** Every line of one file compares equal to the line of the other it stands against. */
  ghost predicate AllEqual(o: Options, fa: File, fb: File) {
    |fa.line| == |fb.line| && Matched(Lines(o, fa, fb), 0, 0, |fa.line|)
  }

  /** How many pairs of equal lines can be cut off the front, and where both files
      end once those at the end are cut off too. */
  method Trim(o: Options, fa: File, fb: File) returns (lo: nat, ahi: nat, bhi: nat)
    requires fa.Valid(o) && fb.Valid(o)
    ensures lo <= ahi <= |fa.line| && lo <= bhi <= |fb.line| && |fa.line| - ahi == |fb.line| - bhi
    ensures Matched(Lines(o, fa, fb), 0, 0, lo)
    ensures Matched(Lines(o, fa, fb), ahi, bhi, |fa.line| - ahi)
    ensures lo == ahi == bhi <==> AllEqual(o, fa, fb)
  {
    hide Normal;
    ghost var eq := Lines(o, fa, fb);
    var nA, nB := |fa.line|, |fb.line|;
    var alo, blo := 0, 0;
    while alo < nA && blo < nB
      invariant 0 <= alo == blo && alo <= nA && blo <= nB
      invariant Matched(eq, 0, 0, alo)
      decreases nA - alo
    {
      var same := Eq(o, fa, fb, alo, blo);
      if !same {
        assert !eq(alo, blo);
        break;
      }
      alo, blo := alo + 1, blo + 1;
    }
    lo, ahi, bhi := alo, nA, nB;
    while lo < ahi && blo < bhi
      invariant lo <= ahi <= nA && lo <= bhi <= nB && nA - ahi == nB - bhi
      invariant Matched(eq, ahi, bhi, nA - ahi)
      decreases ahi
    {
      var same := Eq(o, fa, fb, ahi - 1, bhi - 1);
      if !same { break; }
      ahi, bhi := ahi - 1, bhi - 1;
    }
  }

  /** The whole of diff on two loaded files: equal ends trimmed, the middle laid out
      as a shortest edit, the edit printed.

      What is printed is a patch from the first file to the second, and no edit
      script whatever between the two files removes and adds fewer lines than it
      marks. Exactly the lines around changes are shown with it. Only a pair whose
      least edit is longer than MAX_D is turned away. */
  method Diff(o: Options, fa: File, fb: File, ctx: nat) returns (r: Outcome)
    requires fa.Valid(o) && fb.Valid(o)
    ensures r.Equal? <==> AllEqual(o, fa, fb)
    ensures r.LaidOut? ==> IsPatch(Lines(o, fa, fb), fa.line, fb.line, r.out)
    ensures r.LaidOut? ==>
      IsLeast(Lines(o, fa, fb), Marked(r.out), 0, 0, |fa.line|, |fb.line|) && Marked(r.out) <= MAX_D
    ensures r.LaidOut? ==> InContext(r.out, ctx, |fa.line|) && Neat(fa, fb, r.out)
    ensures r.TooFar? <==> IsLeast(Lines(o, fa, fb), MAX_D + 1, 0, 0, |fa.line|, |fb.line|)
  {
    hide IsLeast, Matched, Lays, IsPatch, Marked, Changed, Spaced, SameLine, InContext, Neat;
    ghost var eq := Lines(o, fa, fb);
    var nA, nB := |fa.line|, |fb.line|;
    var lo, ahi, bhi := Trim(o, fa, fb);
    TrimmingKeepsLeast(eq, MAX_D + 1, lo, nA - ahi, 0, 0, nA, nB);
    if lo == ahi && lo == bhi {
      NothingToDo(eq, lo, lo, MAX_D + 1);
      return Equal;
    }
    var d := new Differ(o, fa, fb);
    var rc := d.Run(lo, ahi, lo, bhi);
    if rc == 1 {
      return TooFar;
    }
    var bl := d.blocks[d.first..d.first + d.nblocks];
    TrimmingKeepsLeast(eq, Changed(bl), lo, nA - ahi, 0, 0, nA, nB);
    LaysAfter(eq, bl, lo, 0, 0, ahi, bhi);
    LaysBefore(eq, bl, nA - ahi, 0, 0, ahi, bhi);
    var out := Emit(eq, fa, fb, bl, ctx);
    r := LaidOut(out);
  }

  /** Nothing is needed to get nowhere. */
  lemma NothingToDo(eq: Rel, a: int, b: int, cost: int)
    requires 0 < cost
    ensures !IsLeast(eq, cost, a, b, a, b)
  {
    assert Path(eq, [], a, b, a, b);
  }

  /** With neither option set the patch makes exactly the lines of the second file. */
  lemma PlainPatchIsExact(fa: File, fb: File, out: seq<Token>)
    requires IsPatch(Lines(Options(false, false), fa, fb), fa.line, fb.line, out)
    ensures Patched(fa.line, out) == Some(fb.line)
  {
    var o := Options(false, false);
    var c := Patched(fa.line, out).value;
    forall j | 0 <= j < |c|
      ensures c[j] == fb.line[j]
    {
      if c[j] != fb.line[j] {
        var i :| 0 <= i < |fa.line| && Lines(o, fa, fb)(i, j) && c[j] == fa.line[i];
        PlainIsIdentity(fa.line[i]);
        PlainIsIdentity(fb.line[j]);
      }
    }
    assert c == fb.line;
  }
}
