/** One pair of files, from bytes to an answer: the quick answer, and the long one. */
module DiffPair {
  import opened Optional
  import opened EditScript
  import opened DiffLines
  import opened DiffLoad
  import opened Unified
  import opened UnifiedView
  import Myers
  import DiffFiles

  // ── The quick answer ───────────────────────────────────────────────

  const READ_SIZE := 4096

  /** A file read a buffer at a time. */
  class Reader {
    var unread: seq<bv8>
    var buf: seq<bv8>
    var pos: nat

    ghost predicate Valid()
      reads this
    {
      pos <= |buf| <= READ_SIZE
    }

    /** What is still to come. */
    ghost function Left(): seq<bv8>
      reads this
      requires Valid()
    {
      buf[pos..] + unread
    }

    constructor (data: seq<bv8>)
      ensures Valid() && Left() == data
    {
      unread, buf, pos := data, [], 0;
    }

    /** Reads more if the buffer is used up. */
    method Fill() returns (more: bool)
      requires Valid()
      modifies this
      ensures Valid() && Left() == old(Left())
      ensures more <==> pos < |buf|
      ensures more <==> Left() != []
    {
      if pos >= |buf| {
        var n := Chunk(|unread|, READ_SIZE);
        if n == 0 { return false; }
        assert buf[pos..] + unread == unread[..n] + unread[n..];
        buf, unread, pos := unread[..n], unread[n..], 0;
      }
      more := true;
    }

    /** The next byte that counts, folded. */
    method Next(o: Options) returns (c: Option<bv8>)
      requires Valid()
      modifies this
      ensures Valid() && |Left()| <= old(|Left()|)
      ensures Normal(o, old(Left())) == if c.None? then [] else [c.value] + Normal(o, Left())
      ensures c.Some? ==> |Left()| < old(|Left()|)
    {
      while true
        invariant Valid() && |Left()| <= old(|Left()|) && Normal(o, Left()) == Normal(o, old(Left()))
        decreases |Left()|
      {
        var more := Fill();
        if !more { return None; }
        ghost var before := Left();
        var b := buf[pos];
        pos := pos + 1;
        assert before[0] == b && before[1..] == Left();
        if !Skipped(o, b) { return Some(Fold(o, b)); }
      }
    }
  }

  /** Whether two files differ, without holding either: what counts in one is what counts in
      the other. */
  method Quick(o: Options, da: seq<bv8>, db: seq<bv8>) returns (same: bool)
    ensures same <==> Normal(o, da) == Normal(o, db)
  {
    hide Normal;
    var ra := new Reader(da);
    var rb := new Reader(db);
    while true
      invariant ra != rb && ra.Valid() && rb.Valid()
      invariant Normal(o, ra.Left()) == Normal(o, rb.Left()) <==> Normal(o, da) == Normal(o, db)
      decreases |ra.Left()|
    {
      ghost var na, nb := Normal(o, ra.Left()), Normal(o, rb.Left());
      var x := ra.Next(o);
      var y := rb.Next(o);
      assert x.Some? ==> na[0] == x.value && na[1..] == Normal(o, ra.Left());
      assert y.Some? ==> nb[0] == y.value && nb[1..] == Normal(o, rb.Left());
      if x != y { return false; }
      if x.None? { return true; }
    }
  }

  // ── The long answer ────────────────────────────────────────────────

  datatype Answer =
    | Same
    | Differ
    | BinaryDiffer
    | LaidOut(out: seq<Token>)
    | TooFar
    | Trouble

  /** A file as it stands in memory once it is loaded. */
  function Held(data: seq<bv8>): seq<bv8> { if 0 in data then data else Blanked(data) }

  /** The texts a patch is between, or that are too far apart for one. */
  ghost predicate ApartAs(o: Options, fa: File, fb: File, ctx: nat, r: Answer) {
    var eq := Lines(o, fa, fb);
    match r
    case LaidOut(out) =>
      && IsPatch(eq, fa.line, fb.line, out)
      && Marked(out) <= Myers.MAX_D
      && InContext(out, ctx, |fa.line|) && Neat(fa, fb, out)
      && IsLeast(eq, Marked(out), 0, 0, |fa.line|, |fb.line|)
    case TooFar => IsLeast(eq, Myers.MAX_D + 1, 0, 0, |fa.line|, |fb.line|)
    case _ => false
  }

  ghost predicate Apart(o: Options, da: seq<bv8>, db: seq<bv8>, ctx: nat, r: Answer) {
    exists fa, fb :: Holds(da, fa) && Holds(db, fb) && ApartAs(o, fa, fb, ctx, r)
  }

  /** Compares two files.

      The quick answer looks only at the bytes that count, and takes a read that fails for the end
      of the file. The long one also tells two texts apart when only one of them ends in a newline,
      and of two files that are not both text it compares what stands in memory. Unless memory runs
      out there is no trouble with files that open, can be read and are not too long. */
  method Compare(o: Options, a: Source, b: Source, ctx: nat, quiet: bool, enough: bool) returns (r: Answer)
    ensures quiet && (!a.opens || !b.opens) ==> r.Trouble?
    ensures quiet && a.opens && b.opens ==> r == if Normal(o, a.data) == Normal(o, b.data) then Same else Differ
    ensures !quiet && (a.Unfit() || b.Unfit()) ==> r.Trouble?
    ensures !quiet && r.Trouble? ==> a.Unfit() || b.Unfit() || !enough
    ensures !quiet && !r.Trouble? && (0 in a.data || 0 in b.data) ==>
              r == if Held(a.data) == Held(b.data) then Same else BinaryDiffer
    ensures !quiet && !r.Trouble? && 0 !in a.data && 0 !in b.data ==>
              if Normal(o, a.data) == Normal(o, b.data) && Unended(a.data) == Unended(b.data) then r.Same?
              else Apart(o, a.data, b.data, ctx, r)
  {
    hide Normal, Holds, Blanked, LineCount, Unended, ApartAs, DiffFiles.AllEqual;
    if quiet {
      if !a.opens || !b.opens { return Trouble; }
      var same := Quick(o, a.data, b.data);
      return if same then Same else Differ;
    }
    var fa := Load(o, a, enough);
    if !fa.Binary? && !fa.Text? { return Trouble; }
    var fb := Load(o, b, enough);
    if !fb.Binary? && !fb.Text? { return Trouble; }
    if fa.Binary? || fb.Binary? {
      var same := |fa.held| == |fb.held| && fa.held == fb.held;
      return if same then Same else BinaryDiffer;
    }
    r := CompareText(o, a.data, fa.file, b.data, fb.file, ctx, enough);
  }

  method CompareText(o: Options, da: seq<bv8>, fa: File, db: seq<bv8>, fb: File, ctx: nat, enough: bool)
    returns (r: Answer)
    requires fa.Valid(o) && fb.Valid(o) && Holds(da, fa) && Holds(db, fb)
    ensures if Normal(o, da) == Normal(o, db) && Unended(da) == Unended(db) then r.Same?
      else r.Trouble? || Apart(o, da, db, ctx, r)
    ensures r.Trouble? ==> !enough
    ensures r.Same? || r.LaidOut? || r.TooFar? || r.Trouble?
  {
    hide Normal, Holds, Unended, IsPatch, IsLeast, Marked, InContext, Neat, DiffFiles.AllEqual;
    SameTexts(o, da, fa, db, fb);
    var d := DiffFiles.Diff(o, fa, fb, ctx);
    if d.Equal? { return Same; }
    var some := Allocates(enough);
    if !some { return Trouble; }
    match d
    case LaidOut(out) => r := LaidOut(out); assert ApartAs(o, fa, fb, ctx, r);
    case TooFar => r := TooFar; assert ApartAs(o, fa, fb, ctx, r);
  }

  /** All lines of two texts compare equal exactly when the bytes that count are the same
      and both end in a newline or neither does. */
  lemma SameTexts(o: Options, da: seq<bv8>, fa: File, db: seq<bv8>, fb: File)
    requires Holds(da, fa) && Holds(db, fb)
    ensures DiffFiles.AllEqual(o, fa, fb) <==> Normal(o, da) == Normal(o, db) && Unended(da) == Unended(db)
  {
    hide Normal, Ended, Unended;
    var pa, ra := Parts(fa).0, Parts(fa).1;
    var pb, rb := Parts(fb).0, Parts(fb).1;
    NormalParts(o, da, fa);
    NormalParts(o, db, fb);
    if Normal(o, da) == Normal(o, db) && Unended(da) == Unended(db) {
      EndedOnce(Normals(o, pa), Normal(o, ra), Normals(o, pb), Normal(o, rb));
      forall i | 0 <= i < |fa.line|
        ensures SameLine(o, fa, fb, i, i)
      {
        if i < |pa| { assert Normals(o, pa)[i] == Normals(o, pb)[i]; }
      }
    }
    if DiffFiles.AllEqual(o, fa, fb) {
      var n := |fa.line|;
      if n > 0 { assert Lines(o, fa, fb)(n - 1, n - 1); }
      forall i | 0 <= i < |pa|
        ensures Normals(o, pa)[i] == Normals(o, pb)[i]
      {
        assert Lines(o, fa, fb)(i, i);
      }
      assert Normals(o, pa) == Normals(o, pb);
    }
  }

  /** The lines that newlines end, and the one that none does. */
  function Parts(f: File): (seq<Line>, Line) {
    var n := |f.line|;
    if f.noFinalNl && n > 0 then (f.line[..n - 1], f.line[n - 1]) else (f.line, [])
  }

  function Normals(o: Options, line: seq<Line>): seq<Line> {
    seq(|line|, i requires 0 <= i < |line| => Normal(o, line[i]))
  }

  lemma NormalParts(o: Options, data: seq<bv8>, f: File)
    requires Holds(data, f)
    ensures var (p, r) := Parts(f);
      && Normal(o, data) == Ended(Normals(o, p)) + Normal(o, r)
      && NL !in Normal(o, r)
      && (forall i | 0 <= i < |p| :: NL !in Normals(o, p)[i])
    ensures f.noFinalNl ==> f.line != []
  {
    hide Normal, Ended;
    var (p, r) := Parts(f);
    assert Ended(p) + r == data;
    NormalOfEnded(o, p, r);
    NoNewline(o, r);
    forall i | 0 <= i < |p|
      ensures NL !in Normals(o, p)[i]
    {
      NoNewline(o, p[i]);
    }
    EndedNone();
  }

  lemma EndedNone()
    ensures Ended([]) == []
  {
  }

  lemma {:induction false} NormalOfEnded(o: Options, p: seq<Line>, r: Line)
    ensures Normal(o, Ended(p) + r) == Ended(Normals(o, p)) + Normal(o, r)
    decreases |p|
  {
    hide Normal;
    if p == [] {
      assert Ended(p) + r == r;
    } else {
      var q, l := p[..|p| - 1], p[|p| - 1];
      assert Ended(p) + r == Ended(q) + (l + ([NL] + r));
      NormalOfEnded(o, q, l + ([NL] + r));
      NormalSplits(o, l, [NL] + r);
      NormalOfNewline(o, r);
      assert Normals(o, p)[..|p| - 1] == Normals(o, q);
      assert Ended(Normals(o, p)) == Ended(Normals(o, q)) + Normal(o, l) + [NL];
    }
  }

  lemma NormalOfNewline(o: Options, r: Line)
    ensures Normal(o, [NL] + r) == [NL] + Normal(o, r)
  {
    assert ([NL] + r)[1..] == r;
  }

  lemma {:induction false} NormalSplits(o: Options, s: Line, t: Line)
    ensures Normal(o, s + t) == Normal(o, s) + Normal(o, t)
    decreases |s|
  {
    if s == [] {
      assert s + t == t;
    } else {
      assert (s + t)[1..] == s[1..] + t;
      NormalSplits(o, s[1..], t);
    }
  }

  lemma {:induction false} NoNewline(o: Options, s: Line)
    requires NL !in s
    ensures NL !in Normal(o, s)
    decreases |s|
  {
    if s != [] {
      assert s[0] in s;
      NoNewline(o, s[1..]);
    }
  }

  /** There is one way only to cut bytes into lines. */
  lemma {:induction false} EndedOnce(p: seq<Line>, x: Line, q: seq<Line>, y: Line)
    requires (forall i | 0 <= i < |p| :: NL !in p[i]) && (forall i | 0 <= i < |q| :: NL !in q[i])
    requires NL !in x && NL !in y && Ended(p) + x == Ended(q) + y
    ensures p == q && x == y
    decreases |p|
  {
    RestNoLonger(p, x, q, y);
    RestNoLonger(q, y, p, x);
    assert Ended(p) == (Ended(p) + x)[..|Ended(p)|] == Ended(q);
    assert x == (Ended(p) + x)[|Ended(p)|..] == y;
    if p != [] && q != [] {
      var n, m := |p| - 1, |q| - 1;
      var e := Ended(p);
      assert Ended(p[..n]) + p[n] == e[..|e| - 1] == Ended(q[..m]) + q[m];
      EndedOnce(p[..n], p[n], q[..m], q[m]);
      assert p == p[..n] + [p[n]] && q == q[..m] + [q[m]];
    }
  }

  lemma RestNoLonger(p: seq<Line>, x: Line, q: seq<Line>, y: Line)
    requires NL !in x && NL !in y && Ended(p) + x == Ended(q) + y
    ensures |y| <= |x|
  {
    var e, all := Ended(p), Ended(q) + y;
    assert forall i | |Ended(q)| <= i < |all| :: all[i] == y[i - |Ended(q)|] && all[i] in y;
    if p != [] {
      assert all[|e| - 1] == e[|e| - 1] == NL;
    }
  }

  // ── Where the answers part ─────────────────────────────────────────

  /** Blanks behind the last newline: the quick answer overlooks them under -w, the long one
      counts one line more. */
  lemma QuickOverlooksALine(o: Options)
    requires o.iwhite
    ensures var da, db := [97, NL, 32], [97, NL];
      Normal(o, da) == Normal(o, db) && Unended(da) != Unended(db)
  {
    assert Normal(o, [32]) == Normal(o, []);
    NormalOfNewline(o, [32]);
    NormalOfNewline(o, []);
    NormalSplits(o, [97], [NL] + [32]);
    NormalSplits(o, [97], [NL] + []);
    assert [97] + ([NL] + [32]) == [97, NL, 32] && [97] + ([NL] + []) == [97, NL];
  }

  /** A text is taken for the same as a binary file that has a NUL wherever it has a
      newline; but for that, binary files are told apart exactly. */
  lemma BinaryAnswer(da: seq<bv8>, db: seq<bv8>)
    requires 0 in da || 0 in db
    ensures (Held(da) == Held(db) <==> da == db) <==> !TakenFor(da, db) && !TakenFor(db, da)
  {
  }

  /** A text, and a binary file that is the same but for NULs in place of its newlines. */
  predicate TakenFor(text: seq<bv8>, binary: seq<bv8>) {
    0 !in text && 0 in binary && binary == Blanked(text)
  }

  lemma TextTakenForBinary()
    ensures TakenFor([97, NL], [97, 0])
  {
    assert Blanked([97, NL]) == [97, 0];
  }
}
