/** Unified output: how blocks are printed as hunks, and what a patch program
    makes of them. */
module Unified {
  import opened Optional
  import opened EditScript
  import opened DiffLines
  import opened UnifiedView

  /** The number a range is printed with: its first line, or the line before it when it is empty. */
  function PrintedStart(start: int, count: int): int { if count == 0 then start else start + 1 }

  // ── Patching ───────────────────────────────────────────────────────

  /** Where a patch program stands: `pos` lines of the old file are used up, `built`
      is the new file so far, and the open hunk still owes so many old and new lines. */
  datatype Patching = Patching(pos: int, built: seq<Line>, aOwed: int, bOwed: int)
  /** One token. A header must not come before the previous hunk is complete, must
      lie further on in the old file, and must agree with how much has been built. A
      context or removed line must be the very line the old file has there. */
  function Patch1(base: seq<Line>, st: Patching, t: Token): Option<Patching> {
    match t
    case Header(al, ac, bl, bc) =>
      var start := if ac == 0 then al else al - 1;
      var bstart := if bc == 0 then bl else bl - 1;
      if st.aOwed == 0 && st.bOwed == 0 && st.pos <= start && 0 <= st.pos && start <= |base|
         && bstart == |st.built| + start - st.pos
      then Some(Patching(start, st.built + base[st.pos..start], ac, bc))
      else None
    case Tagged(tag, text) =>
      if tag.Added? then
        if 0 < st.bOwed then Some(st.(built := st.built + [text], bOwed := st.bOwed - 1)) else None
      else if 0 < st.aOwed && 0 <= st.pos < |base| && base[st.pos] == text then
        if tag.Removed? then Some(st.(pos := st.pos + 1, aOwed := st.aOwed - 1))
        else if 0 < st.bOwed then
          Some(Patching(st.pos + 1, st.built + [text], st.aOwed - 1, st.bOwed - 1))
        else None
      else None
    case NoFinalNewline => Some(st)
  }

  /** A patch program over all tokens; None as soon as one does not fit. */
  function PatchAll(base: seq<Line>, out: seq<Token>): Option<Patching> {
    if out == [] then Some(Patching(0, [], 0, 0))
    else
      match PatchAll(base, out[..|out| - 1])
      case None => None
      case Some(st) => Patch1(base, st, out[|out| - 1])
  }

  /** The patched file: what was built, then the rest of the old one. */
  function Patched(base: seq<Line>, out: seq<Token>): Option<seq<Line>> {
    match PatchAll(base, out)
    case None => None
    case Some(st) =>
      if st.aOwed == 0 && st.bOwed == 0 && 0 <= st.pos <= |base| then Some(st.built + base[st.pos..]) else None
  }

  /** How many lines the output marks as removed or added. */
  function Marked(out: seq<Token>): nat {
    if out == [] then 0
    else
      var t := out[|out| - 1];
      Marked(out[..|out| - 1]) + if t.Tagged? && !t.tag.Context? then 1 else 0
  }

  lemma Emit1(base: seq<Line>, out: seq<Token>, t: Token)
    ensures Marked(out + [t]) == Marked(out) + if t.Tagged? && !t.tag.Context? then 1 else 0
    ensures PatchAll(base, out + [t]) ==
      match PatchAll(base, out) case None => None case Some(st) => Patch1(base, st, t)
  {
    assert (out + [t])[..|out|] == out;
  }

  /** Line by line the same file: each line is the very line of the second file,
      or a line of the first that compares equal to it. */
  ghost predicate SameFile(eq: Rel, fa: seq<Line>, fb: seq<Line>, built: seq<Line>) {
    && |built| <= |fb|
    && forall j | 0 <= j < |built| ::
         built[j] == fb[j] || exists i | 0 <= i < |fa| :: eq(i, j) && built[j] == fa[i]
  }

  /** A patch program has taken `out` up to line `ax` of the first file and line `bx`
      of the second, and the open hunk still owes `ao` old and `bo` new lines. */
  ghost predicate Standing(eq: Rel, fa: seq<Line>, fb: seq<Line>, out: seq<Token>, ax: int, bx: int, ao: int, bo: int) {
    var p := PatchAll(fa, out);
    && p.Some? && p.value.pos == ax && |p.value.built| == bx && p.value.aOwed == ao && p.value.bOwed == bo
    && 0 <= ax <= |fa| && SameFile(eq, fa, fb, p.value.built)
  }

  /** What a patch program makes of the output and what is seen of it agree on where both files stand. */
  lemma {:induction false} PatchSeen(base: seq<Line>, out: seq<Token>)
    requires PatchAll(base, out).Some?
    ensures Viewed(out).at == PatchAll(base, out).value.pos && Viewed(out).bAt == |PatchAll(base, out).value.built|
    decreases |out|
  {
    if out != [] { PatchSeen(base, out[..|out| - 1]); }
  }

  lemma Begun(eq: Rel, fa: seq<Line>, fb: seq<Line>)
    ensures Standing(eq, fa, fb, [], 0, 0, 0, 0) && Marked([]) == 0
  {
  }

  lemma TakeRemark(eq: Rel, fa: seq<Line>, fb: seq<Line>, out: seq<Token>, ax: int, bx: int, ao: int, bo: int)
    requires Standing(eq, fa, fb, out, ax, bx, ao, bo)
    ensures Standing(eq, fa, fb, out + [NoFinalNewline], ax, bx, ao, bo) &&
      Marked(out + [NoFinalNewline]) == Marked(out)
  {
    Emit1(fa, out, NoFinalNewline);
  }

  /** A tagged line is taken when the right line of the right file is printed and the hunk owes it. */
  lemma TakeLine(eq: Rel, fa: seq<Line>, fb: seq<Line>, out: seq<Token>, tag: Tag, ax: int, bx: int, ao: int, bo: int)
    requires Standing(eq, fa, fb, out, ax, bx, ao, bo)
    requires !tag.Added? ==> ax < |fa| && 0 < ao
    requires !tag.Removed? ==> bx < |fb| && 0 < bo
    requires tag.Context? ==> eq(ax, bx)
    ensures var t := Tagged(tag, if tag.Added? then fb[bx] else fa[ax]);
      var da, db := if tag.Added? then 0 else 1, if tag.Removed? then 0 else 1;
      && Standing(eq, fa, fb, out + [t], ax + da, bx + db, ao - da, bo - db)
      && Marked(out + [t]) == Marked(out) + if tag.Context? then 0 else 1
  {
    Emit1(fa, out, Tagged(tag, if tag.Added? then fb[bx] else fa[ax]));
  }

  /** A header `skip` equal lines further on is taken between hunks. */
  lemma TakeHeader(eq: Rel, fa: seq<Line>, fb: seq<Line>, out: seq<Token>, ax: int, bx: int, skip: nat, ac: int,
                   bc: int)
    requires Standing(eq, fa, fb, out, ax, bx, 0, 0) && Matched(eq, ax, bx, skip)
    requires ax + skip <= |fa| && bx + skip <= |fb|
    ensures var t := Header(PrintedStart(ax + skip, ac), ac, PrintedStart(bx + skip, bc), bc);
      Standing(eq, fa, fb, out + [t], ax + skip, bx + skip, ac, bc) && Marked(out + [t]) == Marked(out)
  {
    Emit1(fa, out, Header(PrintedStart(ax + skip, ac), ac, PrintedStart(bx + skip, bc), bc));
    SkippedLines(eq, fa, fb, PatchAll(fa, out).value.built, ax, skip);
  }

  lemma SkippedLines(eq: Rel, fa: seq<Line>, fb: seq<Line>, built: seq<Line>, ax: int, skip: nat)
    requires SameFile(eq, fa, fb, built) && Matched(eq, ax, |built|, skip)
    requires 0 <= ax && ax + skip <= |fa| && |built| + skip <= |fb|
    ensures SameFile(eq, fa, fb, built + fa[ax..ax + skip])
  {
    var r := built + fa[ax..ax + skip];
    forall j | 0 <= j < |r|
      ensures r[j] == fb[j] || exists i | 0 <= i < |fa| :: eq(i, j) && r[j] == fa[i]
    {
      if j < |built| {
        assert r[j] == built[j];
      } else {
        var i := ax + j - |built|;
        assert eq(i, j) && r[j] == fa[i];
      }
    }
  }

  /** When no block is left, the rest of the old file completes the new one. */
  lemma Finished(eq: Rel, fa: seq<Line>, fb: seq<Line>, out: seq<Token>, ax: int, bx: int)
    requires Standing(eq, fa, fb, out, ax, bx, 0, 0) && Lays(eq, [], ax, bx, |fa|, |fb|)
    ensures IsPatch(eq, fa, fb, out)
  {
    SkippedLines(eq, fa, fb, PatchAll(fa, out).value.built, ax, |fa| - ax);
  }

  /** Applying the output to the first file gives the second one, line by line. */
  ghost predicate IsPatch(eq: Rel, fa: seq<Line>, fb: seq<Line>, out: seq<Token>) {
    var c := Patched(fa, out);
    c.Some? && |c.value| == |fb| && SameFile(eq, fa, fb, c.value)
  }

  // ── Printing ───────────────────────────────────────────────────────

  method PutLine(out: seq<Token>, tag: Tag, f: File, i: nat) returns (r: seq<Token>)
    requires i < |f.line|
    ensures r == out + [Tagged(tag, f.line[i])] || r == out + [Tagged(tag, f.line[i])] + [NoFinalNewline]
    ensures |r| == |out| + 2 <==> i == |f.line| - 1 && f.noFinalNl
  {
    r := out + [Tagged(tag, f.line[i])];
    if i == |f.line| - 1 && f.noFinalNl {
      r := r + [NoFinalNewline];
    }
  }

  /** `PutLine` in front of a patch program. */
  method Put(ghost eq: Rel, fa: File, fb: File, out: seq<Token>, tag: Tag, ax: nat, bx: nat, ghost ao: int,
             ghost bo: int)
    returns (r: seq<Token>)
    requires Standing(eq, fa.line, fb.line, out, ax, bx, ao, bo)
    requires !tag.Added? ==> ax < |fa.line| && 0 < ao
    requires !tag.Removed? ==> bx < |fb.line| && 0 < bo
    requires tag.Context? ==> eq(ax, bx)
    requires Neat(fa, fb, out)
    ensures var da, db := if tag.Added? then 0 else 1, if tag.Removed? then 0 else 1;
      && Standing(eq, fa.line, fb.line, r, ax + da, bx + db, ao - da, bo - db)
      && Marked(r) == Marked(out) + if tag.Context? then 0 else 1
    ensures Neat(fa, fb, r) && Viewed(r) == View1(Viewed(out), Tagged(tag, [])) && Viewed(out).at == ax
  {
    hide Standing, Marked, Viewed, Neat;
    StandingSeen(eq, fa.line, fb.line, out, ax, bx, ao, bo);
    TakeLine(eq, fa.line, fb.line, out, tag, ax, bx, ao, bo);
    r := PutLine(out, tag, if tag.Added? then fb else fa, if tag.Added? then bx else ax);
    var da, db := if tag.Added? then 0 else 1, if tag.Removed? then 0 else 1;
    var t := Tagged(tag, if tag.Added? then fb.line[bx] else fa.line[ax]);
    TakeRemark(eq, fa.line, fb.line, out + [t], ax + da, bx + db, ao - da, bo - db);
    NeatMore(fa, fb, out, t);
    View1More(out, t);
    View1More(out + [t], NoFinalNewline);
  }

  lemma StandingSeen(eq: Rel, fa: seq<Line>, fb: seq<Line>, out: seq<Token>, ax: int, bx: int, ao: int, bo: int)
    requires Standing(eq, fa, fb, out, ax, bx, ao, bo)
    ensures Viewed(out).at == ax && Viewed(out).bAt == bx
  {
    PatchSeen(fa, out);
  }

  /** Later blocks end no earlier, in both files, and all of them end inside. */
  lemma {:induction false} LaysOrdered(eq: Rel, bl: seq<Block>, a: int, b: int, c: int, d: int, k: nat)
    requires Lays(eq, bl, a, b, c, d) && k < |bl|
    ensures a <= bl[k].a0 && b <= bl[k].b0 && 0 <= bl[k].alen && 0 <= bl[k].blen
    ensures bl[k].AEnd() <= c && bl[k].BEnd() <= d
    ensures Lays(eq, bl[k + 1..], bl[k].AEnd(), bl[k].BEnd(), c, d)
  {
    if k > 0 {
      LaysOrdered(eq, bl[1..], bl[0].AEnd(), bl[0].BEnd(), c, d, k - 1);
      assert bl[1..][k..] == bl[k + 1..];
    } else {
      LaysEnds(eq, bl[1..], bl[0].AEnd(), bl[0].BEnd(), c, d);
    }
  }

  lemma {:induction false} LaysEnds(eq: Rel, bl: seq<Block>, a: int, b: int, c: int, d: int)
    requires Lays(eq, bl, a, b, c, d)
    ensures a <= c && b <= d
  {
    if bl != [] {
      LaysEnds(eq, bl[1..], bl[0].AEnd(), bl[0].BEnd(), c, d);
    }
  }

  /** The blocks still lay out the rest after some of the equal lines in front of them. */
  lemma LaysLater(eq: Rel, bl: seq<Block>, count: nat, a: int, b: int, c: int, d: int)
    requires Lays(eq, bl, a, b, c, d) && a + count <= if bl == [] then c else bl[0].a0
    ensures Lays(eq, bl, a + count, b + count, c, d) && Matched(eq, a, b, count)
  {
  }

  lemma {:induction false} ChangedConcat(x: seq<Block>, y: seq<Block>)
    ensures Changed(x + y) == Changed(x) + Changed(y) && Changed([]) == 0
  {
    if x == [] {
      assert x + y == y;
    } else {
      ChangedConcat(x[1..], y);
      assert (x + y)[1..] == x[1..] + y;
    }
  }

  /** The equal lines from `from` up to line `upto` of the first file. */
  method PutContext(ghost eq: Rel, fa: File, fb: File, before: seq<Token>, from: nat, bFrom: nat, upto: nat,
                    ghost ao: int, ghost bo: int) returns (out: seq<Token>)
    requires Standing(eq, fa.line, fb.line, before, from, bFrom, ao, bo)
    requires from <= upto <= |fa.line| && bFrom + upto - from <= |fb.line| && upto - from <= ao && upto - from <= bo
    requires Matched(eq, from, bFrom, upto - from) && Neat(fa, fb, before)
    ensures Standing(eq, fa.line, fb.line, out, upto, bFrom + upto - from, ao - (upto - from), bo - (upto - from))
    ensures Marked(out) == Marked(before)
    ensures Neat(fa, fb, out) && Viewed(out) == WithContext(Viewed(before), upto - from)
  {
    hide Standing, Marked, Viewed, Neat;
    out := before;
    StandingSeen(eq, fa.line, fb.line, before, from, bFrom, ao, bo);
    NoContext(Viewed(before));
    var ax, bx := from, bFrom;
    while ax < upto
      invariant Neat(fa, fb, out) && Viewed(out) == WithContext(Viewed(before), ax - from)
      invariant from <= ax <= upto && bx == bFrom + ax - from && Marked(out) == Marked(before)
      invariant Standing(eq, fa.line, fb.line, out, ax, bx, ao - (ax - from), bo - (ax - from))
    {
      assert eq(ax, bx);
      MoreContext(Viewed(before), ax - from);
      out := Put(eq, fa, fb, out, Context, ax, bx, ao - (ax - from), bo - (ax - from));
      ax, bx := ax + 1, bx + 1;
    }
  }

  /** `count` removed or added lines from `ax` or `bx`. */
  method PutChange(ghost eq: Rel, fa: File, fb: File, before: seq<Token>, tag: Tag, ax: nat, bx: nat, count: nat,
                   ghost ao: int, ghost bo: int) returns (out: seq<Token>)
    requires Standing(eq, fa.line, fb.line, before, ax, bx, ao, bo)
    requires tag.Removed? ==> ax + count <= |fa.line| && count <= ao
    requires tag.Added? ==> bx + count <= |fb.line| && count <= bo
    requires !tag.Context? && Neat(fa, fb, before)
    ensures tag.Removed? ==> Standing(eq, fa.line, fb.line, out, ax + count, bx, ao - count, bo)
    ensures tag.Added? ==> Standing(eq, fa.line, fb.line, out, ax, bx + count, ao, bo - count)
    ensures Marked(out) == Marked(before) + count && Neat(fa, fb, out)
    ensures Viewed(out) == WithChange(Viewed(before), tag, count)
  {
    hide Standing, Marked, Viewed, Neat, WithChange;
    out := before;
    NoChange(Viewed(before), tag);
    for t := 0 to count
      invariant Neat(fa, fb, out) && Viewed(out) == WithChange(Viewed(before), tag, t)
      invariant tag.Removed? ==> Standing(eq, fa.line, fb.line, out, ax + t, bx, ao - t, bo)
      invariant tag.Added? ==> Standing(eq, fa.line, fb.line, out, ax, bx + t, ao, bo - t)
      invariant Marked(out) == Marked(before) + t
    {
      MoreChange(Viewed(before), tag, t);
      if tag.Removed? {
        out := Put(eq, fa, fb, out, tag, ax + t, bx, ao - t, bo);
      } else {
        out := Put(eq, fa, fb, out, tag, ax, bx + t, ao, bo - t);
      }
    }
  }

  /** The equal lines in front of a block, the lines it removes, the lines it adds. */
  method PutBlock(ghost eq: Rel, fa: File, fb: File, before: seq<Token>, x: Block, ghost later: seq<Block>,
                  ax: nat, bx: nat, ghost ae: int, ghost be: int) returns (out: seq<Token>)
    requires Standing(eq, fa.line, fb.line, before, ax, bx, ae - ax, be - bx)
    requires Lays(eq, [x] + later, ax, bx, |fa.line|, |fb.line|) && x.AEnd() <= ae && x.BEnd() <= be
    requires Neat(fa, fb, before)
    ensures Neat(fa, fb, out) && Viewed(out) == WithBlock(Viewed(before), x)
    ensures Standing(eq, fa.line, fb.line, out, x.AEnd(), x.BEnd(), ae - x.AEnd(), be - x.BEnd())
    ensures Marked(out) == Marked(before) + Changed([x])
    ensures Lays(eq, later, x.AEnd(), x.BEnd(), |fa.line|, |fb.line|) && 0 <= x.AEnd() && 0 <= x.BEnd()
  {
    hide Standing, Marked, Viewed, Neat, WithContext, WithRemoved, WithAdded;
    assert ([x] + later)[1..] == later;
    StandingSeen(eq, fa.line, fb.line, before, ax, bx, ae - ax, be - bx);
    LaysEnds(eq, later, x.AEnd(), x.BEnd(), |fa.line|, |fb.line|);
    out := PutContext(eq, fa, fb, before, ax, bx, x.a0, ae - ax, be - bx);
    out := PutChange(eq, fa, fb, out, Removed, x.a0, x.b0, x.alen, ae - x.a0, be - x.b0);
    out := PutChange(eq, fa, fb, out, Added, x.AEnd(), x.b0, x.blen, ae - x.AEnd(), be - x.b0);
  }

  /** Blocks `i` to `j` with the equal lines between them. */
  method PutBlocks(ghost eq: Rel, fa: File, fb: File, before: seq<Token>, bl: seq<Block>, i: nat, j: nat,
                   aFrom: nat, bFrom: nat, ghost ae: int, ghost be: int) returns (out: seq<Token>)
    requires i <= j < |bl| && bl[j].AEnd() <= ae && bl[j].BEnd() <= be
    requires Standing(eq, fa.line, fb.line, before, aFrom, bFrom, ae - aFrom, be - bFrom)
    requires Lays(eq, bl[i..], aFrom, bFrom, |fa.line|, |fb.line|) && Neat(fa, fb, before)
    ensures Neat(fa, fb, out) && Viewed(out) == WithBlocks(Viewed(before), bl[i..j + 1])
    ensures 0 <= bl[j].AEnd() && 0 <= bl[j].BEnd()
    ensures Standing(eq, fa.line, fb.line, out, bl[j].AEnd(), bl[j].BEnd(), ae - bl[j].AEnd(), be - bl[j].BEnd())
    ensures Lays(eq, bl[j + 1..], bl[j].AEnd(), bl[j].BEnd(), |fa.line|, |fb.line|)
    ensures Marked(out) == Marked(before) + Changed(bl[i..j + 1])
  {
    hide Standing, Marked, Lays, Changed, Matched, Viewed, Neat, WithBlocks, WithBlock;
    out := before;
    var ax, bx := aFrom, bFrom;
    var k := i;
    ChangedNone(bl, i);
    NoBlocks(Viewed(before), bl, i);
    while k <= j
      invariant Neat(fa, fb, out) && k <= |bl| && Viewed(out) == WithBlocks(Viewed(before), bl[i..k])
      invariant i <= k <= j + 1 && 0 <= ax && 0 <= bx
      invariant k == j + 1 ==> ax == bl[j].AEnd() && bx == bl[j].BEnd()
      invariant Standing(eq, fa.line, fb.line, out, ax, bx, ae - ax, be - bx)
      invariant Lays(eq, bl[k..], ax, bx, |fa.line|, |fb.line|)
      invariant Marked(out) == Marked(before) + Changed(bl[i..k])
    {
      LaysEndsBy(eq, bl, k, j, ax, bx, |fa.line|, |fb.line|);
      var x := bl[k];
      FirstOf(bl, k);
      out := PutBlock(eq, fa, fb, out, x, bl[k + 1..], ax, bx, ae, be);
      ax, bx := x.AEnd(), x.BEnd();
      ChangedOn(bl, i, k);
      MoreBlocks(Viewed(before), bl, i, k);
      k := k + 1;
    }
  }

  lemma FirstOf(bl: seq<Block>, k: nat)
    requires k < |bl|
    ensures bl[k..] == [bl[k]] + bl[k + 1..]
  {
  }

  lemma ChangedNone(bl: seq<Block>, i: nat)
    requires i <= |bl|
    ensures Changed(bl[i..i]) == 0
  {
  }

  lemma ChangedOn(bl: seq<Block>, i: nat, k: nat)
    requires i <= k < |bl|
    ensures Changed(bl[i..k + 1]) == Changed(bl[i..k]) + Changed([bl[k]])
  {
    assert bl[i..k + 1] == bl[i..k] + [bl[k]];
    ChangedConcat(bl[i..k], [bl[k]]);
  }

  /** The hunk of blocks `i` to `j`, with at most `ctx` lines of context around them.
      A patch program that stands anywhere before it stands after it at the end. */
  method PutHunk(ghost eq: Rel, fa: File, fb: File, before: seq<Token>, bl: seq<Block>, i: nat, j: nat, ctx: nat,
                 ghost a: int, ghost b: int) returns (out: seq<Token>, ghost a': int, ghost b': int)
    requires i <= j < |bl|
    requires Standing(eq, fa.line, fb.line, before, a, b, 0, 0)
    requires Lays(eq, bl[i..], a, b, |fa.line|, |fb.line|) && 0 <= a && 0 <= b && (a == b == 0 || a + ctx <= bl[i].a0)
    requires j + 1 < |bl| ==> bl[j].AEnd() + ctx <= bl[j + 1].a0
    requires Neat(fa, fb, before) && Spaced(bl) && Close(bl[i..j + 1], ctx)
    requires SoFar(Viewed(before), ctx, |fa.line|, if i == 0 then 0 else bl[i - 1].AEnd())
    requires if i == 0 then Viewed(before) == NOTHING else bl[i - 1].AEnd() + 2 * ctx < bl[i].a0
    ensures Neat(fa, fb, out) && SoFar(Viewed(out), ctx, |fa.line|, bl[j].AEnd())
    ensures Standing(eq, fa.line, fb.line, out, a', b', 0, 0) && 0 <= a' && 0 <= b'
    ensures Lays(eq, bl[j + 1..], a', b', |fa.line|, |fb.line|) && a' <= bl[j].AEnd() + ctx
    ensures Marked(out) == Marked(before) + Changed(bl[i..j + 1])
  {
    hide Standing, Marked, Lays, Changed, Matched, Neat, Viewed, SoFar, Close, WithHunk, InOrder, Spaced;
    ghost var nA, nB := |fa.line|, |fb.line|;
    LaysOrdered(eq, bl[i..], a, b, nA, nB, j - i);
    LaysEndsBy(eq, bl, i, j, a, b, nA, nB);

    var a0, b0, aEnd, bEnd := bl[i].a0, bl[i].b0, bl[j].AEnd(), bl[j].BEnd();
    var pre: int := ctx;
    if pre > a0 { pre := a0; }
    if pre > b0 { pre := b0; }
    var post: int := ctx;
    if post > |fa.line| - aEnd { post := |fa.line| - aEnd; }
    if post > |fb.line| - bEnd { post := |fb.line| - bEnd; }

    LaysBehind(eq, bl[j + 1..], aEnd, bEnd, nA, nB);
    out := PutParts(eq, fa, fb, before, bl, i, j, pre, post, a, b);
    a', b' := aEnd + post, bEnd + post;
    GroupInOrder(eq, bl, i, j, a, b, nA, nB);
    HunkSeen(Viewed(before), ctx, nA, if i == 0 then 0 else bl[i - 1].AEnd(), bl[i..j + 1], a0 - pre, b0 - pre, post);
  }

  /** Behind the last block both files go on for as long. */
  lemma LaysBehind(eq: Rel, bl: seq<Block>, a: int, b: int, c: int, d: int)
    requires Lays(eq, bl, a, b, c, d)
    ensures bl == [] ==> c - a == d - b
    ensures bl != [] ==> bl[0].a0 - a == bl[0].b0 - b && bl[0].a0 <= c && bl[0].b0 <= d
  {
    if bl != [] { LaysOrdered(eq, bl, a, b, c, d, 0); }
  }

  /** The header of a hunk, its blocks with `pre` lines in front, and `post` lines behind them. */
  method PutParts(ghost eq: Rel, fa: File, fb: File, before: seq<Token>, bl: seq<Block>, i: nat, j: nat, pre: nat,
                  post: nat, ghost a: int, ghost b: int) returns (out: seq<Token>)
    requires i <= j < |bl| && Neat(fa, fb, before) && 0 <= a && 0 <= b
    requires Standing(eq, fa.line, fb.line, before, a, b, 0, 0) && Lays(eq, bl[i..], a, b, |fa.line|, |fb.line|)
    requires a + pre <= bl[i].a0 && bl[j].AEnd() + post <= |fa.line| && bl[j].BEnd() + post <= |fb.line|
    requires j + 1 < |bl| ==> bl[j].AEnd() + post <= bl[j + 1].a0
    ensures Standing(eq, fa.line, fb.line, out, bl[j].AEnd() + post, bl[j].BEnd() + post, 0, 0)
    ensures Lays(eq, bl[j + 1..], bl[j].AEnd() + post, bl[j].BEnd() + post, |fa.line|, |fb.line|)
    ensures Marked(out) == Marked(before) + Changed(bl[i..j + 1]) && Neat(fa, fb, out)
    ensures Viewed(out) == WithHunk(Viewed(before), bl[i..j + 1], bl[i].a0 - pre, bl[i].b0 - pre, post)
    ensures 0 <= bl[j].AEnd() && 0 <= bl[j].BEnd()
  {
    hide Standing, Marked, Lays, Changed, Matched, PrintedStart, Neat, Viewed, WithBlocks, WithContext;
    ghost var nA, nB := |fa.line|, |fb.line|;
    LaysEndsBy(eq, bl, i, j, a, b, nA, nB);
    var aFrom, ae := bl[i].a0 - pre, bl[j].AEnd() + post;
    var bFrom, be := bl[i].b0 - pre, bl[j].BEnd() + post;

    ghost var skip := aFrom - a;
    LaysLater(eq, bl[i..], skip, a, b, nA, nB);
    TakeHeader(eq, fa.line, fb.line, before, a, b, skip, ae - aFrom, be - bFrom);
    out := before + [Header(PrintedStart(aFrom, ae - aFrom), ae - aFrom, PrintedStart(bFrom, be - bFrom), be - bFrom)];
    HeaderSeen(fa, fb, before, aFrom, ae - aFrom, bFrom, be - bFrom);

    out := PutBlocks(eq, fa, fb, out, bl, i, j, aFrom, bFrom, ae, be);
    var ax, bx := bl[j].AEnd(), bl[j].BEnd();
    LaysLater(eq, bl[j + 1..], post, ax, bx, nA, nB);
    out := PutContext(eq, fa, fb, out, ax, bx, ae, ae - ax, be - bx);
  }

  lemma HeaderSeen(fa: File, fb: File, before: seq<Token>, aFrom: int, ac: int, bFrom: int, bc: int)
    requires Neat(fa, fb, before)
    ensures var t := Header(PrintedStart(aFrom, ac), ac, PrintedStart(bFrom, bc), bc);
      var v := Viewed(before);
      Neat(fa, fb, before + [t]) && Viewed(before + [t]) == v.(hunks := v.hunks + 1, at := aFrom, bAt := bFrom)
  {
    hide Viewed, Neat;
    var t := Header(PrintedStart(aFrom, ac), ac, PrintedStart(bFrom, bc), bc);
    NeatMore(fa, fb, before, t);
    View1More(before, t);
  }

  /** The blocks of one hunk, taken by themselves. */
  lemma GroupInOrder(eq: Rel, bl: seq<Block>, i: nat, j: nat, a: int, b: int, c: int, d: int)
    requires i <= j < |bl| && Spaced(bl) && Lays(eq, bl[i..], a, b, c, d)
    ensures var g := bl[i..j + 1];
      && g != [] && InOrder(g, g[0].a0) && g[0] == bl[i] && g[|g| - 1] == bl[j]
  {
    hide Lays;
    var g := bl[i..j + 1];
    forall k | 0 <= k < |g|
      ensures 0 <= g[k].alen && 0 <= g[k].blen && 0 < g[k].alen + g[k].blen && g[0].a0 <= g[k].a0
    {
      assert g[k] == bl[i..][k] && g[0] == bl[i..][0];
      LaysOrdered(eq, bl[i..], a, b, c, d, k);
      LaysEndsBy(eq, bl, i, i + k, a, b, c, d);
      FirstNoLater(eq, bl, i, i + k, a, b, c, d);
    }
  }

  lemma FirstNoLater(eq: Rel, bl: seq<Block>, i: nat, k: nat, a: int, b: int, c: int, d: int)
    requires i <= k < |bl| && Lays(eq, bl[i..], a, b, c, d)
    ensures bl[i].a0 <= bl[k].a0
  {
    LaysOrdered(eq, bl[i..], a, b, c, d, 0);
    if i < k {
      assert bl[i..][1..] == bl[i + 1..];
      LaysOrdered(eq, bl[i + 1..], bl[i].AEnd(), bl[i].BEnd(), c, d, k - i - 1);
    }
  }

  /** Block `k` of a hunk ends no later than its last block `j`. */
  lemma LaysEndsBy(eq: Rel, bl: seq<Block>, k: nat, j: nat, a: int, b: int, c: int, d: int)
    requires k <= j < |bl| && Lays(eq, bl[k..], a, b, c, d)
    ensures a <= bl[k].a0 <= bl[k].AEnd() <= bl[j].AEnd() <= c && bl[k].a0 - a == bl[k].b0 - b
    ensures b <= bl[k].b0 <= bl[k].BEnd() <= bl[j].BEnd() <= d
  {
    LaysOrdered(eq, bl[k..], a, b, c, d, j - k);
    LaysOrdered(eq, bl[k..], a, b, c, d, 0);
    if k < j {
      assert bl[k..][1..] == bl[k + 1..];
      LaysOrdered(eq, bl[k + 1..], bl[k].AEnd(), bl[k].BEnd(), c, d, j - k - 1);
    }
  }

  /** Prints all blocks. For every amount of context the output is a patch from the
      first file to the second, and it marks exactly the lines the blocks change. Around the
      changes exactly that much context is shown, and changes whose context meets share a hunk. */
  method Emit(ghost eq: Rel, fa: File, fb: File, bl: seq<Block>, ctx: nat) returns (out: seq<Token>)
    requires Lays(eq, bl, 0, 0, |fa.line|, |fb.line|) && Spaced(bl)
    ensures IsPatch(eq, fa.line, fb.line, out) && Marked(out) == Changed(bl)
    ensures InContext(out, ctx, |fa.line|) && Neat(fa, fb, out)
  {
    hide Standing, Marked, IsPatch, Lays, Changed, SoFar, Viewed, Close, Spaced;
    out := [];
    NothingYet(ctx, |fa.line|);
    Begun(eq, fa.line, fb.line);
    ChangedConcat([], []);
    assert bl[..0] == [] && bl[0..] == bl;
    ghost var a, b := 0, 0;
    var i := 0;
    while i < |bl|
      invariant 0 <= i <= |bl| && 0 <= a && 0 <= b
      invariant Standing(eq, fa.line, fb.line, out, a, b, 0, 0)
      invariant Lays(eq, bl[i..], a, b, |fa.line|, |fb.line|)
      invariant 0 < i < |bl| ==> a + ctx <= bl[i].a0
      invariant i == 0 ==> a == b == 0 && Viewed(out) == NOTHING
      invariant Marked(out) == Changed(bl[..i]) && Neat(fa, fb, out)
      invariant SoFar(Viewed(out), ctx, |fa.line|, if i == 0 then 0 else bl[i - 1].AEnd())
      invariant 0 < i < |bl| ==> bl[i - 1].AEnd() + 2 * ctx < bl[i].a0
    {
      var j := i;
      OneIsClose(bl, i, ctx);
      while j + 1 < |bl| && bl[j + 1].a0 - bl[j].AEnd() <= 2 * ctx
        invariant i <= j < |bl| && Close(bl[i..j + 1], ctx)
      {
        OneMoreClose(bl, i, j, ctx);
        j := j + 1;
      }
      out, a, b := PutHunk(eq, fa, fb, out, bl, i, j, ctx, a, b);
      assert bl[..j + 1] == bl[..i] + bl[i..j + 1];
      ChangedConcat(bl[..i], bl[i..j + 1]);
      i := j + 1;
    }
    assert bl[..i] == bl && bl[i..] == [];
    Finished(eq, fa.line, fb.line, out, a, b);
    AllSeen(out, ctx, |fa.line|, if i == 0 then 0 else bl[i - 1].AEnd());
  }

  lemma OneIsClose(bl: seq<Block>, i: nat, ctx: nat)
    requires i < |bl|
    ensures Close(bl[i..i + 1], ctx)
  {
  }

  lemma OneMoreClose(bl: seq<Block>, i: nat, j: nat, ctx: nat)
    requires i <= j && j + 1 < |bl| && Close(bl[i..j + 1], ctx) && bl[j + 1].a0 - bl[j].AEnd() <= 2 * ctx
    ensures Close(bl[i..j + 2], ctx)
  {
    var g, h := bl[i..j + 1], bl[i..j + 2];
    forall k | 0 < k < |h|
      ensures h[k].a0 - h[k - 1].AEnd() <= 2 * ctx
    {
      if k < |g| { assert h[k] == g[k] && h[k - 1] == g[k - 1]; }
    }
  }

  lemma AllSeen(out: seq<Token>, ctx: nat, n: int, aEnd: int)
    requires SoFar(Viewed(out), ctx, n, aEnd)
    ensures InContext(out, ctx, n)
  {
  }
}
