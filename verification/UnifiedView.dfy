/** What can be seen of unified output without patching anything: which lines of the first file
    stand in hunks, where the changes are, and which hunk each of them is in. */
module UnifiedView {
  import opened EditScript
  import opened DiffLines

  datatype Tag = Context | Removed | Added

  /** What is printed: hunk headers with their line numbers and counts, tagged
      lines, and the remark after a last line without a newline. */
  datatype Token =
    | Header(aLine: int, aCount: int, bLine: int, bCount: int)
    | Tagged(tag: Tag, text: Line)
    | NoFinalNewline

  /** A removed line stands between `lo` and `hi`, an added one at `lo`, which is `hi` then. */
  datatype Change = Change(lo: int, hi: int, hunk: int)

  /** The lines of the first file that stood in hunks so far, the changes, the number of hunks, and
      the lines of both files that come next. */
  datatype View = View(lines: seq<int>, changes: seq<Change>, hunks: int, at: int, bAt: int)

  const NOTHING := View([], [], 0, 0, 0)

  function View1(v: View, t: Token): View {
    match t
    case Header(al, ac, bl, bc) =>
      v.(hunks := v.hunks + 1, at := if ac == 0 then al else al - 1, bAt := if bc == 0 then bl else bl - 1)
    case Tagged(tag, _) =>
      var w := if tag.Added? then v else v.(lines := v.lines + [v.at], at := v.at + 1);
      var x := if tag.Removed? then w else w.(bAt := w.bAt + 1);
      if tag.Context? then x else x.(changes := x.changes + [Change(v.at, w.at, v.hunks)])
    case NoFinalNewline => v
  }

  function Viewed(out: seq<Token>): View {
    if out == [] then NOTHING else View1(Viewed(out[..|out| - 1]), out[|out| - 1])
  }

  lemma View1More(out: seq<Token>, t: Token)
    ensures Viewed(out + [t]) == View1(Viewed(out), t)
  {
    assert (out + [t])[..|out|] == out;
  }

  // ── What the output promises ───────────────────────────────────────

  /** Line `i` is no more than `ctx` lines away from a change. */
  ghost predicate Near(changes: seq<Change>, ctx: nat, i: int) {
    exists c | c in changes :: c.lo - ctx <= i < c.hi + ctx
  }

  /** Of the first `n` lines exactly those stand in hunks that are near a change. */
  ghost predicate ShowsNear(v: View, ctx: nat, n: int) {
    forall i | 0 <= i < n :: i in v.lines <==> Near(v.changes, ctx, i)
  }

  /** How one change may follow another: the two share a hunk exactly when no more than twice the
      context lies between them, and in one place what is removed comes before what is added. */
  predicate Follows(x: Change, y: Change, ctx: nat) {
    && (x.hunk == y.hunk <==> y.lo - x.hi <= 2 * ctx)
    && (x.hi == y.lo == y.hi - 1 ==> x.lo < x.hi)
  }

  ghost predicate InRow(changes: seq<Change>, ctx: nat) {
    forall k | 0 < k < |changes| :: Follows(changes[k - 1], changes[k], ctx)
  }

  /** The lines in hunks go up. */
  ghost predicate Rising(v: View) {
    && (forall k | 0 <= k < |v.lines| :: v.lines[k] < v.at)
    && forall j, k | 0 <= j < k < |v.lines| :: v.lines[j] < v.lines[k]
  }

  /** Exactly the lines around changes are shown, once and in order, and changes near each other share a hunk. */
  ghost predicate InContext(out: seq<Token>, ctx: nat, n: int) {
    var v := Viewed(out);
    ShowsNear(v, ctx, n) && Rising(v) && InRow(v.changes, ctx)
  }

  // ── The remark about a missing newline ─────────────────────────────

  /** The last token is the last line of its file, and no newline ends that file. */
  predicate CallsForRemark(fa: File, fb: File, out: seq<Token>) {
    out != [] &&
    var v, t := Viewed(out[..|out| - 1]), out[|out| - 1];
    t.Tagged? && if t.tag.Added? then v.bAt == |fb.line| - 1 && fb.noFinalNl else v.at == |fa.line| - 1 && fa.noFinalNl
  }

  /** A remark stands behind each line that calls for one, and nowhere else. */
  predicate Remarked(fa: File, fb: File, out: seq<Token>) {
    out == [] ||
    (var before := out[..|out| - 1];
     Remarked(fa, fb, before) && (out[|out| - 1].NoFinalNewline? <==> CallsForRemark(fa, fb, before)))
  }

  predicate Neat(fa: File, fb: File, out: seq<Token>) { Remarked(fa, fb, out) && !CallsForRemark(fa, fb, out) }

  lemma NeatMore(fa: File, fb: File, out: seq<Token>, t: Token)
    requires Neat(fa, fb, out) && !t.NoFinalNewline?
    ensures var v := Viewed(out);
      var last := t.Tagged? && if t.tag.Added? then v.bAt == |fb.line| - 1 && fb.noFinalNl
                               else v.at == |fa.line| - 1 && fa.noFinalNl;
      if last then Neat(fa, fb, out + [t] + [NoFinalNewline]) else Neat(fa, fb, out + [t])
  {
    hide Viewed;
    var a := out + [t];
    assert a[..|out|] == out;
    assert Remarked(fa, fb, a);
    var b := a + [NoFinalNewline];
    assert b[..|a|] == a;
  }

  // ── What blocks look like ──────────────────────────────────────────

  function Range(from: int, upto: int): (r: seq<int>)
    ensures from <= upto ==> |r| == upto - from && forall k | 0 <= k < |r| :: r[k] == from + k
    ensures forall i :: i in r <==> from <= i < upto
    decreases upto - from
  {
    if from >= upto then [] else
      var r := Range(from, upto - 1) + [upto - 1];
      assert forall i | i in r :: i in Range(from, upto - 1) || i == upto - 1;
      assert forall i | from <= i < upto - 1 :: i in Range(from, upto - 1) && i in r;
      assert upto - 1 == r[|r| - 1];
      r
  }

  function WithContext(v: View, count: int): View {
    v.(lines := v.lines + Range(v.at, v.at + count), at := v.at + count, bAt := v.bAt + count)
  }

  function RemovedAt(a: int, count: int, hunk: int): (r: seq<Change>)
    ensures count >= 0 ==> |r| == count
    ensures forall k | 0 <= k < |r| :: r[k] == Change(a + k, a + k + 1, hunk)
    decreases count
  {
    if count <= 0 then [] else RemovedAt(a, count - 1, hunk) + [Change(a + count - 1, a + count, hunk)]
  }

  function AddedAt(a: int, count: int, hunk: int): (r: seq<Change>)
    ensures count >= 0 ==> |r| == count
    ensures forall k | 0 <= k < |r| :: r[k] == Change(a, a, hunk)
    decreases count
  {
    if count <= 0 then [] else AddedAt(a, count - 1, hunk) + [Change(a, a, hunk)]
  }

  function WithRemoved(v: View, count: int): View {
    v.(lines := v.lines + Range(v.at, v.at + count), changes := v.changes + RemovedAt(v.at, count, v.hunks),
       at := v.at + count)
  }

  function WithAdded(v: View, count: int): View {
    v.(changes := v.changes + AddedAt(v.at, count, v.hunks), bAt := v.bAt + count)
  }

  function WithChange(v: View, tag: Tag, count: int): View {
    if tag.Removed? then WithRemoved(v, count) else WithAdded(v, count)
  }

  function WithBlock(v: View, x: Block): View {
    WithAdded(WithRemoved(WithContext(v, x.a0 - v.at), x.alen), x.blen)
  }

  function WithBlocks(v: View, bl: seq<Block>): View {
    if bl == [] then v else WithBlock(WithBlocks(v, bl[..|bl| - 1]), bl[|bl| - 1])
  }

  /** A hunk of these blocks that starts at line `aFrom` and goes on for `post` lines behind them. */
  function WithHunk(v: View, bl: seq<Block>, aFrom: int, bFrom: int, post: int): View {
    WithContext(WithBlocks(v.(hunks := v.hunks + 1, at := aFrom, bAt := bFrom), bl), post)
  }

  lemma NoContext(v: View)
    ensures WithContext(v, 0) == v
  {
  }

  lemma MoreContext(v: View, k: nat)
    ensures WithContext(v, k + 1) == View1(WithContext(v, k), Tagged(Context, []))
  {
    assert Range(v.at, v.at + k + 1) == Range(v.at, v.at + k) + [v.at + k];
  }

  lemma NoChange(v: View, tag: Tag)
    ensures WithChange(v, tag, 0) == v
  {
  }

  lemma MoreChange(v: View, tag: Tag, k: nat)
    requires !tag.Context?
    ensures WithChange(v, tag, k + 1) == View1(WithChange(v, tag, k), Tagged(tag, []))
  {
    assert Range(v.at, v.at + k + 1) == Range(v.at, v.at + k) + [v.at + k];
  }

  lemma NoBlocks(v: View, bl: seq<Block>, i: nat)
    requires i <= |bl|
    ensures WithBlocks(v, bl[i..i]) == v
  {
  }

  lemma MoreBlocks(v: View, bl: seq<Block>, i: nat, k: nat)
    requires i <= k < |bl|
    ensures WithBlocks(v, bl[i..k + 1]) == WithBlock(WithBlocks(v, bl[i..k]), bl[k])
  {
    hide WithBlock;
    assert bl[i..k + 1] == bl[i..k] + [bl[k]] && bl[i..k + 1][..k - i] == bl[i..k];
  }

  function ChangesOf(bl: seq<Block>, hunk: int): seq<Change> {
    if bl == [] then [] else ChangesOf(bl[..|bl| - 1], hunk) + BlockChanges(bl[|bl| - 1], hunk)
  }

  function BlockChanges(x: Block, hunk: int): seq<Change> {
    RemovedAt(x.a0, x.alen, hunk) + AddedAt(x.AEnd(), x.blen, hunk)
  }

  /** Blocks in the order of the first file, none of them empty, from line `a` on. */
  ghost predicate InOrder(bl: seq<Block>, a: int) {
    && (forall k | 0 <= k < |bl| :: 0 <= bl[k].alen && 0 <= bl[k].blen && 0 < bl[k].alen + bl[k].blen && a <= bl[k].a0)
    && (forall k | 0 < k < |bl| :: bl[k - 1].AEnd() < bl[k].a0)
  }

  /** Neighbours have no more than twice the context between them. */
  ghost predicate Close(bl: seq<Block>, ctx: nat) {
    forall k | 0 < k < |bl| :: bl[k].a0 - bl[k - 1].AEnd() <= 2 * ctx
  }

  lemma RangesMeet(a: int, b: int, c: int)
    requires a <= b <= c
    ensures Range(a, b) + Range(b, c) == Range(a, c)
  {
  }

  lemma BlockSeen(v: View, x: Block)
    requires v.at <= x.a0 && 0 <= x.alen && 0 <= x.blen
    ensures var w := WithBlock(v, x);
      && w.lines == v.lines + Range(v.at, x.AEnd()) && w.changes == v.changes + BlockChanges(x, v.hunks)
      && w.hunks == v.hunks && w.at == x.AEnd()
  {
    hide Range, RemovedAt, AddedAt;
    RangesMeet(v.at, x.a0, x.AEnd());
    var c, d := RemovedAt(x.a0, x.alen, v.hunks), AddedAt(x.AEnd(), x.blen, v.hunks);
    assert v.changes + c + d == v.changes + (c + d);
    var r, t := Range(v.at, x.a0), Range(x.a0, x.AEnd());
    assert v.lines + r + t == v.lines + (r + t);
  }

  /** Some blocks in a row show every line from where they start to the end of the last one. */
  lemma {:induction false} BlocksSeen(v: View, bl: seq<Block>)
    requires InOrder(bl, v.at) && bl != []
    ensures var w, upto := WithBlocks(v, bl), bl[|bl| - 1].AEnd();
      && v.at <= upto && w.lines == v.lines + Range(v.at, upto) && w.changes == v.changes + ChangesOf(bl, v.hunks)
      && w.hunks == v.hunks && w.at == upto
    decreases |bl|
  {
    hide Range, WithBlock, BlockChanges;
    var n := |bl| - 1;
    var front, x := bl[..n], bl[n];
    var u := WithBlocks(v, front);
    if front == [] {
      assert u == v && ChangesOf(front, v.hunks) == [];
      BlockSeen(v, x);
    } else {
      BlocksSeen(v, front);
      BlockSeen(u, x);
      RangesMeet(v.at, u.at, x.AEnd());
      var c, d := ChangesOf(front, v.hunks), BlockChanges(x, v.hunks);
      assert v.changes + c + d == v.changes + (c + d);
      var r, t := Range(v.at, u.at), Range(u.at, x.AEnd());
      assert v.lines + r + t == v.lines + (r + t);
    }
  }

  // ── Which lines are near ───────────────────────────────────────────

  lemma NearSum(a: seq<Change>, b: seq<Change>, ctx: nat, i: int)
    ensures Near(a + b, ctx, i) <==> Near(a, ctx, i) || Near(b, ctx, i)
  {
    if Near(a, ctx, i) { var c :| c in a && c.lo - ctx <= i < c.hi + ctx; assert c in a + b; }
    if Near(b, ctx, i) { var c :| c in b && c.lo - ctx <= i < c.hi + ctx; assert c in a + b; }
  }

  lemma {:induction false} NearRemoved(a: int, count: nat, hunk: int, ctx: nat, i: int)
    ensures Near(RemovedAt(a, count, hunk), ctx, i) <==> 0 < count && a - ctx <= i < a + count + ctx
    decreases count
  {
    if 0 < count {
      NearRemoved(a, count - 1, hunk, ctx, i);
      var c := Change(a + count - 1, a + count, hunk);
      NearSum(RemovedAt(a, count - 1, hunk), [c], ctx, i);
      NearOne(c, ctx, i);
    }
  }

  lemma NearOne(c: Change, ctx: nat, i: int)
    ensures Near([c], ctx, i) <==> c.lo - ctx <= i < c.hi + ctx
  {
    assert c in [c];
  }

  lemma NearAdded(a: int, count: nat, hunk: int, ctx: nat, i: int)
    ensures Near(AddedAt(a, count, hunk), ctx, i) <==> 0 < count && a - ctx <= i < a + ctx
  {
    if 0 < count { assert AddedAt(a, count, hunk)[0] == Change(a, a, hunk); }
  }

  lemma NearBlock(x: Block, hunk: int, ctx: nat, i: int)
    requires 0 <= x.alen && 0 <= x.blen && 0 < x.alen + x.blen
    ensures Near(BlockChanges(x, hunk), ctx, i) <==> x.a0 - ctx <= i < x.AEnd() + ctx
  {
    hide Near, RemovedAt, AddedAt;
    NearSum(RemovedAt(x.a0, x.alen, hunk), AddedAt(x.AEnd(), x.blen, hunk), ctx, i);
    NearRemoved(x.a0, x.alen, hunk, ctx, i);
    NearAdded(x.AEnd(), x.blen, hunk, ctx, i);
  }

  /** Near the changes of blocks that share a hunk are all lines from before the first to behind the last. */
  lemma {:induction false} NearBlocks(bl: seq<Block>, hunk: int, ctx: nat, i: int)
    requires bl != [] && InOrder(bl, bl[0].a0) && Close(bl, ctx)
    ensures bl[0].a0 <= bl[|bl| - 1].AEnd()
    ensures Near(ChangesOf(bl, hunk), ctx, i) <==> bl[0].a0 - ctx <= i < bl[|bl| - 1].AEnd() + ctx
    decreases |bl|
  {
    hide Near, BlockChanges;
    var n := |bl| - 1;
    NearSum(ChangesOf(bl[..n], hunk), BlockChanges(bl[n], hunk), ctx, i);
    NearBlock(bl[n], hunk, ctx, i);
    if n > 0 {
      NearBlocks(bl[..n], hunk, ctx, i);
    } else {
      NearNone(ctx, i);
    }
  }

  lemma NearNone(ctx: nat, i: int)
    ensures !Near([], ctx, i)
  {
  }

  // ── How changes follow each other ──────────────────────────────────

  lemma RowsMeet(a: seq<Change>, b: seq<Change>, ctx: nat)
    requires InRow(a, ctx) && InRow(b, ctx)
    requires a != [] && b != [] ==> Follows(a[|a| - 1], b[0], ctx)
    ensures InRow(a + b, ctx)
  {
    hide Follows;
    var c := a + b;
    forall k | 0 < k < |c|
      ensures Follows(c[k - 1], c[k], ctx)
    {
      if k > |a| { assert c[k - 1] == b[k - |a| - 1] && c[k] == b[k - |a|]; }
    }
  }

  lemma BlockInRow(x: Block, hunk: int, ctx: nat)
    requires 0 <= x.alen && 0 <= x.blen && 0 < x.alen + x.blen
    ensures var c := BlockChanges(x, hunk);
      && c != [] && InRow(c, ctx) && c[0].lo == x.a0 && c[|c| - 1].hi == x.AEnd()
      && forall d | d in c :: d.hunk == hunk
  {
    var r, a := RemovedAt(x.a0, x.alen, hunk), AddedAt(x.AEnd(), x.blen, hunk);
    RowsMeet(r, a, ctx);
  }

  /** All changes of a hunk belong together. */
  lemma {:induction false} BlocksInRow(bl: seq<Block>, hunk: int, ctx: nat)
    requires bl != [] && InOrder(bl, bl[0].a0) && Close(bl, ctx)
    ensures var c := ChangesOf(bl, hunk);
      && c != [] && InRow(c, ctx) && c[0].lo == bl[0].a0 && c[|c| - 1].hi == bl[|bl| - 1].AEnd()
      && forall d | d in c :: d.hunk == hunk
    decreases |bl|
  {
    hide BlockChanges, InRow;
    var n := |bl| - 1;
    BlockInRow(bl[n], hunk, ctx);
    var b := BlockChanges(bl[n], hunk);
    if n > 0 {
      BlocksInRow(bl[..n], hunk, ctx);
      var a := ChangesOf(bl[..n], hunk);
      assert a[|a| - 1] in a && b[0] in b;
      RowsMeet(a, b, ctx);
    } else {
      assert ChangesOf(bl, hunk) == [] + b == b;
    }
  }

  // ── Hunk after hunk ────────────────────────────────────────────────

  /** What has been printed when all blocks up to line `aEnd` have. */
  ghost predicate SoFar(v: View, ctx: nat, n: int, aEnd: int) {
    && ShowsNear(v, ctx, n) && Rising(v) && InRow(v.changes, ctx)
    && (v.changes != [] ==> v.changes[|v.changes| - 1].hunk == v.hunks && v.changes[|v.changes| - 1].hi == aEnd)
    && (v.changes == [] ==> v.lines == [])
    && (v.lines == [] || v.at <= aEnd + ctx)
  }

  lemma NothingYet(ctx: nat, n: int)
    ensures Viewed([]) == NOTHING && SoFar(NOTHING, ctx, n, 0)
  {
    forall i | 0 <= i < n
      ensures !Near([], ctx, i)
    {
      NearNone(ctx, i);
    }
  }

  /** One hunk more, cut off where the file begins and ends. */
  lemma HunkSeen(v: View, ctx: nat, n: int, aEnd: int, bl: seq<Block>, aFrom: int, bFrom: int, post: int)
    requires SoFar(v, ctx, n, aEnd) && bl != [] && Close(bl, ctx) && InOrder(bl, bl[0].a0)
    requires v.changes != [] ==> aEnd + 2 * ctx < bl[0].a0
    requires aFrom == (if ctx > bl[0].a0 then 0 else bl[0].a0 - ctx) && 0 <= bl[0].a0
    requires var upto := bl[|bl| - 1].AEnd();
      upto <= n && post == if ctx > n - upto then n - upto else ctx
    ensures SoFar(WithHunk(v, bl, aFrom, bFrom, post), ctx, n, bl[|bl| - 1].AEnd())
  {
    hide Near, ChangesOf, Range, InRow, Rising, ShowsNear, WithHunk, InOrder, Close;
    var upto := bl[|bl| - 1].AEnd();
    BlocksInRow(bl, v.hunks + 1, ctx);
    var more := ChangesOf(bl, v.hunks + 1);
    assert more[0] in more && more[|more| - 1] in more;
    RowsMeet(v.changes, more, ctx);
    var w := WithHunk(v, bl, aFrom, bFrom, post);
    HunkParts(v, bl, aFrom, bFrom, post);
    HunkRises(v, w, aFrom, upto + post);
    HunkNear(v, w, ctx, n, bl, aFrom, upto + post);
  }

  lemma HunkParts(v: View, bl: seq<Block>, aFrom: int, bFrom: int, post: int)
    requires bl != [] && InOrder(bl, bl[0].a0) && aFrom <= bl[0].a0 && 0 <= post
    ensures var w, upto := WithHunk(v, bl, aFrom, bFrom, post), bl[|bl| - 1].AEnd();
      && w.lines == v.lines + Range(aFrom, upto + post) && w.changes == v.changes + ChangesOf(bl, v.hunks + 1)
      && w.hunks == v.hunks + 1 && w.at == upto + post && aFrom <= upto
  {
    hide ChangesOf, Range, WithBlocks, InOrder;
    var upto := bl[|bl| - 1].AEnd();
    StartsEarlier(bl, aFrom);
    BlocksSeen(v.(hunks := v.hunks + 1, at := aFrom, bAt := bFrom), bl);
    LinesOn(v.lines, aFrom, upto, upto + post);
  }

  lemma StartsEarlier(bl: seq<Block>, a: int)
    requires bl != [] && InOrder(bl, bl[0].a0) && a <= bl[0].a0
    ensures InOrder(bl, a)
  {
  }

  lemma LinesOn(lines: seq<int>, a: int, b: int, c: int)
    requires a <= b <= c
    ensures lines + Range(a, b) + Range(b, c) == lines + Range(a, c)
  {
    hide Range;
    RangesMeet(a, b, c);
  }

  lemma HunkNear(v: View, w: View, ctx: nat, n: int, bl: seq<Block>, from: int, upto: int)
    requires ShowsNear(v, ctx, n) && bl != [] && Close(bl, ctx) && InOrder(bl, bl[0].a0)
    requires w.lines == v.lines + Range(from, upto) && w.changes == v.changes + ChangesOf(bl, v.hunks + 1)
    requires from == (if ctx > bl[0].a0 then 0 else bl[0].a0 - ctx)
    requires var e := bl[|bl| - 1].AEnd(); upto == if ctx > n - e then n else e + ctx
    ensures ShowsNear(w, ctx, n)
  {
    hide Near, ChangesOf, Range, Close, InOrder;
    forall i | 0 <= i < n
      ensures i in w.lines <==> Near(w.changes, ctx, i)
    {
      NearSum(v.changes, ChangesOf(bl, v.hunks + 1), ctx, i);
      NearBlocks(bl, v.hunks + 1, ctx, i);
      LinesOf(v.lines, from, upto, i);
    }
  }

  lemma LinesOf(lines: seq<int>, from: int, upto: int, i: int)
    ensures i in lines + Range(from, upto) <==> i in lines || from <= i < upto
  {
  }

  lemma HunkRises(v: View, w: View, from: int, upto: int)
    requires Rising(v) && from <= upto && w.lines == v.lines + Range(from, upto) && w.at == upto
    requires v.lines == [] || v.at <= from
    ensures Rising(w)
  {
    var r := Range(from, upto);
    assert forall k | |v.lines| <= k < |w.lines| :: w.lines[k] == r[k - |v.lines|] == from + k - |v.lines|;
  }
}
