/** Myers' search and the walk back that turns it into blocks. */
module Myers {
  import opened EditScript
  import opened Frontier
  import opened DiffLines

  /** The longest edit that is laid out. */
  const MAX_D := 400
  /** Where diagonal 0 stands in the working row. */
  const VOFF := MAX_D + 1

  /** What is kept of step `d`: the furthest column on each diagonal it visited. */
  ghost predicate Row(g: Grid, d: int, row: seq<int>) {
    0 <= d && |row| == 2 * d + 1 && forall k | OnStep(d, k) :: row[k + d] == Far(g, d, k)
  }

  /** The blocks gathered so far: `cur` is still growing while `open`, in front of `done`. */
  datatype Walk = Walk(open: bool, cur: Block, done: seq<Block>) {
    function All(): seq<Block> { if open then [cur] + done else done }
  }

  /** The walk stands at `x`, `y`, having undone `cost` edits. */
  ghost predicate Gathered(g: Grid, w: Walk, x: int, y: int, cost: int) {
    && (w.open ==> w.cur.a0 == g.alo + x && w.cur.b0 == g.blo + y)
    && (!w.open ==> w.done == [])
    && Lays(g.eq, w.All(), g.alo + x, g.blo + y, g.ahi, g.bhi)
    && Spaced(w.All()) && Changed(w.All()) == cost
  }

  function Grow(cur: Block, step: Step): Block {
    Block(cur.a0 - step.DA(), cur.alen + step.DA(), cur.b0 - step.DB(), cur.blen + step.DB())
  }

  lemma GrowLays(eq: Rel, cur: Block, bl: seq<Block>, step: Step, c: int, d: int)
    requires Lays(eq, [cur] + bl, cur.a0, cur.b0, c, d) && Spaced([cur] + bl) && !step.Keep?
    ensures var x := Grow(cur, step);
      && Lays(eq, [x] + bl, x.a0, x.b0, c, d)
      && Spaced([x] + bl) && Changed([x] + bl) == Changed([cur] + bl) + 1
  {
    assert ([cur] + bl)[1..] == bl;
    assert ([Grow(cur, step)] + bl)[1..] == bl;
    assert forall k | 0 < k <= |bl| :: ([Grow(cur, step)] + bl)[k] == ([cur] + bl)[k];
  }

  lemma OpenLays(eq: Rel, bl: seq<Block>, step: Step, a: int, b: int, gap: nat, c: int, d: int)
    requires Lays(eq, bl, a + gap, b + gap, c, d) && Matched(eq, a, b, gap) && !step.Keep?
    requires Spaced(bl) && (bl != [] ==> 0 < gap && bl[0].a0 == a + gap)
    ensures var x := Grow(Block(a, 0, b, 0), step);
      && Lays(eq, [x] + bl, x.a0, x.b0, c, d)
      && Spaced([x] + bl) && Changed([x] + bl) == Changed(bl) + 1
  {
    var x := Grow(Block(a, 0, b, 0), step);
    LaysAfter(eq, bl, gap, a, b, c, d);
    assert ([x] + bl)[1..] == bl;
    assert forall k | 0 < k <= |bl| :: ([x] + bl)[k] == bl[k - 1];
  }

  /** One edit at `px`, `py`, then equal lines down to `x`, `y`. */
  ghost predicate Hop(g: Grid, step: Step, px: int, py: int, x: int, y: int) {
    var ex, ey := px + step.DA(), py + step.DB();
    !step.Keep? && ex <= x && y - x == ey - ex && Matched(g.eq, g.alo + ex, g.blo + ey, x - ex)
  }

  lemma FarHops(g: Grid, d: int, k: int)
    requires g.Valid() && OnStep(d, k) && 0 < d
    ensures var p := Previous(g, d, k); var px := Far(g, d - 1, p);
      0 <= px && p <= px && Hop(g, if p == k - 1 then Remove else Add, px, px - p, Far(g, d, k), Far(g, d, k) - k)
  {
    FarBounds(g, d - 1, Previous(g, d, k));
    SlideMatches(g, Entry(g, d, k), k);
  }

  /** One step of the walk: an open block ends where equal lines stand to its left,
      and the edit before them opens the next one. */
  function Gather(g: Grid, step: Step, px: int, py: int, w: Walk, x: int): Walk {
    var ex, ey := px + step.DA(), py + step.DB();
    if w.open && ex == x then Walk(true, Grow(w.cur, step), w.done)
    else Walk(true, Grow(Block(g.alo + ex, 0, g.blo + ey, 0), step), w.All())
  }

  lemma AllStarts(w: Walk)
    requires !w.open ==> w.done == []
    ensures w.All() != [] <==> w.open
    ensures w.open ==> w.All()[0] == w.cur
  {
  }

  lemma GatherStart(g: Grid, cur: Block)
    requires g.Valid()
    ensures Gathered(g, Walk(false, cur, []), g.N(), g.M(), 0)
  {
  }

  lemma GatherStep(g: Grid, step: Step, px: int, py: int, w: Walk, x: int, y: int, cost: int)
    requires Gathered(g, w, x, y, cost) && Hop(g, step, px, py, x, y)
    ensures Gathered(g, Gather(g, step, px, py, w, x), px, py, cost + 1)
    ensures !step.Keep? && px + step.DA() <= x
    ensures w.open ==> w.cur.a0 == g.alo + x && (x == px + step.DA() ==> w.cur.b0 == g.blo + py + step.DB())
  {
    hide Lays, Changed, Spaced, Matched;
    var ex, ey := px + step.DA(), py + step.DB();
    if w.open && ex == x {
      assert Gather(g, step, px, py, w, x).All() == [Grow(w.cur, step)] + w.done;
      GrowLays(g.eq, w.cur, w.done, step, g.ahi, g.bhi);
    } else {
      AllStarts(w);
      assert Gather(g, step, px, py, w, x).All() == [Grow(Block(g.alo + ex, 0, g.blo + ey, 0), step)] + w.All();
      OpenLays(g.eq, w.All(), step, g.alo + ex, g.blo + ey, x - ex, g.ahi, g.bhi);
    }
  }

  /** At step 0 only equal lines are left in front. */
  lemma GatherEnd(g: Grid, w: Walk, x: int, y: int, cost: int)
    requires g.Valid() && Gathered(g, w, x, y, cost) && OnStep(0, x - y) && x == Far(g, 0, x - y)
    ensures Spaced(w.All()) && Changed(w.All()) == cost
    ensures Lays(g.eq, w.All(), g.alo, g.blo, g.ahi, g.bhi)
  {
    SlideMatches(g, 0, 0);
    LaysAfter(g.eq, w.All(), x, g.alo, g.blo, g.ahi, g.bhi);
  }

  /** Neighbouring steps visit different diagonals, and one step every second one. */
  lemma Alternate(d: int, e: int, k: int)
    requires OnStep(d, k) && e == d - 1
    ensures forall j | OnStep(e, j) :: j != k
    ensures forall j | OnStep(d, j) && j < k + 2 :: j <= k
  {
  }

  lemma TooFarApart(g: Grid)
    requires g.Valid() && forall e | 0 <= e <= MAX_D :: NotYet(g, e)
    ensures IsLeast(g.eq, MAX_D + 1, g.alo, g.blo, g.ahi, g.bhi)
  {
    hide NotYet, Path;
    forall s | Path(g.eq, s, g.alo, g.blo, g.ahi, g.bhi)
      ensures MAX_D + 1 <= Cost(s)
    {
      CostsMore(g, MAX_D, s);
    }
  }

  lemma NotLeast(eq: Rel, cost: int, bl: seq<Block>, a: int, b: int, c: int, d: int)
    requires Lays(eq, bl, a, b, c, d) && Changed(bl) < cost
    ensures !IsLeast(eq, cost, a, b, c, d)
  {
    hide Lays, Changed, Path;
    var s := BlocksAreScript(eq, bl, a, b, c, d);
  }

  class Differ {
    const o: Options
    const fa: File
    const fb: File
    const vwork: array<int>
    const trace: array<seq<int>>
    const blocks: array<Block>
    var first: int
    var nblocks: int

    constructor (o: Options, fa: File, fb: File)
      requires fa.Valid(o) && fb.Valid(o)
      ensures Valid() && this.o == o && this.fa == fa && this.fb == fb
      ensures fresh(vwork) && fresh(trace) && fresh(blocks) && Blocks() == []
    {
      this.o, this.fa, this.fb := o, fa, fb;
      vwork := new int[2 * MAX_D + 3];
      trace := new seq<int>[MAX_D + 1];
      blocks := new Block[MAX_D];
      first, nblocks := 0, 0;
    }

    ghost predicate Valid()
      reads this
    {
      && fa.Valid(o) && fb.Valid(o)
      && vwork.Length == 2 * MAX_D + 3 && trace.Length == MAX_D + 1 && blocks.Length == MAX_D
      && 0 <= first && 0 <= nblocks && first + nblocks <= MAX_D
    }

    /** The blocks laid out last. */
    ghost function Blocks(): seq<Block>
      requires Valid()
      reads this, blocks
    {
      blocks[first..first + nblocks]
    }

    ghost function Same(): Rel { Lines(o, fa, fb) }

    ghost predicate InFiles(g: Grid) {
      g.Valid() && g.eq == Same() && 0 <= g.alo && g.ahi <= |fa.line| && 0 <= g.blo && g.bhi <= |fb.line|
    }

    /** Lays out the lines `alo..ahi` against `blo..bhi`: 0 when done, 1 when that
        takes more than MAX_D removals and additions. */
    method Run(alo: nat, ahi: nat, blo: nat, bhi: nat) returns (rc: int)
      requires Valid() && alo <= ahi <= |fa.line| && blo <= bhi <= |fb.line|
      modifies this, vwork, trace, blocks
      ensures Valid() && (rc == 0 || rc == 1)
      ensures rc == 0 ==> Lays(Same(), Blocks(), alo, blo, ahi, bhi) && Spaced(Blocks())
      ensures rc == 0 ==> IsLeast(Same(), Changed(Blocks()), alo, blo, ahi, bhi) && Changed(Blocks()) <= MAX_D
      ensures rc == 1 <==> IsLeast(Same(), MAX_D + 1, alo, blo, ahi, bhi)
    {
      hide Valid, Blocks, IsLeast, Lays, Spaced, Changed, NotYet, Row, Far, OnStep, Lines;
      ghost var g := Grid(Same(), alo, ahi, blo, bhi);
      var ndone, rows := Search(g, alo, blo, ahi - alo, bhi - blo);
      if ndone < 0 {
        rc := 1;
        TooFarApart(g);
      } else {
        rc := 0;
        LayOut(g, alo, blo, ahi - alo, bhi - blo, ndone);
      }
      DropRows(rows);
    }

    /** Walks back from the corner that step `ndone` reached. */
    method LayOut(ghost g: Grid, alo: nat, blo: nat, n: nat, m: nat, ndone: nat)
      requires Valid() && InFiles(g) && g.alo == alo && g.blo == blo && g.N() == n && g.M() == m
      requires ndone <= MAX_D && forall e | 0 <= e < ndone :: Row(g, e, trace[e])
      requires OnStep(ndone, n - m) && Far(g, ndone, n - m) == n
      requires IsLeast(Same(), ndone, g.alo, g.blo, g.ahi, g.bhi)
      modifies this, blocks
      ensures Valid() && Lays(Same(), Blocks(), g.alo, g.blo, g.ahi, g.bhi) && Spaced(Blocks())
      ensures IsLeast(Same(), Changed(Blocks()), g.alo, g.blo, g.ahi, g.bhi) && Changed(Blocks()) <= MAX_D
      ensures !IsLeast(Same(), MAX_D + 1, g.alo, g.blo, g.ahi, g.bhi)
    {
      hide Valid, Blocks, IsLeast, Lays, Spaced, Changed, NotYet, Row, Far, OnStep, Lines;
      WalkBack(g, alo, blo, n, m, ndone);
      NotLeast(Same(), MAX_D + 1, Blocks(), g.alo, g.blo, g.ahi, g.bhi);
    }

    /** Lets go of the rows kept for the walk back. */
    method DropRows(rows: nat)
      requires Valid() && rows <= MAX_D + 1
      modifies trace
      ensures Valid() && Blocks() == old(Blocks())
      ensures forall d | 0 <= d < rows :: trace[d] == []
    {
      for d := 0 to rows
        invariant forall e | 0 <= e < d :: trace[e] == []
      {
        trace[d] := [];
      }
    }

    /** Walks the edit graph step by step until one reaches the far corner. `ndone`
        is that step, or -1 when there is none up to MAX_D. */
    method Search(ghost g: Grid, alo: nat, blo: nat, n: nat, m: nat) returns (ndone: int, rows: nat)
      requires Valid() && InFiles(g) && g.alo == alo && g.blo == blo && g.N() == n && g.M() == m
      modifies vwork, trace
      ensures rows <= MAX_D + 1 && ndone <= MAX_D
      ensures ndone < 0 ==> forall e | 0 <= e <= MAX_D :: NotYet(g, e)
      ensures 0 <= ndone ==> OnStep(ndone, n - m) && Far(g, ndone, n - m) == n
      ensures 0 <= ndone ==> forall e | 0 <= e < ndone :: Row(g, e, trace[e])
      ensures 0 <= ndone ==> IsLeast(Same(), ndone, g.alo, g.blo, g.ahi, g.bhi)
    {
      hide Far, Path;
      var maxd := n + m;
      if maxd > MAX_D { maxd := MAX_D; }
      vwork[VOFF + 1] := 0;
      var d := 0;
      while d <= maxd
        invariant 0 <= d <= maxd + 1 && WorkRow(g, d - 1)
        invariant forall e | 0 <= e < d :: NotYet(g, e)
        invariant forall e | 0 <= e < d :: Row(g, e, trace[e])
      {
        var k := Advance(g, alo, blo, n, m, d);
        if k <= d {
          FirstAtCorner(g, d, k);
          return d, d;
        }
        KeepRow(g, d);
        d := d + 1;
      }
      AlwaysReached(g, maxd);
      return -1, d;
    }

    /** The working row holds step `d`; before step 0 only the start of the search. */
    ghost predicate WorkRow(g: Grid, d: int)
      requires vwork.Length == 2 * MAX_D + 3 && -1 <= d <= MAX_D
      reads vwork
    {
      if d < 0 then vwork[VOFF + 1] == 0
      else forall k | OnStep(d, k) :: vwork[VOFF + k] == Far(g, d, k)
    }

    /** One step: every diagonal as far as it goes, up to the first to reach the
        corner, which is returned. `d + 2` when there is none. */
    method Advance(ghost g: Grid, alo: nat, blo: nat, n: nat, m: nat, d: nat) returns (k: int)
      requires Valid() && InFiles(g) && g.alo == alo && g.blo == blo && g.N() == n && g.M() == m
      requires d <= MAX_D && WorkRow(g, d - 1)
      modifies vwork
      ensures k == d + 2 || OnStep(d, k)
      ensures OnStep(d, k) ==> AtCorner(g, Far(g, d, k), k)
      ensures k == d + 2 ==> NotYet(g, d) && WorkRow(g, d)
    {
      hide Far;
      ghost var e := d - 1;
      k := 0 - d;
      while k <= d
        invariant k == d + 2 || OnStep(d, k)
        invariant d == 0 && k == 0 ==> vwork[VOFF + 1] == 0
        invariant forall j | OnStep(e, j) :: vwork[VOFF + j] == Far(g, e, j)
        invariant forall j | OnStep(d, j) && j < k :: vwork[VOFF + j] == Far(g, d, j)
        invariant forall j | OnStep(d, j) && j < k :: !AtCorner(g, Far(g, d, j), j)
      {
        assert d > 0 && k != 0 - d ==> OnStep(e, k - 1);
        assert d > 0 && k != d ==> OnStep(e, k + 1);
        var x := Visit(g, alo, blo, n, m, d, k);
        if n <= x && m <= x - k { return; }
        Alternate(d, e, k);
        k := k + 2;
      }
    }

    /** Takes diagonal `k` as far as step `d` goes on it. */
    method Visit(ghost g: Grid, alo: nat, blo: nat, n: nat, m: nat, d: nat, k: int) returns (x: int)
      requires Valid() && InFiles(g) && g.alo == alo && g.blo == blo && g.N() == n && g.M() == m
      requires d <= MAX_D && OnStep(d, k) && (d == 0 ==> vwork[VOFF + 1] == 0)
      requires d > 0 && k != 0 - d ==> OnStep(d - 1, k - 1) && vwork[VOFF + k - 1] == Far(g, d - 1, k - 1)
      requires d > 0 && k != d ==> OnStep(d - 1, k + 1) && vwork[VOFF + k + 1] == Far(g, d - 1, k + 1)
      modifies vwork
      ensures x == Far(g, d, k) && vwork[VOFF + k] == x
      ensures forall i | 0 <= i < vwork.Length && i != VOFF + k :: vwork[i] == old(vwork[i])
    {
      if k == 0 - d || (k != d && vwork[VOFF + k - 1] < vwork[VOFF + k + 1]) {
        x := vwork[VOFF + k + 1];
      } else {
        x := vwork[VOFF + k - 1] + 1;
      }
      assert x == Entry(g, d, k);
      FarBounds(g, d, k);
      x := Follow(g, alo, blo, n, m, x, k);
      vwork[VOFF + k] := x;
    }

    /** Down a diagonal while lines compare equal. */
    method Follow(ghost g: Grid, alo: nat, blo: nat, n: nat, m: nat, from: nat, k: int) returns (x: nat)
      requires Valid() && InFiles(g) && g.alo == alo && g.blo == blo && g.N() == n && g.M() == m
      requires k <= from
      ensures x == Slide(g, from, k)
    {
      hide SameLine;
      x := from;
      var y := x - k;
      while x < n && y < m
        invariant from <= x && y == x - k && Slide(g, x, k) == Slide(g, from, k)
        decreases n - x
      {
        var same := Eq(o, fa, fb, alo + x, blo + y);
        if !same { break; }
        x, y := x + 1, y + 1;
      }
    }

    /** Keeps the working row of step `d` for the walk back. */
    method KeepRow(ghost g: Grid, d: nat)
      requires Valid() && d <= MAX_D && WorkRow(g, d)
      modifies trace
      ensures Row(g, d, trace[d])
      ensures trace[..] == old(trace[..])[d := trace[d]]
    {
      var row := new int[2 * d + 1];
      var k := 0 - d;
      while k <= d
        invariant k == d + 2 || OnStep(d, k)
        invariant forall j | OnStep(d, j) && j < k :: row[j + d] == Far(g, d, j)
        invariant trace[..] == old(trace[..]) && WorkRow(g, d)
      {
        row[k + d] := vwork[VOFF + k];
        k := k + 2;
      }
      trace[d] := row[..];
    }

    /** The point that step `d` went on from to reach `x`, `y`, read off the row before. */
    method Retrace(ghost g: Grid, d: int, x: int, y: int) returns (px: int, py: int, step: Step)
      requires Valid() && g.Valid() && 0 < d <= MAX_D && Row(g, d - 1, trace[d - 1])
      requires OnStep(d, x - y) && x == Far(g, d, x - y)
      ensures 0 <= px && 0 <= py && OnStep(d - 1, px - py) && px == Far(g, d - 1, px - py)
      ensures Hop(g, step, px, py, x, y)
    {
      var row := trace[d - 1];
      var k := x - y;
      assert k != 0 - d ==> OnStep(d - 1, k - 1);
      assert k != d ==> OnStep(d - 1, k + 1);
      var prevK := if k == 0 - d || (k != d && row[k - 1 + d - 1] < row[k + 1 + d - 1]) then k + 1 else k - 1;
      assert prevK == Previous(g, d, k);
      px := row[prevK + d - 1];
      py := px - prevK;
      step := if prevK == k - 1 then Remove else Add;
      FarHops(g, d, k);
    }

    /** The walk as it stands in `blocks`, from `slot` on, and in `cur`. */
    ghost predicate Stored(w: Walk, slot: nat, open: bool, cur: Block)
      reads blocks
    {
      w.open == open && w.cur == cur && slot <= blocks.Length && w.done == blocks[slot..]
    }

    /** Ends the open block where equal lines stand to its left, and counts the edit
        at `px`, `py` into the open block, or a new one. */
    method GatherInto(ghost g: Grid, alo: nat, blo: nat, step: Step, px: int, py: int, ghost w: Walk, x: int,
                      slotIn: nat, openIn: bool, curIn: Block) returns (slot: nat, cur: Block)
      requires Valid() && g.alo == alo && g.blo == blo && !step.Keep? && px + step.DA() <= x
      requires Stored(w, slotIn, openIn, curIn)
      requires openIn ==>
        0 < slotIn && curIn.a0 == alo + x && (x == px + step.DA() ==> curIn.b0 == blo + py + step.DB())
      modifies blocks
      ensures slotIn - (if openIn then 1 else 0) <= slot
      ensures Stored(Gather(g, step, px, py, w, x), slot, true, cur)
    {
      var open := openIn;
      slot, cur := slotIn, curIn;
      if open && x > px + (if step.Remove? then 1 else 0) {
        slot := slot - 1;
        blocks[slot] := cur;
        assert blocks[slot..] == [cur] + w.done;
        open := false;
      }
      if !open {
        cur := cur.(alen := 0, blen := 0);
      }
      if step.Remove? {
        cur := cur.(alen := cur.alen + 1);
      } else {
        cur := cur.(blen := cur.blen + 1);
      }
      cur := cur.(a0 := alo + px, b0 := blo + py);
    }

    /** The block still open at the end is the first one. */
    method Close(ghost w: Walk, slotIn: nat, open: bool, cur: Block)
      requires Valid() && Stored(w, slotIn, open, cur)
      requires open ==> 0 < slotIn
      modifies this, blocks
      ensures Valid() && Blocks() == w.All()
    {
      var slot := slotIn;
      if open {
        slot := slot - 1;
        blocks[slot] := cur;
      }
      assert blocks[slot..] == w.All();
      assert blocks[slot..] == blocks[slot..slot + (MAX_D - slot)];
      first, nblocks := slot, MAX_D - slot;
    }

    /** The walk stands at `x`, `y` on step `d`, with the steps after it gathered. */
    ghost predicate Walking(g: Grid, w: Walk, ndone: int, d: int, x: int, y: int, slot: nat, open: bool, cur: Block)
      reads blocks, trace
    {
      && 0 <= d <= ndone <= MAX_D < trace.Length && 0 <= x && 0 <= y
      && OnStep(d, x - y) && x == Far(g, d, x - y)
      && (forall e | 0 <= e < ndone :: Row(g, e, trace[e]))
      && Stored(w, slot, open, cur) && MAX_D + (if open then 1 else 0) <= slot + ndone - d
      && Gathered(g, w, x, y, ndone - d)
    }

    /** Undoes one step. */
    method StepBack(ghost g: Grid, alo: nat, blo: nat, ghost w: Walk, ghost ndone: int, d: int, x: int, y: int,
                    slotIn: nat, open: bool, curIn: Block)
      returns (ghost w': Walk, px: int, py: int, slot: nat, cur: Block)
      requires Valid() && g.Valid() && g.alo == alo && g.blo == blo
      requires 0 < d && Walking(g, w, ndone, d, x, y, slotIn, open, curIn)
      modifies blocks
      ensures Walking(g, w', ndone, d - 1, px, py, slot, true, cur)
    {
      hide Far, Lays, Changed, Spaced, Gathered, Row, OnStep, Hop;
      var step;
      px, py, step := Retrace(g, d, x, y);
      GatherStep(g, step, px, py, w, x, y, ndone - d);
      w' := Gather(g, step, px, py, w, x);
      slot, cur := GatherInto(g, alo, blo, step, px, py, w, x, slotIn, open, curIn);
    }

    lemma WalkStarts(g: Grid, ndone: nat, cur: Block)
      requires Valid() && g.Valid() && ndone <= MAX_D && forall e | 0 <= e < ndone :: Row(g, e, trace[e])
      requires OnStep(ndone, g.N() - g.M()) && Far(g, ndone, g.N() - g.M()) == g.N()
      ensures Walking(g, Walk(false, cur, []), ndone, ndone, g.N(), g.M(), MAX_D, false, cur)
    {
      hide Far, OnStep, Row, Gathered;
      GatherStart(g, cur);
    }

    lemma WalkEnds(g: Grid, w: Walk, ndone: int, x: int, y: int, slot: nat, open: bool, cur: Block)
      requires Valid() && g.Valid() && Walking(g, w, ndone, 0, x, y, slot, open, cur)
      ensures Lays(g.eq, w.All(), g.alo, g.blo, g.ahi, g.bhi) && Spaced(w.All()) && Changed(w.All()) == ndone
      ensures Stored(w, slot, open, cur) && (open ==> 0 < slot)
    {
      hide Far, OnStep, Row, Gathered, Lays, Spaced, Changed;
      GatherEnd(g, w, x, y, ndone);
    }

    /** Back from the corner along the kept rows, gathering steps into blocks. */
    method WalkBack(ghost g: Grid, alo: nat, blo: nat, n: nat, m: nat, ndone: nat)
      requires Valid() && InFiles(g) && g.alo == alo && g.blo == blo && g.N() == n && g.M() == m
      requires ndone <= MAX_D && forall e | 0 <= e < ndone :: Row(g, e, trace[e])
      requires OnStep(ndone, n - m) && Far(g, ndone, n - m) == n
      modifies this, blocks
      ensures Valid() && Lays(Same(), Blocks(), g.alo, g.blo, g.ahi, g.bhi)
      ensures Spaced(Blocks()) && Changed(Blocks()) == ndone
    {
      hide Far, Lays, Changed, Spaced, Row, OnStep, Walking, Stored;
      var x, y := n, m;
      var slot: nat := MAX_D;
      var open := false;
      var cur := Block(0, 0, 0, 0);
      ghost var w := Walk(false, cur, []);
      WalkStarts(g, ndone, cur);
      var d: int := ndone;
      while d > 0
        invariant Valid() && 0 <= d && Walking(g, w, ndone, d, x, y, slot, open, cur)
      {
        w, x, y, slot, cur := StepBack(g, alo, blo, w, ndone, d, x, y, slot, open, cur);
        open := true;
        d := d - 1;
      }
      WalkEnds(g, w, ndone, x, y, slot, open, cur);
      Close(w, slot, open, cur);
    }
  }
}
