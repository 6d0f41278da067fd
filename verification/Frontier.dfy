/** The furthest-reaching points of Myers' search, and why the first of them to
    reach the far corner gives the least cost. */
module Frontier {
  import opened EditScript

  /** The part of two files a search looks at: lines `alo..ahi` against `blo..bhi`. */
  datatype Grid = Grid(eq: Rel, alo: int, ahi: int, blo: int, bhi: int) {
    ghost predicate Valid() { alo <= ahi && blo <= bhi }
    function N(): int { ahi - alo }
    function M(): int { bhi - blo }
    predicate Same(x: int, y: int) { eq(alo + x, blo + y) }

    /** `s` leads from the near corner to the point `x`, `y`. */
    ghost predicate From(s: Script, x: int, y: int) {
      Path(eq, s, alo, blo, alo + x, blo + y)
    }
  }

  /** Step `d` of the search visits every second diagonal from `-d` to `d`. */
  predicate OnStep(d: int, k: int) { 0 <= d && -d <= k <= d && (k + d) % 2 == 0 }

  /** Down diagonal `k` from column `x` as far as lines compare equal. */
  function Slide(g: Grid, x: int, k: int): (r: int)
    ensures x <= r
    decreases g.N() - x
  {
    if x < g.N() && x - k < g.M() && g.Same(x, x - k) then Slide(g, x + 1, k) else x
  }

  /** The furthest column on diagonal `k` within `d` removals and additions. */
  function Far(g: Grid, d: int, k: int): int
    requires OnStep(d, k)
    decreases d, 2
  {
    Slide(g, Entry(g, d, k), k)
  }

  /** Where step `d` enters diagonal `k`: down from the diagonal above, or right from the one below. */
  function Entry(g: Grid, d: int, k: int): int
    requires OnStep(d, k)
    decreases d, 1
  {
    if d == 0 then 0
    else if ComesDown(g, d, k) then Far(g, d - 1, k + 1)
    else Far(g, d - 1, k - 1) + 1
  }

  predicate ComesDown(g: Grid, d: int, k: int)
    requires OnStep(d, k) && 0 < d
    decreases d, 0
  {
    k == -d || (k != d && Far(g, d - 1, k - 1) < Far(g, d - 1, k + 1))
  }

  /** The diagonal that step `d` came from to enter diagonal `k`. */
  function Previous(g: Grid, d: int, k: int): (p: int)
    requires OnStep(d, k) && 0 < d
    ensures OnStep(d - 1, p)
  {
    if ComesDown(g, d, k) then k + 1 else k - 1
  }

  predicate AtCorner(g: Grid, x: int, k: int) { g.N() <= x && g.M() <= x - k }

  /** No point of step `d` is at the far corner, or beyond it. */
  ghost predicate NotYet(g: Grid, d: int) {
    forall k | OnStep(d, k) :: !AtCorner(g, Far(g, d, k), k)
  }

  // ── Slides ─────────────────────────────────────────────────────────

  /** A slide crosses equal lines only, and stops where they end. */
  lemma {:induction false} SlideMatches(g: Grid, x: int, k: int)
    ensures var r := Slide(g, x, k);
      && Matched(g.eq, g.alo + x, g.blo + x - k, r - x)
      && (x < r ==> r <= g.N() && r - k <= g.M())
      && !(r < g.N() && r - k < g.M() && g.Same(r, r - k))
    decreases g.N() - x
  {
    if x < g.N() && x - k < g.M() && g.Same(x, x - k) {
      SlideMatches(g, x + 1, k);
    }
  }

  lemma {:induction false} FarBounds(g: Grid, d: int, k: int)
    requires g.Valid() && OnStep(d, k)
    ensures 0 <= Entry(g, d, k) <= Far(g, d, k) <= g.N() + d
    ensures k <= Entry(g, d, k) && Far(g, d, k) - k <= g.M() + d
    decreases d
  {
    if d > 0 {
      FarBounds(g, d - 1, Previous(g, d, k));
    }
    SlideMatches(g, Entry(g, d, k), k);
  }

  // ── Nothing goes further ───────────────────────────────────────────

  /** A step goes at least as far as either neighbour's point and one edit. */
  lemma FarAdvances(g: Grid, d: int, k: int)
    requires OnStep(d, k) && 0 < d
    ensures OnStep(d - 1, k - 1) ==> Far(g, d - 1, k - 1) + 1 <= Far(g, d, k)
    ensures OnStep(d - 1, k + 1) ==> Far(g, d - 1, k + 1) <= Far(g, d, k)
  {
    var e := Entry(g, d, k);
    assert Far(g, d, k) == Slide(g, e, k);
    assert e == if ComesDown(g, d, k) then Far(g, d - 1, k + 1) else Far(g, d - 1, k - 1) + 1;
    assert ComesDown(g, d, k) <==> k == 0 - d || (k != d && Far(g, d - 1, k - 1) < Far(g, d - 1, k + 1));
  }

  /** Every furthest point has already gone past each equal pair before it. */
  lemma FarTakesPair(g: Grid, d: int, k: int, x: int)
    requires OnStep(d, k) && x <= Far(g, d, k)
    requires x < g.N() && x - k < g.M() && g.Same(x, x - k)
    ensures x + 1 <= Far(g, d, k)
  {
    SlideMatches(g, Entry(g, d, k), k);
  }

  /** Every script of cost `d` that stays inside the grid ends no further along
      its diagonal than the search's step `d` does. */
  lemma {:induction false} NothingGoesFurther(g: Grid, s: Script, x: int, y: int)
    requires g.Valid() && g.From(s, x, y) && x <= g.N() && y <= g.M()
    ensures OnStep(Cost(s), x - y) && x <= Far(g, Cost(s), x - y)
    decreases |s|
  {
    hide Far;
    PathForward(g.eq, s, g.alo, g.blo, g.alo + x, g.blo + y);
    var d, k := Cost(s), x - y;
    assert OnStep(d, k);
    if s == [] {
      FarBounds(g, 0, 0);
    } else {
      PathLast(g.eq, s, g.alo, g.blo, g.alo + x, g.blo + y);
      var i := s[..|s| - 1];
      if s[|s| - 1].Keep? {
        NothingGoesFurther(g, i, x - 1, y - 1);
        FarTakesPair(g, d, k, x - 1);
      } else {
        FarAdvances(g, d, k);
        if s[|s| - 1].Remove? {
          NothingGoesFurther(g, i, x - 1, y);
        } else {
          NothingGoesFurther(g, i, x, y - 1);
        }
      }
    }
  }

  /** While no step has reached the corner, every script to it costs more. */
  lemma CostsMore(g: Grid, d: int, s: Script)
    requires g.Valid() && forall e | 0 <= e <= d :: NotYet(g, e)
    requires g.From(s, g.N(), g.M())
    ensures d < Cost(s)
  {
    NothingGoesFurther(g, s, g.N(), g.M());
    var k := g.N() - g.M();
    assert AtCorner(g, Far(g, Cost(s), k), k);
    assert !NotYet(g, Cost(s));
  }

  // ── The corner is reached exactly ──────────────────────────────────

  function Min(a: int, b: int): int { if a < b then a else b }

  /** How far a point lies beyond the far edges of the grid. */
  function Beyond(g: Grid, x: int, y: int): nat {
    (if g.N() < x then x - g.N() else 0) + (if g.M() < y then y - g.M() else 0)
  }

  /** `s` leads to the point of the grid nearest to `x`, `y`, and is cheaper than
      `d` by at least the distance between the two. */
  ghost predicate PaidFor(g: Grid, s: Script, d: int, x: int, y: int) {
    g.From(s, Min(x, g.N()), Min(y, g.M())) && Cost(s) + Beyond(g, x, y) <= d
  }

  lemma StepPaidFor(g: Grid, s: Script, d: int, x: int, y: int, step: Step) returns (t: Script)
    requires g.Valid() && PaidFor(g, s, d, x, y) && !step.Keep?
    ensures PaidFor(g, t, d + 1, x + step.DA(), y + step.DB())
  {
    t := s;
    if (step.Add? && y < g.M()) || (step.Remove? && x < g.N()) {
      var a, b := g.alo + Min(x, g.N()), g.blo + Min(y, g.M());
      PathOne(g.eq, step, a, b);
      PathConcat(g.eq, s, [step], g.alo, g.blo, a, b, a + step.DA(), b + step.DB());
      t := s + [step];
    }
  }

  lemma SlidePaidFor(g: Grid, s: Script, d: int, x: int, k: int) returns (t: Script)
    requires g.Valid() && PaidFor(g, s, d, x, x - k)
    ensures PaidFor(g, t, d, Slide(g, x, k), Slide(g, x, k) - k)
  {
    t := s;
    SlideMatches(g, x, k);
    var r := Slide(g, x, k);
    if x < r {
      var a, b := g.alo + x, g.blo + x - k;
      PathKeeps(g.eq, r - x, a, b);
      PathConcat(g.eq, s, Keeps(r - x), g.alo, g.blo, a, b, a + r - x, b + r - x);
      t := s + Keeps(r - x);
    }
  }

  /** Every point the search visits is paid for. */
  lemma {:induction false} Clipped(g: Grid, d: int, k: int) returns (s: Script)
    requires g.Valid() && OnStep(d, k)
    ensures PaidFor(g, s, d, Far(g, d, k), Far(g, d, k) - k)
    decreases d
  {
    s := [];
    if d > 0 {
      var p := Previous(g, d, k);
      s := Clipped(g, d - 1, p);
      s := StepPaidFor(g, s, d - 1, Far(g, d - 1, p), Far(g, d - 1, p) - p,
                       if ComesDown(g, d, k) then Add else Remove);
    }
    s := SlidePaidFor(g, s, d, Entry(g, d, k), k);
  }

  /** The first step to reach the corner stops on it, never beyond, and its
      number is the least cost of any script. */
  lemma FirstAtCorner(g: Grid, d: int, k: int)
    requires g.Valid() && OnStep(d, k) && forall e | 0 <= e < d :: NotYet(g, e)
    requires AtCorner(g, Far(g, d, k), k)
    ensures Far(g, d, k) == g.N() && k == g.N() - g.M()
    ensures IsLeast(g.eq, d, g.alo, g.blo, g.ahi, g.bhi)
  {
    forall s | Path(g.eq, s, g.alo, g.blo, g.ahi, g.bhi)
      ensures d <= Cost(s)
    {
      assert g.From(s, g.N(), g.M());
      CostsMore(g, d - 1, s);
    }
    var s := Clipped(g, d, k);
    assert Path(g.eq, s, g.alo, g.blo, g.ahi, g.bhi);
  }

  /** As many steps as there are lines always suffice. */
  lemma AlwaysReached(g: Grid, d: int)
    requires g.Valid() && forall e | 0 <= e <= d :: NotYet(g, e)
    ensures d < g.N() + g.M()
  {
    PathReplacing(g.eq, g.N(), g.M(), g.alo, g.blo);
    CostsMore(g, d, Replacing(g.N(), g.M()));
  }
}
