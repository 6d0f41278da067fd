/** Edit scripts over two numbered files, and what makes one of them shortest.

    A script walks from a pair of line numbers to another one. It may keep a line
    of the first file that compares equal to the line of the second one it stands
    against, remove a line of the first file, or add a line of the second one.
    The relation that compares lines is arbitrary: nothing here asks it to be
    transitive, or an equivalence at all. */
module EditScript {
  import opened Sequences

  /** `eq(i, j)`: line `i` of the first file compares equal to line `j` of the second. */
  type Rel = (int, int) -> bool

  datatype Step = Keep | Remove | Add {
    function Cost(): nat { if Keep? then 0 else 1 }
    function DA(): nat { if Add? then 0 else 1 }
    function DB(): nat { if Remove? then 0 else 1 }
  }

  type Script = seq<Step>

  /** How many lines a script removes and adds. */
  function Cost(s: Script): nat {
    if s == [] then 0 else s[0].Cost() + Cost(s[1..])
  }

  /** `s` leads from before lines `a` and `b` to before lines `c` and `d`. */
  ghost predicate Path(eq: Rel, s: Script, a: int, b: int, c: int, d: int) {
    if s == [] then a == c && b == d
    else
      && (s[0].Keep? ==> eq(a, b))
      && Path(eq, s[1..], a + s[0].DA(), b + s[0].DB(), c, d)
  }

  /** No script between the two corners is cheaper than `cost`. */
  ghost predicate IsLeast(eq: Rel, cost: int, a: int, b: int, c: int, d: int) {
    forall s | Path(eq, s, a, b, c, d) :: cost <= Cost(s)
  }

  // ── Composing and taking apart ─────────────────────────────────────

  lemma {:induction false} PathConcat(eq: Rel, s: Script, t: Script, a: int, b: int, c: int, d: int, e: int, f: int)
    requires Path(eq, s, a, b, c, d) && Path(eq, t, c, d, e, f)
    ensures Path(eq, s + t, a, b, e, f) && Cost(s + t) == Cost(s) + Cost(t)
  {
    if s == [] {
      assert s + t == t;
    } else {
      PathConcat(eq, s[1..], t, a + s[0].DA(), b + s[0].DB(), c, d, e, f);
      assert (s + t)[1..] == s[1..] + t;
    }
  }

  /** A nonempty script is its last step after the rest of it. */
  lemma {:induction false} PathLast(eq: Rel, s: Script, a: int, b: int, c: int, d: int)
    requires s != [] && Path(eq, s, a, b, c, d)
    ensures var x := s[|s| - 1]; var i := s[..|s| - 1];
            && Path(eq, i, a, b, c - x.DA(), d - x.DB())
            && (x.Keep? ==> eq(c - 1, d - 1))
            && Cost(s) == Cost(i) + x.Cost()
  {
    var i := s[..|s| - 1];
    if |s| > 1 {
      PathLast(eq, s[1..], a + s[0].DA(), b + s[0].DB(), c, d);
      assert s[1..][..|s| - 2] == i[1..];
    } else {
      assert Cost(s[1..]) == 0;
    }
  }

  lemma PathOne(eq: Rel, x: Step, a: int, b: int)
    requires x.Keep? ==> eq(a, b)
    ensures Path(eq, [x], a, b, a + x.DA(), b + x.DB()) && Cost([x]) == x.Cost()
  {
    assert [x][1..] == [];
  }

  lemma PathCons(eq: Rel, x: Step, s: Script, a: int, b: int, c: int, d: int)
    requires x.Keep? ==> eq(a, b)
    requires Path(eq, s, a + x.DA(), b + x.DB(), c, d)
    ensures Path(eq, [x] + s, a, b, c, d) && Cost([x] + s) == x.Cost() + Cost(s)
  {
    assert ([x] + s)[1..] == s;
  }

  /** Scripts only move forwards, and their cost has the parity of the diagonal they cross. */
  lemma {:induction false} PathForward(eq: Rel, s: Script, a: int, b: int, c: int, d: int)
    requires Path(eq, s, a, b, c, d)
    ensures a <= c && b <= d
    ensures (c - a) - (d - b) <= Cost(s) && (d - b) - (c - a) <= Cost(s)
    ensures (Cost(s) + (c - a) - (d - b)) % 2 == 0
  {
    if s != [] {
      PathForward(eq, s[1..], a + s[0].DA(), b + s[0].DB(), c, d);
    }
  }

  /** The `count` pairs of lines starting at `a` and `b` all compare equal. */
  ghost predicate Matched(eq: Rel, a: int, b: int, count: int) {
    forall i, j | a <= i < a + count && j - i == b - a :: eq(i, j)
  }

  function Keeps(count: nat): Script {
    if count == 0 then [] else [Keep] + Keeps(count - 1)
  }

  function Replacing(alen: nat, blen: nat): Script {
    if alen > 0 then [Remove] + Replacing(alen - 1, blen)
    else if blen > 0 then [Add] + Replacing(0, blen - 1)
    else []
  }

  lemma {:induction false} PathKeeps(eq: Rel, count: nat, a: int, b: int)
    requires Matched(eq, a, b, count)
    ensures Path(eq, Keeps(count), a, b, a + count, b + count) && Cost(Keeps(count)) == 0
  {
    if count > 0 {
      assert eq(a, b);
      PathKeeps(eq, count - 1, a + 1, b + 1);
      PathCons(eq, Keep, Keeps(count - 1), a, b, a + count, b + count);
    }
  }

  lemma {:induction false} PathReplacing(eq: Rel, alen: nat, blen: nat, a: int, b: int)
    ensures Path(eq, Replacing(alen, blen), a, b, a + alen, b + blen)
    ensures Cost(Replacing(alen, blen)) == alen + blen
  {
    if alen > 0 {
      PathReplacing(eq, alen - 1, blen, a + 1, b);
      PathCons(eq, Remove, Replacing(alen - 1, blen), a, b, a + alen, b + blen);
    } else if blen > 0 {
      PathReplacing(eq, 0, blen - 1, a, b + 1);
      PathCons(eq, Add, Replacing(0, blen - 1), a, b, a, b + blen);
    }
  }

  // ── Trimming equal ends never costs anything ───────────────────────

  /** Starting one line further on in the second file costs at most one step more. */
  lemma {:induction false} SkipInSecond(eq: Rel, s: Script, a: int, b: int, c: int, d: int) returns (t: Script)
    requires Path(eq, s, a, b, c, d) && b < d
    ensures Path(eq, t, a, b + 1, c, d) && Cost(t) <= Cost(s) + 1
    decreases |s|
  {
    match s[0]
    case Add => t := s[1..];
    case Keep =>
      t := [Remove] + s[1..];
      PathCons(eq, Remove, s[1..], a, b + 1, c, d);
    case Remove =>
      var u := SkipInSecond(eq, s[1..], a + 1, b, c, d);
      t := [Remove] + u;
      PathCons(eq, Remove, u, a, b + 1, c, d);
  }

  /** Starting one line further on in the first file costs at most one step more. */
  lemma {:induction false} SkipInFirst(eq: Rel, s: Script, a: int, b: int, c: int, d: int) returns (t: Script)
    requires Path(eq, s, a, b, c, d) && a < c
    ensures Path(eq, t, a + 1, b, c, d) && Cost(t) <= Cost(s) + 1
    decreases |s|
  {
    match s[0]
    case Remove => t := s[1..];
    case Keep =>
      t := [Add] + s[1..];
      PathCons(eq, Add, s[1..], a + 1, b, c, d);
    case Add =>
      var u := SkipInFirst(eq, s[1..], a, b + 1, c, d);
      t := [Add] + u;
      PathCons(eq, Add, u, a + 1, b, c, d);
  }

  /** Past a first pair of lines, whether or not they compare equal, no script need cost more. */
  lemma {:induction false} SkipBoth(eq: Rel, s: Script, a: int, b: int, c: int, d: int) returns (t: Script)
    requires Path(eq, s, a, b, c, d) && a < c && b < d
    ensures Path(eq, t, a + 1, b + 1, c, d) && Cost(t) <= Cost(s)
  {
    match s[0]
    case Keep => t := s[1..];
    case Remove => t := SkipInSecond(eq, s[1..], a + 1, b, c, d);
    case Add => t := SkipInFirst(eq, s[1..], a, b + 1, c, d);
  }

  /** A script read backwards is a script over both files numbered from the end. */
  lemma {:induction false} PathReversed(eq: Rel, qe: Rel, s: Script, a: int, b: int, c: int, d: int)
    requires Path(eq, s, a, b, c, d)
    requires forall i, j, u, v | i + u == -1 && j + v == -1 && eq(i, j) :: qe(u, v)
    ensures Path(qe, Reversed(s), -c, -d, -a, -b) && Cost(Reversed(s)) == Cost(s)
  {
    if s != [] {
      var x := s[0];
      PathReversed(eq, qe, s[1..], a + x.DA(), b + x.DB(), c, d);
      PathOne(qe, x, -a - x.DA(), -b - x.DB());
      PathConcat(qe, Reversed(s[1..]), [x], -c, -d, -a - x.DA(), -b - x.DB(), -a, -b);
    }
  }

  /** Before a last pair of lines no script need cost more. */
  lemma SkipBothLast(eq: Rel, s: Script, a: int, b: int, c: int, d: int) returns (t: Script)
    requires Path(eq, s, a, b, c, d) && a < c && b < d
    ensures Path(eq, t, a, b, c - 1, d - 1) && Cost(t) <= Cost(s)
  {
    var qe: Rel := (i, j) => eq(-1 - i, -1 - j);
    PathReversed(eq, qe, s, a, b, c, d);
    var u := SkipBoth(qe, Reversed(s), -c, -d, -a, -b);
    PathReversed(qe, eq, u, 1 - c, 1 - d, -a, -b);
    t := Reversed(u);
  }

  /** Trimming `pre` equal pairs off the front and `post` off the end changes no minimum:
      the least cost over the middle is the least cost over the whole. */
  lemma {:induction false} TrimmingKeepsLeast(eq: Rel, cost: int, pre: nat, post: nat, a: int, b: int, c: int, d: int)
    requires pre + post <= c - a && pre + post <= d - b
    requires Matched(eq, a, b, pre) && Matched(eq, c - post, d - post, post)
    ensures IsLeast(eq, cost, a + pre, b + pre, c - post, d - post) <==> IsLeast(eq, cost, a, b, c, d)
    decreases pre + post
  {
    if IsLeast(eq, cost, a, b, c, d) {
      forall s | Path(eq, s, a + pre, b + pre, c - post, d - post)
        ensures cost <= Cost(s)
      {
        PathKeeps(eq, pre, a, b);
        PathConcat(eq, Keeps(pre), s, a, b, a + pre, b + pre, c - post, d - post);
        PathKeeps(eq, post, c - post, d - post);
        PathConcat(eq, Keeps(pre) + s, Keeps(post), a, b, c - post, d - post, c, d);
      }
    }
    if IsLeast(eq, cost, a + pre, b + pre, c - post, d - post) {
      forall s | Path(eq, s, a, b, c, d)
        ensures cost <= Cost(s)
      {
        if pre > 0 {
          var t := SkipBoth(eq, s, a, b, c, d);
          TrimmingKeepsLeast(eq, cost, pre - 1, post, a + 1, b + 1, c, d);
        } else if post > 0 {
          var t := SkipBothLast(eq, s, a, b, c, d);
          TrimmingKeepsLeast(eq, cost, 0, post - 1, a, b, c - 1, d - 1);
        }
      }
    }
  }

  // ── Blocks ─────────────────────────────────────────────────────────

  /** A run of `alen` removed lines at `a0` and `blen` added lines at `b0`. */
  datatype Block = Block(a0: int, alen: int, b0: int, blen: int) {
    function AEnd(): int { a0 + alen }
    function BEnd(): int { b0 + blen }
  }

  /** The blocks lead from before lines `a` and `b` to before lines `c` and `d`:
      whatever stands between them is the same number of lines on both sides,
      equal in pairs. */
  ghost predicate Lays(eq: Rel, bl: seq<Block>, a: int, b: int, c: int, d: int) {
    if bl == [] then
      a <= c && c - a == d - b && Matched(eq, a, b, c - a)
    else
      var x := bl[0];
      && 0 <= x.alen && 0 <= x.blen
      && a <= x.a0 && x.a0 - a == x.b0 - b && Matched(eq, a, b, x.a0 - a)
      && Lays(eq, bl[1..], x.AEnd(), x.BEnd(), c, d)
  }

  /** How many lines the blocks remove and add. */
  function Changed(bl: seq<Block>): int {
    if bl == [] then 0 else bl[0].alen + bl[0].blen + Changed(bl[1..])
  }

  /** No block is empty, and two neighbours have an equal line between them. */
  ghost predicate Spaced(bl: seq<Block>) {
    && (forall k | 0 <= k < |bl| :: 0 < bl[k].alen + bl[k].blen)
    && (forall k | 0 < k < |bl| :: bl[k - 1].AEnd() < bl[k].a0)
  }

  /** Blocks are a script that costs exactly the lines they change. */
  lemma {:induction false} BlocksAreScript(eq: Rel, bl: seq<Block>, a: int, b: int, c: int, d: int) returns (s: Script)
    requires Lays(eq, bl, a, b, c, d)
    ensures Path(eq, s, a, b, c, d) && Cost(s) == Changed(bl)
  {
    if bl == [] {
      PathKeeps(eq, c - a, a, b);
      s := Keeps(c - a);
    } else {
      var x := bl[0];
      var t := BlocksAreScript(eq, bl[1..], x.AEnd(), x.BEnd(), c, d);
      PathReplacing(eq, x.alen, x.blen, x.a0, x.b0);
      PathConcat(eq, Replacing(x.alen, x.blen), t, x.a0, x.b0, x.AEnd(), x.BEnd(), c, d);
      PathKeeps(eq, x.a0 - a, a, b);
      PathConcat(eq, Keeps(x.a0 - a), Replacing(x.alen, x.blen) + t, a, b, x.a0, x.b0, c, d);
      s := Keeps(x.a0 - a) + (Replacing(x.alen, x.blen) + t);
    }
  }

  lemma LaysAfter(eq: Rel, bl: seq<Block>, count: nat, a: int, b: int, c: int, d: int)
    requires Matched(eq, a, b, count) && Lays(eq, bl, a + count, b + count, c, d)
    ensures Lays(eq, bl, a, b, c, d)
  {
  }

  lemma {:induction false} LaysBefore(eq: Rel, bl: seq<Block>, count: nat, a: int, b: int, c: int, d: int)
    requires Lays(eq, bl, a, b, c, d) && Matched(eq, c, d, count)
    ensures Lays(eq, bl, a, b, c + count, d + count)
  {
    if bl != [] {
      LaysBefore(eq, bl[1..], count, bl[0].AEnd(), bl[0].BEnd(), c, d);
    }
  }
}
