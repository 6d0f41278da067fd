/** Matching lines with context around them: which lines a reader should see, and the loop
    that prints them with a ring of lines kept back and a countdown. */
module GrepContext {

  const CTX_MAX := 32

  /** What is printed: a line with its number and the mark of a match or of context, a
      separator, or the name of the file. */
  datatype Out = Line(no: nat, text: string, mark: char) | Gap | Name

  datatype Opts = Opts(invert: bool, countOnly: bool, namesOnly: bool, quiet: bool, before: nat, after: nat)

  /** A file, as lines numbered from one, and which of them are hits. */
  datatype Input = Input(lines: seq<string>, matches: string -> bool, o: Opts)
  {
    predicate IsHit(i: int) { 1 <= i <= |lines| && (matches(lines[i - 1]) != o.invert) }

    function Reach(): nat { if o.before > CTX_MAX then CTX_MAX else o.before }

    /** A hit among the first `k` lines has this line in its context. */
    ghost predicate Shown(k: nat, i: int) { exists h :: 1 <= h <= k && IsHit(h) && h - Reach() <= i <= h + o.after }

    function Item(i: nat): Out
      requires 1 <= i <= |lines|
    {
      Line(i, lines[i - 1], if IsHit(i) then ':' else '-')
    }

    /** The lines up to `n` that the hits up to `k` show, each once, in order. */
    ghost function Pick(k: nat, n: nat): seq<Out>
      requires n <= |lines|
    {
      if n == 0 then [] else Pick(k, n - 1) + if Shown(k, n) then [Item(n)] else []
    }

    function Hits(n: nat): nat
      requires n <= |lines|
    {
      if n == 0 then 0 else Hits(n - 1) + if IsHit(n) then 1 else 0
    }

    /** The last hit among the first `k` lines; zero if there is none. */
    function LastHit(k: nat): (h: nat)
      requires k <= |lines|
      ensures h <= k && (h > 0 ==> IsHit(h)) && forall i | h < i <= k :: !IsHit(i)
    {
      if k == 0 then 0 else if IsHit(k) then k else LastHit(k - 1)
    }

    /** The last line shown by then. */
    function Last(k: nat): (l: nat)
      requires k <= |lines|
      ensures l <= k
    {
      var h := LastHit(k);
      if h == 0 then 0 else if h + o.after < k then h + o.after else k
    }

    /** How many lines are kept back by then. */
    function Kept(k: nat): (n: nat)
      requires k <= |lines|
      ensures n <= k
    {
      if Reach() < k - Last(k) then Reach() else k - Last(k)
    }

    function Items(a: nat, n: nat): seq<Out>
      requires a <= n <= |lines|
    {
      if a == n then [] else Items(a, n - 1) + [Item(n)]
    }

    /** That is: exactly the lines shown, with their own text and mark, in increasing order. */
    lemma {:induction false} PickIsThoseShown(k: nat, n: nat)
      requires n <= |lines|
      ensures forall x | x in Pick(k, n) :: x.Line? && 1 <= x.no <= n && x == Item(x.no) && Shown(k, x.no)
      ensures forall i | 1 <= i <= n && Shown(k, i) :: Item(i) in Pick(k, n)
      ensures forall p, q | 0 <= p < q < |Pick(k, n)| ::
        Pick(k, n)[p].Line? && Pick(k, n)[q].Line? && Pick(k, n)[p].no < Pick(k, n)[q].no
      decreases n
    {
      if n > 0 {
        PickIsThoseShown(k, n - 1);
        var (a, b) := (Pick(k, n - 1), Pick(k, n));
        forall p, q | 0 <= p < q < |b|
          ensures b[p].Line? && b[q].Line? && b[p].no < b[q].no
        {
          assert a[p] in a && a[p] == b[p];
          if q < |a| { assert b[q] == a[q]; }
        }
      }
    }

    // ── How the picture grows ────────────────────────────────────────

    lemma {:induction false} PickAgrees(k: nat, k': nat, n: nat)
      requires n <= |lines| && forall i | 1 <= i <= n :: Shown(k, i) == Shown(k', i)
      ensures Pick(k, n) == Pick(k', n)
    {
      if n > 0 { PickAgrees(k, k', n - 1); }
    }

    lemma {:induction false} PickNone(k: nat, a: nat, n: nat)
      requires a <= n <= |lines| && forall i | a < i <= n :: !Shown(k, i)
      ensures Pick(k, n) == Pick(k, a)
    {
      if n > a { PickNone(k, a, n - 1); }
    }

    lemma {:induction false} PickAll(k: nat, a: nat, n: nat)
      requires a <= n <= |lines| && forall i | a < i <= n :: Shown(k, i)
      ensures Pick(k, n) == Pick(k, a) + Items(a, n)
    {
      if n > a { PickAll(k, a, n - 1); }
    }

    /** What is shown by then lies before the last line shown; behind the last hit's reach
        nothing is. */
    lemma ShownUpTo(k: nat, i: nat)
      requires k <= |lines| && i <= k && Shown(k, i)
      ensures i <= Last(k)
    {
    }

    /** A line that is no hit shows itself exactly if the last hit reaches it. */
    lemma Miss(k: nat)
      requires k < |lines| && !IsHit(k + 1)
      ensures LastHit(k + 1) == LastHit(k)
      ensures Pick(k + 1, k + 1) ==
        Pick(k, k) + if LastHit(k) > 0 && k + 1 <= LastHit(k) + o.after then [Item(k + 1)] else []
    {
      forall i | 1 <= i <= k + 1
        ensures Shown(k + 1, i) == Shown(k, i)
      {
      }
      PickAgrees(k + 1, k, k);
      var h := LastHit(k);
      if h > 0 && k + 1 <= h + o.after {
        assert h - Reach() <= k + 1 <= h + o.after;
        assert Shown(k, k + 1);
      } else {
        assert !Shown(k, k + 1);
      }
    }

    /** A hit shows the lines kept back and itself. */
    lemma Hit(k: nat)
      requires k < |lines| && IsHit(k + 1)
      ensures LastHit(k + 1) == k + 1
      ensures Pick(k + 1, k + 1) == Pick(k, k) + Items(k - Kept(k), k) + [Item(k + 1)]
    {
      var from, now := k - Kept(k), k + 1;
      forall i | 1 <= i <= from
        ensures Shown(now, i) == Shown(k, i)
      {
        EarlierStays(k, i);
      }
      PickAgrees(k + 1, k, from);
      forall i | from < i <= now
        ensures Shown(now, i)
      {
        assert IsHit(k + 1) && k + 1 - Reach() <= i <= k + 1 + o.after;
      }
      PickAll(k + 1, from, k);
      forall i | from < i <= k
        ensures !Shown(k, i)
      {
        if Shown(k, i) { ShownUpTo(k, i); }
      }
      PickNone(k, from, k);
    }

    lemma EarlierStays(k: nat, i: nat)
      requires k < |lines| && IsHit(k + 1) && 1 <= i <= k - Kept(k)
      ensures Shown(k + 1, i) == Shown(k, i)
    {
    }
  }

  // ── The loop ───────────────────────────────────────────────────────

  /** A place in a ring of `size`, for a number that is less than two rounds. */
  function Around(x: nat, size: nat): (r: nat)
    requires 0 < size && x < 2 * size
    ensures r < size && r == x % size
  {
    if x < size then x else RoundOff(x, size); x - size
  }

  lemma RoundOff(x: nat, size: nat)
    requires 0 < size <= x < 2 * size
    ensures x % size == x - size
  {
    assert x == size + (x - size);
  }

  /** Where the `t`-th of the `n` lines kept back stands. */
  function Place(head: nat, n: nat, size: nat, t: nat): (p: nat)
    requires 0 < size && head < size && t < n <= size
    ensures p < size
  {
    Around(head + size - n + t, size)
  }

  /** The ring holds the last `n` of the first `k` lines, oldest first. */
  ghost predicate Holds(no: seq<nat>, text: seq<string>, head: nat, n: nat, size: nat, k: nat, lines: seq<string>) {
    && size <= |no| == |text| && n <= k <= |lines| && n <= size && (size > 0 ==> head < size)
    && forall t | 0 <= t < n ::
         no[Place(head, n, size, t)] == k - n + 1 + t && text[Place(head, n, size, t)] == lines[k - n + t]
  }

  /** The next line takes the place of the oldest one once the ring is full. */
  lemma OneMoreKept(no: seq<nat>, text: seq<string>, head: nat, n: nat, size: nat, k: nat, lines: seq<string>)
    requires Holds(no, text, head, n, size, k, lines) && size > 0 && k < |lines|
    ensures Holds(no[head := k + 1], text[head := lines[k]], Around(head + 1, size),
                  if n < size then n + 1 else n, size,
                  k + 1, lines)
  {
    var head', n' := Around(head + 1, size), if n < size then n + 1 else n;
    forall t | 0 <= t < n'
      ensures var p := Place(head', n', size, t);
        no[head := k + 1][p] == k + 1 - n' + 1 + t && text[head := lines[k]][p] == lines[k + 1 - n' + t]
    {
      if t < n' - 1 {
        var was := if n < size then t else t + 1;
        assert Place(head', n', size, t) == Place(head, n, size, was) != head;
        assert no[Place(head, n, size, was)] == k - n + 1 + was;
      }
    }
  }

  class Grepper {
    const input: Input
    const ring: array<string>
    const ringNo: array<nat>
    var ringN: nat
    var ringHead: nat
    var afterLeft: nat
    var lastShown: nat
    var anyOutput: bool
    var out: seq<Out>

    constructor (input: Input)
      ensures this.input == input && fresh(ring) && fresh(ringNo) && out == []
      ensures State(0)
    {
      this.input := input;
      ring := new string[CTX_MAX](_ => "");
      ringNo := new nat[CTX_MAX];
      ringN, ringHead, afterLeft, lastShown, anyOutput, out := 0, 0, 0, 0, false, [];
    }

    /** The ring, the countdown and the last line shown are as the first `k` lines make
        them, and what was printed is what they show. */
    ghost predicate State(k: nat)
      reads this, ring, ringNo
    {
      && k <= |input.lines| && ring.Length == CTX_MAX && ringNo.Length == CTX_MAX
      && lastShown == input.Last(k) && ringN == input.Kept(k)
      && afterLeft == (if input.LastHit(k) == 0 then 0 else input.LastHit(k) + input.o.after - lastShown)
      && Holds(ringNo[..], ring[..], ringHead, ringN, input.Reach(), k, input.lines)
      && LinesOf(out) == input.Pick(k, k)
    }

    method Emit(no: nat, text: string, mark: char)
      modifies `out
      ensures out == old(out) + [Line(no, text, mark)] && LinesOf(out) == LinesOf(old(out)) + [Line(no, text, mark)]
    {
      out := out + [Line(no, text, mark)];
      assert out[..|out| - 1] == old(out);
    }

    /** With less to print than lines, nothing is ever owed. */
    ghost predicate Idle()
      reads this
    {
      && ring.Length == CTX_MAX && ringNo.Length == CTX_MAX && afterLeft == 0 && out == []
      && ringN <= input.Reach() && (input.Reach() > 0 ==> ringHead < input.Reach())
    }

    /** A line that is no hit: it is still owed to the last one, or it is kept back. */
    method Missed(k: nat, plain: bool)
      requires k < |input.lines| && !input.IsHit(k + 1) && if plain then State(k) else Idle()
      modifies this, ring, ringNo
      ensures if plain then State(k + 1) else Idle()
    {
      hide Holds, Input.Pick, LinesOf;
      var before := input.Reach();
      ghost var no: seq<nat>, text := ringNo[..], ring[..];
      if plain {
        input.Miss(k);
        Window(k);
        HeadFits(no, text, ringHead, ringN, before, k, input.lines);
        NothingKept(no, text, ringHead, before, k + 1, input.lines);
      }
      if afterLeft > 0 && plain {
        Emit(k + 1, input.lines[k], '-');
        lastShown := k + 1;
        afterLeft := afterLeft - 1;
      } else if before > 0 {
        if plain { OneMoreKept(no, text, ringHead, ringN, before, k, input.lines); }
        ring[ringHead] := input.lines[k];
        ringNo[ringHead] := k + 1;
        assert ringNo[..] == no[ringHead := k + 1] && ring[..] == text[ringHead := input.lines[k]];
        ringHead := Around(ringHead + 1, before);
        if ringN < before { ringN := ringN + 1; }
      }
    }

    /** A hit: the lines kept back come out, then the line itself, and what follows is owed. */
    method Matched(k: nat)
      requires State(k) && k < |input.lines| && input.IsHit(k + 1)
      modifies this
      ensures State(k + 1)
    {
      hide Holds, Input.Pick, LinesOf, Input.Items;
      var before := input.Reach();
      input.Hit(k);
      HeadFits(ringNo[..], ring[..], ringHead, ringN, before, k, input.lines);
      if (input.o.before > 0 || input.o.after > 0) && anyOutput && lastShown > 0 && k + 1 > lastShown + 1 {
        out := out + [Gap];
        GapIsNoLine(old(out));
      }
      PrintKept(k);
      ringN := 0;
      Emit(k + 1, input.lines[k], ':');
      lastShown := k + 1;
      anyOutput := true;
      afterLeft := input.o.after;
      NothingKept(ringNo[..], ring[..], ringHead, before, k + 1, input.lines);
    }

    method PrintKept(k: nat)
      requires k <= |input.lines| && ring.Length == CTX_MAX && ringNo.Length == CTX_MAX
      requires Holds(ringNo[..], ring[..], ringHead, ringN, input.Reach(), k, input.lines)
      requires lastShown <= k - ringN && forall i | k - ringN < i <= k :: !input.IsHit(i)
      modifies `out
      ensures LinesOf(out) == LinesOf(old(out)) + input.Items(k - ringN, k)
    {
      hide LinesOf;
      var before := input.Reach();
      for i := 0 to ringN
        invariant LinesOf(out) == LinesOf(old(out)) + input.Items(k - ringN, k - ringN + i)
      {
        var at := Place(ringHead, ringN, before, i);
        assert ringNo[..][at] == k - ringN + 1 + i && ring[..][at] == input.lines[k - ringN + i];
        if ringNo[at] > lastShown { Emit(ringNo[at], ring[at], '-'); }
      }
    }

    /** Reads the whole file. What is printed are the lines in some hit's context, once each
        and in order, and the hits are counted; the options that say less print less. */
    method GrepFd() returns (hits: nat)
      requires State(0) && out == []
      modifies this, ring, ringNo
      ensures !input.o.namesOnly || input.o.quiet || input.o.countOnly ==> hits == input.Hits(|input.lines|)
      ensures input.o.quiet || input.o.countOnly ==> out == []
      ensures input.o.namesOnly && !input.o.quiet && !input.o.countOnly ==>
        if input.LastHit(|input.lines|) == 0 then hits == 0 && out == [] else hits == 1 && out == [Name]
      ensures !input.o.namesOnly && !input.o.quiet && !input.o.countOnly ==>
        LinesOf(out) == input.Pick(|input.lines|, |input.lines|)
    {
      hide Holds, Input.Pick, LinesOf;
      var silent := input.o.quiet || input.o.countOnly;
      HeadFits(ringNo[..], ring[..], ringHead, ringN, input.Reach(), 0, input.lines);
      hits := 0;
      for k := 0 to |input.lines|
        invariant hits == input.Hits(k) && (!silent && !input.o.namesOnly ==> State(k))
        invariant silent || input.o.namesOnly ==> Idle()
        invariant !silent && input.o.namesOnly ==> input.LastHit(k) == 0 && hits == 0
      {
        hide Holds, Input.Pick, LinesOf;
        var hit := input.matches(input.lines[k]) != input.o.invert;
        if !hit {
          Missed(k, !silent && !input.o.namesOnly);
          continue;
        }
        hits := hits + 1;
        if silent { continue; }
        if input.o.namesOnly {
          out := out + [Name];
          assert input.IsHit(k + 1);
          return;
        }
        Matched(k);
      }
    }

    lemma Window(k: nat)
      requires k < |input.lines| && !input.IsHit(k + 1)
      ensures var h := input.LastHit(k);
        if h > 0 && k + 1 <= h + input.o.after
        then input.Last(k) == k && input.Last(k + 1) == k + 1 && input.Kept(k) == 0 && input.Kept(k + 1) == 0
        else
          && input.Last(k + 1) == input.Last(k)
          && input.Kept(k + 1) == if input.Kept(k) < input.Reach() then input.Kept(k) + 1 else input.Kept(k)
    {
    }
  }

  /** The lines among what was printed. */
  function LinesOf(out: seq<Out>): seq<Out> {
    if out == [] then []
    else LinesOf(out[..|out| - 1]) + if out[|out| - 1].Line? then [out[|out| - 1]] else []
  }

  lemma GapIsNoLine(out: seq<Out>)
    ensures LinesOf(out + [Gap]) == LinesOf(out)
  {
    assert (out + [Gap])[..|out|] == out;
  }

  lemma NothingKept(no: seq<nat>, text: seq<string>, head: nat, size: nat, k: nat, lines: seq<string>)
    requires size <= |no| == |text| && k <= |lines| && (size > 0 ==> head < size)
    ensures Holds(no, text, head, 0, size, k, lines)
  {
  }

  lemma HeadFits(no: seq<nat>, text: seq<string>, head: nat, n: nat, size: nat, k: nat, lines: seq<string>)
    requires Holds(no, text, head, n, size, k, lines)
    ensures size > 0 ==> head < size
  {
  }
}
