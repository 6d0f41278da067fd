/** What each key does to an editor, as functions on its whole state: the text, the cursor, the
    mark, the clipboard and both histories. */
module EditKeys {
  import opened Optional
  import opened Octets
  import opened EditLines
  import opened EditHistory

  const CLIP_MAX := 256 * 1024

  /** A byte inside a UTF-8 character. */
  predicate Inside(c: Byte) { 128 <= c < 192 }

  /** Where the character that ends before `idx` starts. */
  function PrevChar(s: Line, idx: nat): (i: nat)
    requires idx <= |s|
    ensures i <= idx && (0 < idx ==> i < idx)
  {
    if idx == 0 then 0 else StepBack(s, idx - 1, 0)
  }

  function StepBack(s: Line, i: nat, back: nat): (r: nat)
    requires i < |s|
    ensures r <= i
  {
    if 0 < i && back < 3 && Inside(s[i]) then StepBack(s, i - 1, back + 1) else i
  }

  /** Where the character at `idx` ends. */
  function NextChar(s: Line, idx: nat): (i: nat)
    requires idx < |s|
    ensures idx < i <= |s|
  {
    var c := s[idx];
    var n := if c < 128 then 1 else if 192 <= c < 224 then 2 else if 224 <= c < 240 then 3
      else if 240 <= c < 248 then 4 else 1;
    if idx + n > |s| then |s| else idx + n
  }

  /** The nearest place in the buffer, not inside a character. */
  function Clamped(buf: seq<Line>, p: Pos): (q: Pos)
    requires buf != []
    ensures Within(buf, q)
  {
    var y := if p.y >= |buf| then |buf| - 1 else if p.y < 0 then 0 else p.y;
    var l := buf[y];
    var x := if p.x > |l| then |l| else if p.x < 0 then 0 else p.x;
    Pos(y, if 0 < x < |l| && Inside(l[x]) then PrevChar(l, x) else x)
  }

  /** The text a record's lines would take the place of. */
  function Swapped(c: Change, buf: seq<Line>): seq<Byte> {
    if 0 <= c.at && c.at + c.nremove <= |buf| then Joined(buf[c.at..c.at + c.nremove]) else []
  }

  /** What a key asks for. Moving covers every key that only moves the cursor, and
      searching; replacing is one answer at the replace prompt. */
  datatype Key =
    | Text(bytes: seq<Byte>) | Rub(forward: bool) | Enter | Mark | Copy | Cut | Paste | CutLine | Undo | Redo
    | Move(to: Pos) | ReplaceOne(plen: nat, rep: seq<Byte>) | ReplaceAll(pat: seq<Byte>, rep: seq<Byte>)
  {
    predicate RemovesSelection() { Text? || Enter? || Paste? }
    predicate UsesMark() { Rub? || Copy? || Cut? }
    predicate ReadsMark() { RemovesSelection() || UsesMark() }
  }

  function IndentFrom(l: Line, x: nat, i: nat): (r: nat)
    requires i <= x <= |l|
    ensures i <= r <= x
    decreases x - i
  {
    if i < x && (l[i] == 32 || l[i] == 9) then IndentFrom(l, x, i + 1) else i
  }

  /** How much white space a line starts with, before column `x`. */
  function Indent(l: Line, x: nat): (i: nat)
    requires x <= |l|
    ensures i <= x
  {
    IndentFrom(l, x, 0)
  }

  // ── Occurrences ────────────────────────────────────────────────────

  /** `pat` stands at `at`. */
  predicate Occurs(l: Line, pat: seq<Byte>, at: int) {
    0 <= at && at + |pat| <= |l| && l[at..at + |pat|] == pat
  }

  /** The first place at or after `from` where `pat` stands, or -1. */
  method FindFwd(hay: Line, pat: seq<Byte>, from: nat) returns (at: int)
    requires pat != []
    ensures at == -1 || (from <= at && Occurs(hay, pat, at))
    ensures forall i | from <= i && (at < 0 || i < at) :: !Occurs(hay, pat, i)
  {
    if |pat| > |hay| { return -1; }
    at := from;
    while at + |pat| <= |hay|
      invariant from <= at && forall i | from <= i < at :: !Occurs(hay, pat, i)
    {
      if hay[at..at + |pat|] == pat { return; }
      at := at + 1;
    }
    at := -1;
  }

  /** A text with every occurrence replaced, left to right; what is put in is not searched again. */
  function Replaced(s: seq<Byte>, pat: seq<Byte>, rep: seq<Byte>): seq<Byte> {
    if s == [] || pat == [] then s
    else if Occurs(s, pat, 0) then rep + Replaced(s[|pat|..], pat, rep)
    else [s[0]] + Replaced(s[1..], pat, rep)
  }

  /** Line `k` of the buffer with every occurrence from the cursor on replaced. */
  function ReplacedLine(buf: seq<Line>, p: Pos, pat: seq<Byte>, rep: seq<Byte>, k: nat): Line
    requires Within(buf, p) && k < |buf|
  {
    if k < p.y then buf[k]
    else if k == p.y then buf[k][..p.x] + Replaced(buf[k][p.x..], pat, rep)
    else Replaced(buf[k], pat, rep)
  }

  function ReplacedFrom(buf: seq<Line>, p: Pos, pat: seq<Byte>, rep: seq<Byte>): seq<Line>
    requires Within(buf, p)
  {
    seq(|buf|, k requires 0 <= k < |buf| => ReplacedLine(buf, p, pat, rep, k))
  }

  lemma {:induction false} ReplacedSkips(s: seq<Byte>, pat: seq<Byte>, rep: seq<Byte>, k: nat)
    requires k <= |s| && pat != [] && forall i | 0 <= i < k :: !Occurs(s, pat, i)
    ensures Replaced(s, pat, rep) == s[..k] + Replaced(s[k..], pat, rep)
  {
    if k == 0 {
      assert s[0..] == s;
    } else {
      assert !Occurs(s, pat, 0);
      NoneFrom(s, 1, k, pat);
      ReplacedSkips(s[1..], pat, rep, k - 1);
      assert s[..k] == [s[0]] + s[1..][..k - 1] && s[1..][k - 1..] == s[k..];
    }
  }

  lemma {:induction false} ReplacedClean(s: seq<Byte>, pat: seq<Byte>, rep: seq<Byte>)
    requires NL !in s && NL !in rep
    ensures NL !in Replaced(s, pat, rep)
  {
    if s != [] && pat != [] {
      ReplacedClean(if Occurs(s, pat, 0) then s[|pat|..] else s[1..], pat, rep);
    }
  }

  lemma NothingReplaced(l: Line, from: nat, pat: seq<Byte>, rep: seq<Byte>)
    requires from <= |l| && pat != [] && forall i | from <= i :: !Occurs(l, pat, i)
    ensures l[..from] + Replaced(l[from..], pat, rep) == l
    ensures from == 0 ==> Replaced(l, pat, rep) == l
  {
    NoneFrom(l, from, |l|, pat);
    ReplacedSkips(l[from..], pat, rep, |l| - from);
  }

  /** Every occurrence in one line from `from` on. */
  method LineReplace(l: Line, from: nat, pat: seq<Byte>, rep: seq<Byte>) returns (r: Line)
    requires from <= |l| && pat != []
    ensures r == l[..from] + Replaced(l[from..], pat, rep)
    ensures from == 0 ==> r == Replaced(l, pat, rep)
  {
    hide Replaced;
    r := l;
    var at: int := from;
    ghost var goal := l[..from] + Replaced(l[from..], pat, rep);
    while true
      invariant 0 <= at <= |r| && r[..at] + Replaced(r[at..], pat, rep) == goal
      decreases |r| - at
    {
      var a := FindFwd(r, pat, at);
      if a < 0 {
        NothingReplaced(r, at, pat, rep);
        break;
      }
      ReplacedFirst(r, at, a, pat, rep);
      r := r[..a] + rep + r[a + |pat|..];
      at := a + |rep|;
      assert r[..at] == r[..a] + rep;
    }
    if from == 0 { assert l[0..] == l; }
  }

  /** What replacing the first occurrence does to the text before and after it. */
  lemma ReplacedFirst(r: Line, at: nat, a: nat, pat: seq<Byte>, rep: seq<Byte>)
    requires at <= a && a + |pat| <= |r| && pat != [] && Occurs(r, pat, a)
    requires forall i | at <= i < a :: !Occurs(r, pat, i)
    ensures var r' := r[..a] + rep + r[a + |pat|..];
      r[..at] + Replaced(r[at..], pat, rep) == r'[..a + |rep|] + Replaced(r'[a + |rep|..], pat, rep)
  {
    hide Occurs, Replaced;
    NoneFrom(r, at, a, pat);
    OccursFrom(r, a, pat, 0);
    var rest := r[a + |pat|..];
    var tail := Replaced(rest, pat, rep);
    assert Replaced(r[a..], pat, rep) == rep + tail by {
      ReplacedHere(r[a..], pat, rep);
      assert r[a..][|pat|..] == rest;
    }
    assert Replaced(r[at..], pat, rep) == r[at..][..a - at] + (rep + tail) by {
      ReplacedSkips(r[at..], pat, rep, a - at);
      assert r[at..][a - at..] == r[a..];
    }
    ReplacedEnds(r, at, a, |pat|, rep, tail);
  }

  lemma NoneFrom(r: Line, at: nat, a: nat, pat: seq<Byte>)
    requires at <= a <= |r| && forall i | at <= i < a :: !Occurs(r, pat, i)
    ensures forall i | 0 <= i < a - at :: !Occurs(r[at..], pat, i)
  {
    forall i | 0 <= i < a - at
      ensures !Occurs(r[at..], pat, i)
    {
      OccursFrom(r, at, pat, i);
    }
  }

  lemma ReplacedEnds(r: Line, at: nat, a: nat, plen: nat, rep: seq<Byte>, tail: seq<Byte>)
    requires at <= a && a + plen <= |r|
    ensures var r' := r[..a] + rep + r[a + plen..];
      && r'[a + |rep|..] == r[a + plen..]
      && r[..at] + (r[at..][..a - at] + (rep + tail)) == r'[..a + |rep|] + tail
  {
    var r' := r[..a] + rep + r[a + plen..];
    assert r'[..a + |rep|] == r[..a] + rep && r[..a] == r[..at] + r[at..][..a - at];
  }

  lemma ReplacedHere(s: seq<Byte>, pat: seq<Byte>, rep: seq<Byte>)
    requires pat != [] && Occurs(s, pat, 0)
    ensures |pat| <= |s| && Replaced(s, pat, rep) == rep + Replaced(s[|pat|..], pat, rep)
  {
  }

  lemma OccursFrom(s: seq<Byte>, k: nat, pat: seq<Byte>, i: nat)
    requires k <= |s|
    ensures Occurs(s[k..], pat, i) <==> Occurs(s, pat, i + k)
    ensures Occurs(s, pat, i + k) ==> i + k + |pat| <= |s|
  {
    if i + k + |pat| <= |s| {
      assert s[k..][i..i + |pat|] == s[i + k..i + k + |pat|];
    }
  }

  /** Outside the lines that hold an occurrence nothing is replaced. */
  lemma OthersKept(buf: seq<Line>, p: Pos, pat: seq<Byte>, rep: seq<Byte>)
    requires Within(buf, p) && pat != []
    ensures var (a, b) := (FirstLine(buf, p, pat, 0), LastLineWith(buf, p, pat, |buf|));
      && (a <= b ==> p.y <= a)
      && forall k | p.y <= k < |buf| && !(a <= k <= b) :: ReplacedLine(buf, p, pat, rep, k) == buf[k]
  {
    hide Replaced, Occurs;
    var (a, b) := (FirstLine(buf, p, pat, 0), LastLineWith(buf, p, pat, |buf|));
    forall k | p.y <= k < |buf| && !(a <= k <= b)
      ensures ReplacedLine(buf, p, pat, rep, k) == buf[k]
    {
      assert !LineHits(buf, p, pat, k);
      NothingReplaced(buf[k], if k == p.y then p.x else 0, pat, rep);
    }
  }

  /** Replacing touches the lines of its range only. */
  lemma ReplacedSplice(buf: seq<Line>, p: Pos, pat: seq<Byte>, rep: seq<Byte>, first: nat, last: nat)
    requires Within(buf, p) && p.y <= first <= last < |buf|
    requires forall k | p.y <= k < |buf| && !(first <= k <= last) :: ReplacedLine(buf, p, pat, rep, k) == buf[k]
    ensures var after := ReplacedFrom(buf, p, pat, rep);
      after == Splice(buf, first, last - first + 1, after[first..last + 1])
  {
  }

  /** The pattern stands somewhere on line `k`, from the cursor on. */
  ghost predicate LineHits(buf: seq<Line>, p: Pos, pat: seq<Byte>, k: nat)
    requires k < |buf|
  {
    p.y <= k && exists at :: (if k == p.y then p.x else 0) <= at && Occurs(buf[k], pat, at)
  }

  /** The first line from `k` on where it does; behind the text if there is none. */
  ghost function FirstLine(buf: seq<Line>, p: Pos, pat: seq<Byte>, k: nat): (r: nat)
    requires k <= |buf|
    ensures k <= r <= |buf| && (r < |buf| ==> LineHits(buf, p, pat, r))
    ensures forall i | k <= i < r :: !LineHits(buf, p, pat, i)
    decreases |buf| - k
  {
    if k == |buf| || LineHits(buf, p, pat, k) then k else FirstLine(buf, p, pat, k + 1)
  }

  /** The last line before `k` where it does; -1 if there is none. */
  ghost function LastLineWith(buf: seq<Line>, p: Pos, pat: seq<Byte>, k: nat): (r: int)
    requires k <= |buf|
    ensures -1 <= r < k && (0 <= r ==> LineHits(buf, p, pat, r))
    ensures forall i | r < i < k :: !LineHits(buf, p, pat, i)
  {
    if k == 0 || LineHits(buf, p, pat, k - 1) then k - 1 else LastLineWith(buf, p, pat, k - 1)
  }

  ghost predicate Finds(buf: seq<Line>, p: Pos, pat: seq<Byte>) {
    exists k: nat | k < |buf| :: LineHits(buf, p, pat, k)
  }

  // ── Newlines inside lines ──────────────────────────────────────────

  /** Text put into a line leaves every line without newlines exactly if it holds none. */
  lemma PutInStaysClean(buf: seq<Line>, y: nat, a: nat, b: nat, s: seq<Byte>)
    requires Clean(buf) && y < |buf| && a <= b <= |buf[y]|
    ensures var l := buf[y]; Clean(buf[y := l[..a] + s + l[b..]]) <==> NL !in s
  {
    var l := buf[y];
    var r := l[..a] + s + l[b..];
    assert buf[y := r][y] == r;
    if NL in s {
      var i :| 0 <= i < |s| && s[i] == NL;
      assert r[a + i] == NL;
    }
  }

  lemma LineStaysClean(buf: seq<Line>, p: Pos, pat: seq<Byte>, rep: seq<Byte>, k: nat)
    requires Clean(buf) && Within(buf, p) && k < |buf| && NL !in rep
    ensures NL !in ReplacedLine(buf, p, pat, rep, k)
  {
    hide Replaced;
    var from := if k == p.y then p.x else 0;
    ReplacedClean(buf[k], pat, rep);
    ReplacedClean(buf[k][from..], pat, rep);
  }

  /** Where the pattern stands the replacement is put in. */
  lemma {:induction false} PutsRep(s: seq<Byte>, pat: seq<Byte>, rep: seq<Byte>, at: nat)
    requires pat != [] && Occurs(s, pat, at) && NL in rep
    ensures NL in Replaced(s, pat, rep)
    decreases at
  {
    if !Occurs(s, pat, 0) {
      OccursFrom(s, 1, pat, at - 1);
      PutsRep(s[1..], pat, rep, at - 1);
      assert NL in [s[0]] + Replaced(s[1..], pat, rep);
    } else {
      assert NL in rep + Replaced(s[|pat|..], pat, rep);
    }
  }

  lemma PutsNewlineIn(buf: seq<Line>, p: Pos, pat: seq<Byte>, rep: seq<Byte>, i: nat, at: nat)
    requires Within(buf, p) && pat != [] && NL in rep && p.y <= i < |buf|
    requires (if i == p.y then p.x else 0) <= at && Occurs(buf[i], pat, at)
    ensures NL in ReplacedLine(buf, p, pat, rep, i)
  {
    hide Replaced, Occurs;
    if i == p.y {
      OccursFrom(buf[i], p.x, pat, at - p.x);
      PutsRep(buf[i][p.x..], pat, rep, at - p.x);
    } else {
      PutsRep(buf[i], pat, rep, at);
    }
  }

  /** So does replacing, unless nothing is found to be replaced. */
  lemma ReplacingStaysClean(buf: seq<Line>, p: Pos, pat: seq<Byte>, rep: seq<Byte>)
    requires Clean(buf) && Within(buf, p) && pat != []
    ensures Clean(ReplacedFrom(buf, p, pat, rep)) <==>
      NL !in rep || forall i, at | p.y <= i < |buf| && (if i == p.y then p.x else 0) <= at :: !Occurs(buf[i], pat, at)
  {
    hide Occurs, Replaced;
    var after := ReplacedFrom(buf, p, pat, rep);
    if NL !in rep {
      forall k | 0 <= k < |buf|
        ensures NL !in after[k]
      {
        LineStaysClean(buf, p, pat, rep, k);
      }
    } else {
      forall i, at | p.y <= i < |buf| && (if i == p.y then p.x else 0) <= at && Occurs(buf[i], pat, at)
        ensures !Clean(after)
      {
        PutsNewlineIn(buf, p, pat, rep, i, at);
        assert after[i] == ReplacedLine(buf, p, pat, rep, i);
      }
      if forall i, at | p.y <= i < |buf| && (if i == p.y then p.x else 0) <= at :: !Occurs(buf[i], pat, at) {
        forall k | 0 <= k < |buf|
          ensures NL !in after[k]
        {
          if k >= p.y { NothingReplaced(buf[k], if k == p.y then p.x else 0, pat, rep); }
        }
      }
    }
  }

  // ── The whole state ────────────────────────────────────────────────

  datatype Edit = Edit(buf: seq<Line>, cur: Pos, markOn: bool, mark: Pos, clip: seq<Byte>, typing: int,
                       undo: seq<Change>, redo: seq<Change>)
  {
    /** What every key can rely on. */
    ghost predicate InOrder() {
      && Good(buf) && Within(buf, cur)
      && (undo != [] ==> Fits(undo[|undo| - 1], buf)) && (redo != [] ==> Fits(redo[|redo| - 1], buf))
    }

    /** Where the selection begins and ends. */
    function Selected(): (Pos, Pos) { Ordered(mark, cur) }

    predicate Selects() { markOn && cur != mark }

    predicate MarkFits() { markOn ==> Within(buf, mark) }
  }

  function Ordered(mark: Pos, cur: Pos): (Pos, Pos) { if Before(mark, cur) then (mark, cur) else (cur, mark) }

  // ── What keys do to it ─────────────────────────────────────────────

  /** A record is made of lines about to be replaced. What was undone cannot be redone. */
  function Recorded(e: Edit, at: nat, nold: nat, mnew: nat): Edit
    requires at + nold <= |e.buf|
  {
    e.(typing := -1, redo := [], undo := Pushed(e.undo, [], Record(e.buf, at, nold, mnew, e.cur)).0)
  }

  /** Lines recorded and replaced. */
  function Rewritten(e: Edit, at: nat, nold: nat, add: seq<Line>): Edit
    requires at + nold <= |e.buf|
  {
    Recorded(e, at, nold, |add|).(buf := Splice(e.buf, at, nold, add))
  }

  /** The cursor's line typed on: recorded unless the run of typing has recorded it already. */
  function Retyped(e: Edit, l: Line, x: int): Edit
    requires Within(e.buf, e.cur)
  {
    var y := e.cur.y;
    var r := if e.typing == y then e else Recorded(e, y, 1, 1);
    r.(typing := y, buf := e.buf[y := l], cur := Pos(y, x))
  }

  function TextTyped(e: Edit, s: seq<Byte>): Edit
    requires Within(e.buf, e.cur)
  {
    var l, x := e.buf[e.cur.y], e.cur.x;
    Retyped(e, l[..x] + s + l[x..], x + |s|)
  }

  /** Line `at` and the one after it, if there is one, are joined. */
  function LinesJoined(e: Edit, at: int): Edit {
    if 0 <= at < |e.buf| - 1 then
      Rewritten(e, at, 2, [e.buf[at] + e.buf[at + 1]]).(cur := Pos(at, |e.buf[at]|))
    else e
  }

  /** At the start of the text nothing happens. */
  function ErasedBack(e: Edit): Edit
    requires Within(e.buf, e.cur)
  {
    var l, x := e.buf[e.cur.y], e.cur.x;
    if x > 0 then Retyped(e, l[..PrevChar(l, x)] + l[x..], PrevChar(l, x)) else LinesJoined(e, e.cur.y - 1)
  }

  /** At the end of the text nothing happens. */
  function ErasedAhead(e: Edit): Edit
    requires Within(e.buf, e.cur)
  {
    var l, x := e.buf[e.cur.y], e.cur.x;
    if x < |l| then Retyped(e, l[..x] + l[NextChar(l, x)..], x) else LinesJoined(e, e.cur.y)
  }

  function LineSplit(e: Edit): Edit
    requires Within(e.buf, e.cur)
  {
    var y, x := e.cur.y, e.cur.x;
    var l := e.buf[y];
    if |e.buf| == MAX_LINES then e
    else Rewritten(e, y, 1, [l[..x], l[..Indent(l, x)] + l[x..]]).(cur := Pos(y + 1, Indent(l, x)))
  }

  /** The text of the selection, if there is one and the clipboard can hold it. */
  function Taken(e: Edit): Option<seq<Byte>>
    requires Within(e.buf, e.cur) && e.MarkFits()
  {
    if !e.Selects() then None
    else
      var t := Joined(Region(e.buf, e.Selected().0, e.Selected().1));
      if |t| < CLIP_MAX then Some(t) else None
  }

  function SelectionGone(e: Edit): Edit
    requires Within(e.buf, e.cur) && e.MarkFits()
  {
    if !e.Selects() then e
    else
      var (p, q) := e.Selected();
      Rewritten(e.(cur := p), p.y, q.y - p.y + 1, [e.buf[p.y][..p.x] + e.buf[q.y][q.x..]]).(markOn := false)
  }

  function LineGone(e: Edit): Edit
    requires Within(e.buf, e.cur)
  {
    var r := Rewritten(e, e.cur.y, 1, if |e.buf| == 1 then [[]] else []);
    r.(cur := Pos(if e.cur.y < |r.buf| then e.cur.y else |r.buf| - 1, 0))
  }

  /** The line goes, to the clipboard with its line break if that holds it. */
  function LineCut(e: Edit): Edit
    requires Within(e.buf, e.cur)
  {
    var t := e.buf[e.cur.y] + [NL];
    LineGone(if |t| <= CLIP_MAX then e.(clip := t) else e)
  }

  function ClipPasted(e: Edit): Edit
    requires Within(e.buf, e.cur)
  {
    var l, x := e.buf[e.cur.y], e.cur.x;
    var add := Parts(l[..x] + e.clip + l[x..], 0, 1 + Breaks(e.clip));
    if e.clip == [] || |e.buf| + Breaks(e.clip) > MAX_LINES then e
    else Rewritten(e, e.cur.y, 1, add).(cur := AfterPaste(e.cur, e.clip))
  }

  /** The last record is applied, and its inverse can be applied instead. */
  function Undone(e: Edit): Edit
    requires e.undo != [] ==> Fits(e.undo[|e.undo| - 1], e.buf)
  {
    if e.undo == [] then e
    else
      var n := |e.undo| - 1;
      var p := Turned(e, e.undo[n], e.redo, e.undo[..n]);
      p.0.(redo := p.1, undo := p.2)
  }

  function Redone(e: Edit): Edit
    requires e.redo != [] ==> Fits(e.redo[|e.redo| - 1], e.buf)
  {
    if e.redo == [] then e
    else
      var n := |e.redo| - 1;
      var p := Turned(e, e.redo[n], e.undo, e.redo[..n]);
      p.0.(undo := p.1, redo := p.2)
  }

  /** A record taken off one stack and applied, with its inverse pushed on the other. */
  function Turned(e: Edit, c: Change, dest: seq<Change>, src: seq<Change>): (Edit, seq<Change>, seq<Change>)
    requires Fits(c, e.buf)
  {
    var buf := Applied(c, e.buf);
    var p := Pushed(dest, src, Record(e.buf, c.at, c.nremove, c.nadd, e.cur));
    (e.(buf := buf, cur := Clamped(buf, Pos(c.cy, c.cx)), typing := -1), p.0, p.1)
  }

  /** Any place in the text can be moved to. */
  function Moved(e: Edit, to: Pos): Edit
    requires e.buf != []
  {
    e.(cur := if Within(e.buf, to) then to else Clamped(e.buf, to))
  }

  /** One occurrence replaced where the cursor stands. */
  function OneReplaced(e: Edit, plen: nat, rep: seq<Byte>): Edit
    requires Within(e.buf, e.cur) && e.cur.x + plen <= |e.buf[e.cur.y]|
  {
    var y, x := e.cur.y, e.cur.x;
    var l := e.buf[y];
    Recorded(e, y, 1, 1).(buf := e.buf[y := l[..x] + rep + l[x + plen..]], cur := Pos(y, x + |rep|))
  }

  /** Every occurrence from the cursor on replaced, recorded as one range of lines. */
  ghost function RestReplaced(e: Edit, pat: seq<Byte>, rep: seq<Byte>): Edit
    requires Within(e.buf, e.cur)
  {
    var (first, last) := (FirstLine(e.buf, e.cur, pat, 0), LastLineWith(e.buf, e.cur, pat, |e.buf|));
    var buf := ReplacedFrom(e.buf, e.cur, pat, rep);
    var r := if first <= last then Recorded(e, first, last - first + 1, last - first + 1).(buf := buf) else e;
    r.(cur := Clamped(r.buf, e.cur))
  }

  /** Text and line breaks are put where the selection was. */
  function Freed(e: Edit, k: Key): Edit
    requires Within(e.buf, e.cur) && (k.ReadsMark() ==> e.MarkFits())
  {
    if k.RemovesSelection() then SelectionGone(e) else e
  }

  /** What a key does once the selection is gone. */
  ghost function Acted(e: Edit, k: Key): Edit
    requires Within(e.buf, e.cur) && (k.UsesMark() ==> e.MarkFits())
    requires k.Undo? || k.Redo? ==> e.InOrder()
  {
    match k
    case Text(bytes) => TextTyped(e, bytes)
    case Rub(ahead) => if e.markOn then SelectionGone(e) else if ahead then ErasedAhead(e) else ErasedBack(e)
    case Enter => LineSplit(e)
    case Mark => if e.markOn then e.(markOn := false) else e.(markOn := true, mark := e.cur)
    case Copy => if Taken(e).Some? then e.(clip := Taken(e).value, markOn := false) else e
    case Cut =>
      if !e.markOn then LineCut(e)
      else if Taken(e).Some? then SelectionGone(e.(clip := Taken(e).value)) else e
    case Paste => ClipPasted(e)
    case CutLine => LineCut(e)
    case Undo => Undone(e)
    case Redo => Redone(e)
    case Move(to) => Moved(e, to)
    case ReplaceOne(plen, rep) => if e.cur.x + plen <= |e.buf[e.cur.y]| then OneReplaced(e, plen, rep) else e
    case ReplaceAll(pat, rep) => if pat != [] then RestReplaced(e, pat, rep) else e
  }

  /** The key would put a newline inside a line: the bytes behind the first one of a
      character are taken as they come. */
  ghost predicate PutsNewline(e: Edit, k: Key)
    requires Within(e.buf, e.cur)
  {
    match k
    case Text(bytes) => NL in bytes
    case ReplaceOne(plen, rep) => NL in rep && e.cur.x + plen <= |e.buf[e.cur.y]|
    case ReplaceAll(pat, rep) => NL in rep && pat != [] && Finds(e.buf, e.cur, pat)
    case _ => false
  }

  /** The key reads no mark left behind and puts no newline inside a line. */
  ghost predicate Ready(e: Edit, k: Key)
    requires Within(e.buf, e.cur)
  {
    (k.ReadsMark() ==> e.MarkFits()) && !PutsNewline(e, k)
  }

  /** One key. All but typing and rubbing out end a run of typing. */
  ghost function Pressed(e: Edit, k: Key): Edit
    requires e.InOrder() && Ready(e, k)
  {
    FreedWithin(e, k);
    var r := Acted(Freed(e, k), k);
    if k.Text? || (k.Rub? && !e.markOn) then r else r.(typing := -1)
  }

  lemma FreedWithin(e: Edit, k: Key)
    requires Within(e.buf, e.cur) && (k.ReadsMark() ==> e.MarkFits())
    ensures Within(Freed(e, k).buf, Freed(e, k).cur)
    ensures !k.RemovesSelection() || !e.Selects() ==> Freed(e, k) == e
  {
    if k.RemovesSelection() && e.Selects() {
      var (p, q) := e.Selected();
      DeletedLine(e.buf, p, q);
    }
  }

  // ── Runs ───────────────────────────────────────────────────────────

  /** The states of a run, before each key and at its end. */
  ghost predicate IsRun(run: seq<Edit>, keys: seq<Key>) {
    && |run| == |keys| + 1
    && (forall i | 0 <= i < |run| :: run[i].InOrder())
    && forall i | 0 <= i < |keys| :: Ready(run[i], keys[i]) && run[i + 1] == Pressed(run[i], keys[i])
  }

  /** The text stood at some time in the run: before some key, or between its removing the
      selection and doing the rest. */
  ghost predicate Stood(run: seq<Edit>, keys: seq<Key>, buf: seq<Line>)
    requires IsRun(run, keys)
  {
    exists i | 0 <= i < |keys| :: buf == run[i].buf || buf == Freed(run[i], keys[i]).buf
  }

  /** There is one run only of given keys from a given state. */
  lemma {:induction false} OneRun(r: seq<Edit>, s: seq<Edit>, keys: seq<Key>)
    requires IsRun(r, keys) && IsRun(s, keys) && r[0] == s[0]
    ensures r == s
    decreases |keys|
  {
    hide Pressed, Ready, Edit.InOrder;
    if keys != [] {
      var n := |keys| - 1;
      RunStart(r, keys);
      RunStart(s, keys);
      OneRun(r[..n + 1], s[..n + 1], keys[..n]);
      assert r[n] == r[..n + 1][n] == s[..n + 1][n] == s[n];
      assert r == r[..n + 1] + [r[n + 1]] && s == s[..n + 1] + [s[n + 1]];
    } else {
      assert r == [r[0]] && s == [s[0]];
    }
  }

  lemma RunStart(run: seq<Edit>, keys: seq<Key>)
    requires IsRun(run, keys) && keys != []
    ensures IsRun(run[..|keys|], keys[..|keys| - 1])
  {
    hide Pressed, Ready, Edit.InOrder;
  }

  lemma RunGoesOn(run: seq<Edit>, keys: seq<Key>, k: Key)
    requires IsRun(run, keys) && Ready(run[|keys|], k) && Pressed(run[|keys|], k).InOrder()
    ensures IsRun(run + [Pressed(run[|keys|], k)], keys + [k])
    ensures forall buf | Stood(run, keys, buf) :: Stood(run + [Pressed(run[|keys|], k)], keys + [k], buf)
    ensures var more := run + [Pressed(run[|keys|], k)];
      Stood(more, keys + [k], run[|keys|].buf) && Stood(more, keys + [k], Freed(run[|keys|], k).buf)
  {
    hide Pressed, PutsNewline, Good, Fits, Freed;
    var n := |keys|;
    var more, ks := run + [Pressed(run[n], k)], keys + [k];
    forall i | 0 <= i < |ks|
      ensures Ready(more[i], ks[i]) && more[i + 1] == Pressed(more[i], ks[i])
    {
      if i < n { assert more[i] == run[i] && more[i + 1] == run[i + 1] && ks[i] == keys[i]; }
    }
    forall buf | Stood(run, keys, buf)
      ensures Stood(more, ks, buf)
    {
      var i :| 0 <= i < n && (buf == run[i].buf || buf == Freed(run[i], keys[i]).buf);
      assert more[i] == run[i] && ks[i] == keys[i];
    }
    assert more[n] == run[n] && ks[n] == k;
  }

  // ── What is recorded ───────────────────────────────────────────────

  /** However many keystrokes a run of typing takes, it is one record: typing more changes
      nothing in the histories, and comes to the same as typing all of it at once. */
  lemma TypingIsOneRecord(e: Edit, s: seq<Byte>, t: seq<Byte>)
    requires Within(e.buf, e.cur)
    ensures Within(TextTyped(e, s).buf, TextTyped(e, s).cur)
    ensures TextTyped(TextTyped(e, s), t) == TextTyped(e, s + t)
    ensures TextTyped(TextTyped(e, s), t).undo == TextTyped(e, s).undo
  {
    hide Pushed, Joined;
    var l, x, y := e.buf[e.cur.y], e.cur.x, e.cur.y;
    var m := l[..x] + s + l[x..];
    assert m[..x + |s|] == l[..x] + s && m[x + |s|..] == l[x..];
    assert l[..x] + s + t + l[x..] == l[..x] + (s + t) + l[x..];
    assert e.buf[y := m][y := l[..x] + (s + t) + l[x..]] == e.buf[y := l[..x] + (s + t) + l[x..]];
  }

  /** The record a key makes, once the selection is gone, if it makes one. */
  ghost function Records(e: Edit, k: Key): Option<Change>
    requires Within(e.buf, e.cur) && (k.UsesMark() ==> e.MarkFits())
  {
    var (y, x, n) := (e.cur.y, e.cur.x, |e.buf|);
    var line := Record(e.buf, y, 1, 1, e.cur);
    match k
    case Text(_) => if e.typing == y then None else Some(line)
    case Enter => if n == MAX_LINES then None else Some(Record(e.buf, y, 1, 2, e.cur))
    case Paste =>
      if e.clip == [] || n + Breaks(e.clip) > MAX_LINES then None
      else Some(Record(e.buf, y, 1, 1 + Breaks(e.clip), e.cur))
    case CutLine => Some(LineRecord(e))
    case ReplaceOne(plen, _) => if x + plen <= |e.buf[y]| then Some(line) else None
    case ReplaceAll(pat, _) =>
      var (a, b) := (FirstLine(e.buf, e.cur, pat, 0), LastLineWith(e.buf, e.cur, pat, n));
      if pat != [] && a <= b then Some(Record(e.buf, a, b - a + 1, b - a + 1, e.cur)) else None
    case Cut =>
      if !e.markOn then Some(LineRecord(e))
      else if Taken(e).Some? then Some(SelectionRecord(e)) else None
    case Rub(ahead) =>
      var at := if ahead then y else y - 1;
      if e.markOn then if e.Selects() then Some(SelectionRecord(e)) else None
      else if if ahead then x < |e.buf[y]| else x > 0 then if e.typing == y then None else Some(line)
      else if 0 <= at < n - 1 then Some(Record(e.buf, at, 2, 1, e.cur)) else None
    case _ => None
  }

  /** A line that is cut is recorded as gone, the only one as emptied. */
  function LineRecord(e: Edit): Change
    requires Within(e.buf, e.cur)
  {
    Record(e.buf, e.cur.y, 1, if |e.buf| == 1 then 1 else 0, e.cur)
  }

  function SelectionRecord(e: Edit): Change
    requires Within(e.buf, e.cur) && e.MarkFits() && e.Selects()
  {
    var (p, q) := e.Selected();
    Record(e.buf, p.y, q.y - p.y + 1, 1, p)
  }

  /** No key but undo and redo makes more than one record, and while depth and budget allow for
      that record nothing recorded before is forgotten. */
  lemma OneRecord(e: Edit, k: Key)
    requires Within(e.buf, e.cur) && (k.UsesMark() ==> e.MarkFits()) && !k.Undo? && !k.Redo?
    ensures match Records(e, k)
            case None => Acted(e, k).undo == e.undo && Acted(e, k).redo == e.redo
            case Some(c) =>
              && Acted(e, k).undo == Pushed(e.undo, [], c).0 && Acted(e, k).redo == []
              && (Takes(e.undo, [], |c.blob|) ==> Acted(e, k).undo == e.undo + [c])
  {
    hide Pushed, Takes, Acted, Records;
    if k.Rub? || k.Cut? {
      RubbedRecord(e, k);
    } else {
      PutRecord(e, k);
    }
    if Records(e, k).Some? {
      PushWithRoom(e.undo, Records(e, k).value);
    }
  }

  lemma RubbedRecord(e: Edit, k: Key)
    requires Within(e.buf, e.cur) && e.MarkFits() && (k.Rub? || k.Cut?)
    ensures match Records(e, k)
            case None => Acted(e, k).undo == e.undo && Acted(e, k).redo == e.redo
            case Some(c) => Acted(e, k).undo == Pushed(e.undo, [], c).0 && Acted(e, k).redo == []
  {
    hide Pushed, Joined, Splice, Region, PrevChar, NextChar;
  }

  lemma PutRecord(e: Edit, k: Key)
    requires Within(e.buf, e.cur) && !k.Undo? && !k.Redo? && !k.Rub? && !k.Cut? && (k.UsesMark() ==> e.MarkFits())
    ensures match Records(e, k)
            case None => Acted(e, k).undo == e.undo && Acted(e, k).redo == e.redo
            case Some(c) => Acted(e, k).undo == Pushed(e.undo, [], c).0 && Acted(e, k).redo == []
  {
    hide Pushed, Breaks, Joined, Parts, Splice, Region, Clamped, ReplacedFrom, LineHits, FirstLine, LastLineWith,
         AfterPaste,
         Indent;
  }

  lemma SelectionIsOneRecord(e: Edit)
    requires Within(e.buf, e.cur) && e.MarkFits() && e.Selects()
    ensures var c := SelectionRecord(e);
      && SelectionGone(e).undo == Pushed(e.undo, [], c).0 && SelectionGone(e).redo == []
      && (Takes(e.undo, [], |c.blob|) ==> SelectionGone(e).undo == e.undo + [c])
  {
    hide Pushed, Joined, Splice;
    PushWithRoom(e.undo, SelectionRecord(e));
  }

  lemma PushWithRoom(u: seq<Change>, c: Change)
    ensures Takes(u, [], |c.blob|) ==> Pushed(u, [], c).0 == u + [c]
  {
    hide Pushed, Held;
    if |u| < UNDO_MAX { PushKeepsBudget(u, [], c); }
  }

  /** Depth and budget allow for all that a key records. */
  ghost predicate Fitting(e: Edit, k: Key)
    requires Within(e.buf, e.cur) && (k.ReadsMark() ==> e.MarkFits())
  {
    FreedWithin(e, k);
    var m := Freed(e, k);
    && (k.RemovesSelection() && e.Selects() ==> Takes(e.undo, [], |SelectionRecord(e).blob|))
    && (Records(m, k).Some? ==> Takes(m.undo, [], |Records(m, k).value.blob|))
  }

  /** The lines that a key records are those that `add` takes the place of. */
  ghost predicate InPlace(e: Edit, k: Key, add: seq<Line>)
    requires Within(e.buf, e.cur) && (k.UsesMark() ==> e.MarkFits()) && !k.Undo? && !k.Redo?
    requires Records(e, k).Some?
  {
    var c := Records(e, k).value;
    && 0 <= c.at && c.at + c.nadd <= |e.buf| && |add| == c.nremove && 1 <= |e.buf| - c.nadd + |add| <= MAX_LINES
    && c == Record(e.buf, c.at, c.nadd, |add|, Pos(c.cy, c.cx))
    && Acted(e, k).buf == Splice(e.buf, c.at, c.nadd, add)
  }

  /** What a key records is just what it replaces. */
  lemma Replaces(e: Edit, k: Key) returns (add: seq<Line>)
    requires Good(e.buf) && Within(e.buf, e.cur) && (k.UsesMark() ==> e.MarkFits()) && !k.Undo? && !k.Redo?
    requires Records(e, k).Some?
    ensures InPlace(e, k, add)
  {
    hide Acted, Records, Splice, Good, Within;
    RecordingKeys(e, k);
    if k.Rub? || k.Cut? {
      add := RubReplaces(e, k);
    } else if k.ReplaceAll? {
      add := AllReplaces(e, k);
    } else {
      add := PutReplaces(e, k);
    }
  }

  lemma RecordingKeys(e: Edit, k: Key)
    requires Within(e.buf, e.cur) && (k.UsesMark() ==> e.MarkFits()) && Records(e, k).Some?
    ensures k.Text? || k.Enter? || k.Paste? || k.CutLine? || k.ReplaceOne? || k.ReplaceAll? || k.Rub? || k.Cut?
  {
  }

  lemma PutReplaces(e: Edit, k: Key) returns (add: seq<Line>)
    requires Good(e.buf) && Within(e.buf, e.cur)
    requires (k.Text? || k.Enter? || k.Paste? || k.CutLine? || k.ReplaceOne?) && Records(e, k).Some?
    ensures InPlace(e, k, add)
  {
    hide Pushed, Breaks, Joined, Parts, AfterPaste, Indent, Clean;
    var (l, x, y) := (e.buf[e.cur.y], e.cur.x, e.cur.y);
    if k.Enter? {
      add := [l[..x], l[..Indent(l, x)] + l[x..]];
    } else if k.Paste? {
      add := Parts(l[..x] + e.clip + l[x..], 0, 1 + Breaks(e.clip));
    } else if k.CutLine? {
      add := if |e.buf| == 1 then [[]] else [];
    } else {
      var after := Acted(e, k).buf[y];
      OneLinePut(e.buf, y, after);
      add := [after];
    }
  }

  lemma RubReplaces(e: Edit, k: Key) returns (add: seq<Line>)
    requires Good(e.buf) && Within(e.buf, e.cur) && e.MarkFits() && (k.Rub? || k.Cut?) && Records(e, k).Some?
    ensures InPlace(e, k, add)
  {
    hide InPlace, Acted, Records, Good, Within;
    if e.markOn {
      add := SelectionReplaces(e, k);
    } else if k.Cut? {
      add := CutReplaces(e, k);
    } else {
      add := CharReplaces(e, k);
    }
  }

  lemma SelectionReplaces(e: Edit, k: Key) returns (add: seq<Line>)
    requires Good(e.buf) && Within(e.buf, e.cur) && e.MarkFits() && (k.Rub? || k.Cut?) && Records(e, k).Some?
    requires e.markOn
    ensures InPlace(e, k, add)
  {
    hide Pushed, Joined, Region, Clean;
    var (p, q) := e.Selected();
    add := [e.buf[p.y][..p.x] + e.buf[q.y][q.x..]];
  }

  lemma CutReplaces(e: Edit, k: Key) returns (add: seq<Line>)
    requires Good(e.buf) && Within(e.buf, e.cur) && e.MarkFits() && k.Cut? && !e.markOn && Records(e, k).Some?
    ensures InPlace(e, k, add)
  {
    hide Pushed, Joined, Clean;
    add := if |e.buf| == 1 then [[]] else [];
  }

  lemma CharReplaces(e: Edit, k: Key) returns (add: seq<Line>)
    requires Good(e.buf) && Within(e.buf, e.cur) && e.MarkFits() && k.Rub? && !e.markOn && Records(e, k).Some?
    ensures InPlace(e, k, add)
  {
    hide Pushed, Joined, PrevChar, NextChar, Clean;
    var (y, c) := (e.cur.y, Records(e, k).value);
    if c.nadd == 2 {
      add := [e.buf[c.at] + e.buf[c.at + 1]];
    } else {
      var after := Acted(e, k).buf[y];
      OneLinePut(e.buf, y, after);
      add := [after];
    }
  }

  lemma AllReplaces(e: Edit, k: Key) returns (add: seq<Line>)
    requires Good(e.buf) && Within(e.buf, e.cur) && k.ReplaceAll? && Records(e, k).Some?
    ensures InPlace(e, k, add)
  {
    hide Pushed, Joined, Clamped, LineHits, ReplacedLine, Splice, Clean;
    var c := Records(e, k).value;
    OthersKept(e.buf, e.cur, k.pat, k.rep);
    ReplacedSplice(e.buf, e.cur, k.pat, k.rep, c.at, c.at + c.nadd - 1);
    add := ReplacedFrom(e.buf, e.cur, k.pat, k.rep)[c.at..c.at + c.nadd];
  }

  lemma OneLinePut(buf: seq<Line>, y: nat, l: Line)
    requires y < |buf|
    ensures buf[y := l] == Splice(buf, y, 1, [l])
  {
  }

  /** Undo takes back whatever the key before it did, if the budget can hold its record; if not,
      nothing is left to undo. */
  lemma UndoTakesBack(e: Edit, k: Key)
    requires e.InOrder() && Ready(e, k) && Freed(e, k) == e && |e.undo| <= UNDO_MAX && !k.Undo? && !k.Redo?
    requires Records(e, k).Some?
    ensures var (c, f) := (Records(e, k).value, Pressed(e, k));
      if |c.blob| <= UNDO_BYTES then
        && f.undo != [] && Fits(f.undo[|f.undo| - 1], f.buf)
        && Undone(f).buf == e.buf && Undone(f).cur == Clamped(e.buf, Pos(c.cy, c.cx))
      else f.undo == []
  {
    hide Pushed, Acted, Records, Good, Fits, Applied, Splice, PutsNewline, Clamped, Undone, Held, Tail;
    var (c, f) := (Records(e, k).value, Pressed(e, k));
    OneRecord(e, k);
    PushKeepsBudget(e.undo, [], c);
    var add := Replaces(e, k);
    RecordUndoes(e.buf, c.at, c.nadd, add, Pos(c.cy, c.cx));
    if |c.blob| <= UNDO_BYTES { TopIsUndone(f); }
  }

  lemma TopIsUndone(f: Edit)
    requires f.undo != [] && Fits(f.undo[|f.undo| - 1], f.buf)
    ensures var c := f.undo[|f.undo| - 1];
      Undone(f).buf == Applied(c, f.buf) != [] && Undone(f).cur == Clamped(Applied(c, f.buf), Pos(c.cy, c.cx))
  {
    hide Pushed, Fits, Clamped;
  }

  // ── Cutting and pasting back ───────────────────────────────────────

  /** Cutting the selection and pasting at once restores the text and leaves the cursor at the
      selection's end. */
  lemma CutPastesBack(e: Edit)
    requires Good(e.buf) && Within(e.buf, e.cur) && e.MarkFits() && Taken(e).Some?
    ensures var m := SelectionGone(e.(clip := Taken(e).value));
      && Within(m.buf, m.cur) && ClipPasted(m).buf == e.buf && ClipPasted(m).cur == e.Selected().1
  {
    hide Joined, Region, Breaks, AfterPaste, Pushed, Splice, Parts;
    var (p, q) := e.Selected();
    RegionNotEmpty(e.buf, p, q);
    RegionIsClean(e.buf, p, q);
    BreaksJoined(Region(e.buf, p, q));
    CutThenPaste(e.buf, p, q);
  }

  /** A region between two different places holds some text. */
  lemma RegionNotEmpty(buf: seq<Line>, p: Pos, q: Pos)
    requires Within(buf, p) && Within(buf, q) && Before(p, q) && p != q
    ensures Joined(Region(buf, p, q)) != [] && |Region(buf, p, q)| == q.y - p.y + 1
    ensures |Deleted(buf, p, q)| == |buf| - (q.y - p.y)
  {
  }

  // ── A mark left behind ─────────────────────────────────────────────

  /** The columns of line `i` that belong to a selection, as the editor takes them: up to where it
      ends on its last line, and on others to the end of the line. */
  function Columns(buf: seq<Line>, p: Pos, q: Pos, i: nat): (int, int)
    requires i < |buf|
  {
    (if i == p.y then p.x else 0, if i == q.y then q.x else |buf[i]|)
  }

  /** Line `i` is there, and the columns of it. */
  predicate LineReads(buf: seq<Line>, p: Pos, q: Pos, i: int) {
    0 <= i < |buf| && var (a, b) := Columns(buf, p, q, i); 0 <= a <= b <= |buf[i]|
  }

  /** Copying reads only lines, and columns of them, that are there. */
  ghost predicate CopyReads(buf: seq<Line>, p: Pos, q: Pos) { forall i | p.y <= i <= q.y :: LineReads(buf, p, q, i) }

  /** So does deleting: the first line up to where the selection begins, the last one from
      where it ends. */
  ghost predicate DeleteReads(buf: seq<Line>, p: Pos, q: Pos) {
    0 <= p.y < |buf| && 0 <= p.x <= |buf[p.y]| && 0 <= q.y < |buf| && 0 <= q.x <= |buf[q.y]|
  }

  /** Copying and deleting read what is not there exactly when the mark has been left behind. */
  lemma MarkDecides(e: Edit)
    requires Within(e.buf, e.cur) && e.markOn
    ensures CopyReads(e.buf, e.Selected().0, e.Selected().1) <==> e.MarkFits()
    ensures DeleteReads(e.buf, e.Selected().0, e.Selected().1) <==> e.MarkFits()
  {
    var (p, q) := e.Selected();
    if CopyReads(e.buf, p, q) {
      assert LineReads(e.buf, p, q, p.y) && LineReads(e.buf, p, q, q.y);
    }
  }
}
