/** Line buffers, and the text that undo records and the clipboard hold lines in. */
module EditLines {
  import opened Octets

  const NL: Byte := 10

  /** A line of the buffer. */
  type Line = seq<Byte>

  ghost predicate Clean(ls: seq<Line>) { forall i | 0 <= i < |ls| :: NL !in ls[i] }

  /** The buffer with `nremove` lines at `at` replaced by others. An editor always has
      a line: nothing at all becomes one empty line. */
  function Splice(buf: seq<Line>, at: int, nremove: int, add: seq<Line>): seq<Line>
    requires 0 <= at && 0 <= nremove && at + nremove <= |buf|
  {
    var r := buf[..at] + add + buf[at + nremove..];
    if r == [] then [[]] else r
  }

  /** Lines joined by newlines, none after the last. */
  function Joined(ls: seq<Line>): seq<Byte> {
    if ls == [] then []
    else if |ls| == 1 then ls[0]
    else ls[0] + [NL] + Joined(ls[1..])
  }

  /** Where the line that starts at `off` ends. */
  function LineEnd(blob: seq<Byte>, off: nat): (e: nat)
    ensures off <= e && (off <= |blob| ==> e <= |blob|)
    ensures forall i | off <= i < e :: i < |blob| && blob[i] != NL
    ensures e < |blob| ==> blob[e] == NL
    decreases |blob| - off
  {
    if off < |blob| && blob[off] != NL then LineEnd(blob, off + 1) else off
  }

  /** `n` lines read off a text from `off` on; past its end they are empty. */
  function Parts(blob: seq<Byte>, off: nat, n: nat): (ls: seq<Line>)
    ensures |ls| == n
    decreases n
  {
    if n == 0 then []
    else
      var e := LineEnd(blob, off);
      [if off <= |blob| then blob[off..e] else []] + Parts(blob, e + 1, n - 1)
  }

  function Breaks(s: seq<Byte>): nat {
    if s == [] then 0 else Breaks(s[..|s| - 1]) + if s[|s| - 1] == NL then 1 else 0
  }

  // ── Joining and reading back ───────────────────────────────────────

  lemma {:induction false} PartsAreClean(blob: seq<Byte>, off: nat, n: nat)
    ensures Clean(Parts(blob, off, n))
    decreases n
  {
    if n > 0 {
      PartsAreClean(blob, LineEnd(blob, off) + 1, n - 1);
    }
  }

  lemma LineEndAt(blob: seq<Byte>, off: nat, e: nat)
    requires off <= e <= |blob| && (forall i | off <= i < e :: blob[i] != NL) && (e == |blob| || blob[e] == NL)
    ensures LineEnd(blob, off) == e
  {
  }

  lemma {:induction false} JoinedReadsBack(pre: seq<Byte>, ls: seq<Line>)
    requires Clean(ls)
    ensures Parts(pre + Joined(ls), |pre|, |ls|) == ls
    decreases |ls|
  {
    var blob := pre + Joined(ls);
    if |ls| == 1 {
      LineEndAt(blob, |pre|, |blob|);
      assert blob[|pre|..] == ls[0] == blob[|pre|..|blob|];
      assert Parts(blob, |blob| + 1, 0) == [];
    } else if |ls| > 1 {
      var e := |pre| + |ls[0]|;
      assert blob[|pre|..e] == ls[0] && blob[e] == NL;
      LineEndAt(blob, |pre|, e);
      assert blob == (pre + ls[0] + [NL]) + Joined(ls[1..]);
      JoinedReadsBack(pre + ls[0] + [NL], ls[1..]);
    }
  }

  /** What a record captures comes back as it was exactly when no captured line holds
      a newline itself. */
  lemma CaptureReadsBack(ls: seq<Line>)
    ensures Parts(Joined(ls), 0, |ls|) == ls <==> Clean(ls)
  {
    PartsAreClean(Joined(ls), 0, |ls|);
    if Clean(ls) {
      assert [] + Joined(ls) == Joined(ls);
      JoinedReadsBack([], ls);
    }
  }

  lemma {:induction false} BreaksConcat(s: seq<Byte>, t: seq<Byte>)
    ensures Breaks(s + t) == Breaks(s) + Breaks(t)
  {
    if t == [] {
      assert s + t == s;
    } else {
      BreaksConcat(s, t[..|t| - 1]);
      assert (s + t)[..|s + t| - 1] == s + t[..|t| - 1];
    }
  }

  lemma {:induction false} NoBreaks(s: seq<Byte>)
    ensures Breaks(s) == 0 <==> NL !in s
  {
    if s != [] {
      NoBreaks(s[..|s| - 1]);
      assert s == s[..|s| - 1] + [s[|s| - 1]];
    }
  }

  /** Joining clean lines puts one newline between each two. */
  lemma {:induction false} BreaksJoined(ls: seq<Line>)
    requires Clean(ls) && ls != []
    ensures Breaks(Joined(ls)) == |ls| - 1
  {
    NoBreaks(ls[0]);
    if |ls| > 1 {
      BreaksJoined(ls[1..]);
      assert [NL][..0] == [];
      BreaksConcat(ls[0] + [NL], Joined(ls[1..]));
      BreaksConcat(ls[0], [NL]);
    }
  }

  lemma JoinedAfter(p: seq<Byte>, ls: seq<Line>)
    requires ls != []
    ensures p + Joined(ls) == Joined([p + ls[0]] + ls[1..])
  {
    if |ls| > 1 {
      assert ([p + ls[0]] + ls[1..])[1..] == ls[1..];
      assert p + (ls[0] + [NL] + Joined(ls[1..])) == (p + ls[0]) + [NL] + Joined(ls[1..]);
    }
  }

  lemma {:induction false} JoinedBefore(ls: seq<Line>, q: seq<Byte>)
    requires ls != []
    ensures Joined(ls) + q == Joined(ls[..|ls| - 1] + [ls[|ls| - 1] + q])
  {
    var r := ls[..|ls| - 1] + [ls[|ls| - 1] + q];
    if |ls| > 1 {
      JoinedBefore(ls[1..], q);
      assert ls[1..][..|ls| - 2] + [ls[|ls| - 1] + q] == r[1..];
      assert (ls[0] + [NL] + Joined(ls[1..])) + q == ls[0] + [NL] + (Joined(ls[1..]) + q);
    }
  }

  /** The last line of joined lines is what follows the last newline. */
  lemma {:induction false} JoinedEnd(ls: seq<Line>)
    requires ls != []
    ensures |ls[|ls| - 1]| <= |Joined(ls)|
    ensures Joined(ls)[|Joined(ls)| - |ls[|ls| - 1]|..] == ls[|ls| - 1]
    ensures |ls| > 1 ==> |ls[|ls| - 1]| < |Joined(ls)| && Joined(ls)[|Joined(ls)| - |ls[|ls| - 1]| - 1] == NL
  {
    if |ls| > 1 {
      JoinedEnd(ls[1..]);
    }
  }

  // ── Cutting and pasting ────────────────────────────────────────────

  /** A place in the buffer. */
  datatype Pos = Pos(y: int, x: int)

  predicate Within(buf: seq<Line>, p: Pos) { 0 <= p.y < |buf| && 0 <= p.x <= |buf[p.y]| }
  predicate Before(p: Pos, q: Pos) { p.y < q.y || (p.y == q.y && p.x <= q.x) }

  /** The lines of a region, the first from its start and the last up to its end. */
  function Region(buf: seq<Line>, p: Pos, q: Pos): seq<Line>
    requires Within(buf, p) && Within(buf, q) && Before(p, q)
  {
    if p.y == q.y then [buf[p.y][p.x..q.x]]
    else [buf[p.y][p.x..]] + buf[p.y + 1..q.y] + [buf[q.y][..q.x]]
  }

  function Deleted(buf: seq<Line>, p: Pos, q: Pos): seq<Line>
    requires Within(buf, p) && Within(buf, q) && Before(p, q)
  {
    Splice(buf, p.y, q.y - p.y + 1, [buf[p.y][..p.x] + buf[q.y][q.x..]])
  }

  function Pasted(buf: seq<Line>, p: Pos, clip: seq<Byte>): seq<Line>
    requires Within(buf, p)
  {
    var l := buf[p.y];
    Splice(buf, p.y, 1, Parts(l[..p.x] + clip + l[p.x..], 0, 1 + Breaks(clip)))
  }

  /** What follows the last newline of a text. */
  function LastLine(s: seq<Byte>): nat {
    if s == [] || s[|s| - 1] == NL then 0 else 1 + LastLine(s[..|s| - 1])
  }

  function AfterPaste(p: Pos, clip: seq<Byte>): Pos {
    if Breaks(clip) > 0 then Pos(p.y + Breaks(clip), LastLine(clip)) else Pos(p.y, p.x + |clip|)
  }

  lemma {:induction false} LastLineIs(s: seq<Byte>, k: nat)
    requires k <= |s| && NL !in s[|s| - k..] && (k == |s| || s[|s| - k - 1] == NL)
    ensures LastLine(s) == k
  {
    if k > 0 {
      assert s[|s| - k..][k - 1] == s[|s| - 1];
      var t := s[..|s| - 1];
      assert forall i | |t| - (k - 1) <= i < |t| :: t[i] == s[|s| - k..][i - (|s| - k)];
      LastLineIs(t, k - 1);
    }
  }

  lemma RegionIsClean(buf: seq<Line>, p: Pos, q: Pos)
    requires Clean(buf) && Within(buf, p) && Within(buf, q) && Before(p, q)
    ensures Clean(Region(buf, p, q))
  {
    var r := Region(buf, p, q);
    forall i | 0 <= i < |r|
      ensures NL !in r[i]
    {
      assert NL !in buf[p.y + i];
    }
  }

  /** What a region leaves of its first and last lines completes its text to whole lines. */
  lemma RegionCompleted(buf: seq<Line>, p: Pos, q: Pos)
    requires Within(buf, p) && Within(buf, q) && Before(p, q)
    ensures buf[p.y][..p.x] + Joined(Region(buf, p, q)) + buf[q.y][q.x..] == Joined(buf[p.y..q.y + 1])
  {
    var r, head, tail := Region(buf, p, q), buf[p.y][..p.x], buf[q.y][q.x..];
    var whole := buf[p.y..q.y + 1];
    if p.y == q.y {
      assert head + r[0] + tail == whole[0];
    } else {
      JoinedAfter(head, r);
      var s := [head + r[0]] + r[1..];
      assert head + r[0] == buf[p.y];
      assert r[1..] == buf[p.y + 1..q.y] + [buf[q.y][..q.x]];
      JoinedBefore(s, tail);
      assert s[..|s| - 1] == buf[p.y..q.y];
      assert s[|s| - 1] + tail == buf[q.y];
      assert s[..|s| - 1] + [s[|s| - 1] + tail] == whole;
    }
  }

  /** The line a cut leaves, and the lines around it. */
  lemma DeletedLine(buf: seq<Line>, p: Pos, q: Pos)
    requires Within(buf, p) && Within(buf, q) && Before(p, q)
    ensures var d := Deleted(buf, p, q); Within(d, p)
    ensures var d := Deleted(buf, p, q);
      && d[p.y][..p.x] == buf[p.y][..p.x] && d[p.y][p.x..] == buf[q.y][q.x..]
      && d[..p.y] == buf[..p.y] && d[p.y + 1..] == buf[q.y + 1..]
  {
    var d := Deleted(buf, p, q);
    assert d == buf[..p.y] + [buf[p.y][..p.x] + buf[q.y][q.x..]] + buf[q.y + 1..];
  }

  /** The last line of a region is its part of line `q.y`. */
  lemma RegionEnd(buf: seq<Line>, p: Pos, q: Pos)
    requires Clean(buf) && Within(buf, p) && Within(buf, q) && Before(p, q)
    ensures AfterPaste(p, Joined(Region(buf, p, q))) == q
  {
    hide Joined, Breaks, Region, LastLine;
    var r := Region(buf, p, q);
    var clip := Joined(r);
    RegionIsClean(buf, p, q);
    RegionAt(buf, p, q, q.y);
    BreaksJoined(r);
    JoinedEnd(r);
    var n := |r| - 1;
    if p.y < q.y {
      LastLineIs(clip, |r[n]|);
    } else {
      assert r == [r[0]] + [];
      JoinedStep(r[0], []);
    }
  }

  /** Cutting a region and pasting it where the cursor is left puts every line back
      and the cursor at the region's end. */
  lemma CutThenPaste(buf: seq<Line>, p: Pos, q: Pos)
    requires Clean(buf) && Within(buf, p) && Within(buf, q) && Before(p, q)
    ensures Within(Deleted(buf, p, q), p)
    ensures Pasted(Deleted(buf, p, q), p, Joined(Region(buf, p, q))) == buf
    ensures AfterPaste(p, Joined(Region(buf, p, q))) == q
  {
    hide Joined, Breaks, Region, Parts, Deleted, AfterPaste;
    var d, whole := Deleted(buf, p, q), buf[p.y..q.y + 1];
    DeletedLine(buf, p, q);
    RegionIsClean(buf, p, q);
    RegionAt(buf, p, q, p.y);
    BreaksJoined(Region(buf, p, q));
    RegionCompleted(buf, p, q);
    CaptureReadsBack(whole);
    assert d[..p.y] + whole + d[p.y + 1..] == buf;
    RegionEnd(buf, p, q);
  }

  lemma BreaksFrom(s: seq<Byte>, off: nat)
    requires off <= |s|
    ensures var e := LineEnd(s, off); Breaks(s[off..]) == if e < |s| then 1 + Breaks(s[e + 1..]) else 0
  {
    hide Breaks;
    var e := LineEnd(s, off);
    NoBreaks(s[off..e]);
    if e < |s| {
      BreaksAround(s[off..e], s[e + 1..]);
      assert s[off..e] + [NL] + s[e + 1..] == s[off..];
    } else {
      assert s[off..e] == s[off..];
    }
  }

  lemma BreaksAround(l: Line, t: seq<Byte>)
    requires Breaks(l) == 0
    ensures Breaks(l + [NL] + t) == 1 + Breaks(t)
  {
    BreaksConcat(l + [NL], t);
    assert (l + [NL])[..|l|] == l;
  }

  /** Cutting a text at all its newlines loses nothing. */
  lemma {:induction false} PartsJoinBack(s: seq<Byte>, off: nat)
    requires off <= |s|
    ensures Joined(Parts(s, off, 1 + Breaks(s[off..]))) == s[off..]
    decreases |s| - off
  {
    hide Breaks, Joined, Parts, LineEnd;
    var e := LineEnd(s, off);
    BreaksFrom(s, off);
    var n := Breaks(s[off..]);
    var more := Parts(s, e + 1, n);
    PartsStep(s, off, n);
    JoinedStep(s[off..e], more);
    if e < |s| {
      PartsJoinBack(s, e + 1);
      assert s[off..] == s[off..e] + [NL] + s[e + 1..];
    } else {
      assert s[off..e] == s[off..];
    }
  }

  lemma PartsStep(s: seq<Byte>, off: nat, n: nat)
    requires off <= |s|
    ensures var e := LineEnd(s, off); Parts(s, off, 1 + n) == [s[off..e]] + Parts(s, e + 1, n)
  {
  }

  lemma JoinedOne(ls: seq<Line>)
    requires |ls| == 1
    ensures Joined(ls) == ls[0]
  {
  }

  lemma AllPartsJoin(s: seq<Byte>)
    ensures Joined(Parts(s, 0, 1 + Breaks(s))) == s
  {
    hide Joined, Parts, Breaks;
    PartsJoinBack(s, 0);
    assert s[0..] == s;
  }

  /** The lines that pasting puts in place of line `p.y`. */
  function PastedLines(l: Line, x: nat, clip: seq<Byte>): seq<Line>
    requires x <= |l|
  {
    var cl := Parts(clip, 0, 1 + Breaks(clip));
    var s := [l[..x] + cl[0]] + cl[1..];
    s[..|s| - 1] + [s[|s| - 1] + l[x..]]
  }

  lemma PastedLinesClean(l: Line, x: nat, clip: seq<Byte>)
    requires x <= |l| && NL !in l
    ensures Clean(PastedLines(l, x, clip)) && |PastedLines(l, x, clip)| == 1 + Breaks(clip)
  {
    var cl := Parts(clip, 0, 1 + Breaks(clip));
    PartsAreClean(clip, 0, 1 + Breaks(clip));
    var s := [l[..x] + cl[0]] + cl[1..];
    assert NL !in s[0] && forall i | 0 < i < |s| :: s[i] == cl[i];
  }

  lemma PastedLinesAre(l: Line, x: nat, clip: seq<Byte>)
    requires x <= |l| && NL !in l
    ensures Parts(l[..x] + clip + l[x..], 0, 1 + Breaks(clip)) == PastedLines(l, x, clip)
  {
    hide Breaks, Joined, Parts, Clean;
    var cl := Parts(clip, 0, 1 + Breaks(clip));
    AllPartsJoin(clip);
    JoinedAfter(l[..x], cl);
    var s := [l[..x] + cl[0]] + cl[1..];
    JoinedBefore(s, l[x..]);
    PastedLinesClean(l, x, clip);
    CaptureReadsBack(PastedLines(l, x, clip));
  }

  /** The cursor behind what was pasted is a place in the buffer. */
  lemma PastedEnds(buf: seq<Line>, p: Pos, clip: seq<Byte>)
    requires Clean(buf) && Within(buf, p)
    ensures Within(Pasted(buf, p, clip), AfterPaste(p, clip))
  {
    hide Parts, Breaks, LastLine, PastedLines;
    var l := buf[p.y];
    PastedLinesAre(l, p.x, clip);
    var r := PastedLines(l, p.x, clip);
    var n := Breaks(clip);
    assert Pasted(buf, p, clip)[p.y + n] == r[n];
    LastPastedLine(l, p.x, clip);
  }

  /** The last of the pasted lines ends with what stood behind the cursor. */
  lemma LastPastedLine(l: Line, x: nat, clip: seq<Byte>)
    requires x <= |l| && NL !in l
    ensures var n := Breaks(clip);
      && |PastedLines(l, x, clip)| == n + 1
      && |PastedLines(l, x, clip)[n]| == if n == 0 then |l| + |clip| else LastLine(clip) + |l| - x
  {
    hide Joined, Parts, Breaks, LastLine;
    var n := Breaks(clip);
    var cl := Parts(clip, 0, 1 + n);
    AllPartsJoin(clip);
    PartsAreClean(clip, 0, 1 + n);
    PastedLinesClean(l, x, clip);
    var r := PastedLines(l, x, clip);
    if n > 0 {
      assert r[n] == cl[n] + l[x..];
      JoinedEnd(cl);
      LastLineIs(clip, |cl[n]|);
    } else {
      assert r[0] == l[..x] + cl[0] + l[x..];
      JoinedOne(cl);
    }
  }

  lemma RegionAt(buf: seq<Line>, p: Pos, q: Pos, i: int)
    requires Within(buf, p) && Within(buf, q) && Before(p, q) && p.y <= i <= q.y
    ensures var r := Region(buf, p, q);
      && |r| == q.y - p.y + 1
      && r[i - p.y] == buf[i][if i == p.y then p.x else 0..if i == q.y then q.x else |buf[i]|]
  {
  }

  /** The text of a region from line `i` on. */
  function RegionFrom(buf: seq<Line>, p: Pos, q: Pos, i: int): seq<Byte>
    requires Within(buf, p) && Within(buf, q) && Before(p, q) && p.y <= i
    decreases q.y - i
  {
    if i > q.y then []
    else buf[i][if i == p.y then p.x else 0..if i == q.y then q.x else |buf[i]|]
         + (if i < q.y then [NL] else []) + RegionFrom(buf, p, q, i + 1)
  }

  lemma {:induction false} RegionText(buf: seq<Line>, p: Pos, q: Pos, i: int)
    requires Within(buf, p) && Within(buf, q) && Before(p, q) && p.y <= i <= q.y
    ensures |Region(buf, p, q)| == q.y - p.y + 1
    ensures Joined(Region(buf, p, q)[i - p.y..]) == RegionFrom(buf, p, q, i)
    ensures i == p.y ==> Joined(Region(buf, p, q)) == RegionFrom(buf, p, q, i)
    decreases q.y - i
  {
    hide Region, Joined;
    var r := Region(buf, p, q);
    RegionAt(buf, p, q, i);
    assert r[i - p.y..] == [r[i - p.y]] + r[i + 1 - p.y..];
    JoinedStep(r[i - p.y], r[i + 1 - p.y..]);
    if i < q.y {
      RegionText(buf, p, q, i + 1);
    } else {
      assert r[i + 1 - p.y..] == [];
    }
    assert i == p.y ==> r[i - p.y..] == r;
  }

  lemma JoinedStep(l: Line, ls: seq<Line>)
    ensures Joined([l] + ls) == (if ls == [] then l else l + [NL]) + Joined(ls)
    ensures Joined([]) == []
  {
    assert ([l] + ls)[1..] == ls;
  }

  lemma JoinedDown(ls: seq<Line>, i: nat)
    requires i <= |ls|
    ensures Joined(ls[i..]) ==
      if i == |ls| then [] else if i == |ls| - 1 then ls[i] else ls[i] + [NL] + Joined(ls[i + 1..])
  {
    hide Joined;
    if i < |ls| {
      assert ls[i..] == [ls[i]] + ls[i + 1..];
      JoinedStep(ls[i], ls[i + 1..]);
    } else {
      JoinedStep([], []);
    }
  }
}
