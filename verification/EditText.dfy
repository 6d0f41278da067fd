/** What the editing keys do to the text as a whole: the bytes in front of the cursor and
    those behind it, lines joined by newlines. */
module EditText {
  import opened Octets
  import opened Optional
  import opened EditLines
  import opened EditHistory
  import opened EditKeys

  /** The text in front of a place. */
  function Ahead(buf: seq<Line>, p: Pos): seq<Byte>
    requires Within(buf, p)
  {
    Joined(buf[..p.y] + [buf[p.y][..p.x]])
  }

  /** The text behind it. */
  function Behind(buf: seq<Line>, p: Pos): seq<Byte>
    requires Within(buf, p)
  {
    Joined([buf[p.y][p.x..]] + buf[p.y + 1..])
  }

  // ── Joined lines ───────────────────────────────────────────────────

  /** Two texts put together: the last line of one and the first of the other become one line. */
  lemma {:induction false} Seam(a: seq<Line>, b: seq<Line>)
    requires a != [] && b != []
    ensures Joined(a) + Joined(b) == Joined(a[..|a| - 1] + [a[|a| - 1] + b[0]] + b[1..])
    decreases |a|
  {
    hide Joined;
    if |a| == 1 {
      JoinedOne(a);
      JoinedAfter(a[0], b);
      assert a[..0] + [a[0] + b[0]] + b[1..] == [a[0] + b[0]] + b[1..];
    } else {
      var rest := a[1..];
      Seam(rest, b);
      var r := rest[..|rest| - 1] + [rest[|rest| - 1] + b[0]] + b[1..];
      assert a == [a[0]] + rest;
      JoinedStep(a[0], rest);
      JoinedStep(a[0], r);
      assert a[..|a| - 1] + [a[|a| - 1] + b[0]] + b[1..] == [a[0]] + r;
    }
  }

  lemma TwoTexts(a: seq<Line>, b: seq<Line>)
    requires a != [] && b != []
    ensures Joined(a + b) == Joined(a) + [NL] + Joined(b)
  {
    hide Joined;
    var c := [[]] + b;
    JoinedStep([], b);
    Seam(a, c);
    assert Joined(c) == [NL] + Joined(b);
    var n := |a| - 1;
    assert a[n] + c[0] == a[n] && c[1..] == b && a[..n] + [a[n]] == a;
    assert Joined(a) + ([NL] + Joined(b)) == Joined(a) + [NL] + Joined(b);
  }

  lemma TextMore(a: seq<Line>, l: Line, q: seq<Byte>)
    ensures Joined(a + [l + q]) == Joined(a + [l]) + q
  {
    hide Joined;
    JoinedBefore(a + [l], q);
    assert (a + [l])[..|a|] == a;
  }

  lemma TextBefore(p: seq<Byte>, l: Line, b: seq<Line>)
    ensures Joined([p + l] + b) == p + Joined([l] + b)
  {
    hide Joined;
    JoinedAfter(p, [l] + b);
    assert ([l] + b)[1..] == b;
  }

  /** Every place cuts the text in two. */
  lemma CutInTwo(buf: seq<Line>, p: Pos)
    requires Within(buf, p)
    ensures Joined(buf) == Ahead(buf, p) + Behind(buf, p)
  {
    hide Joined;
    var l := buf[p.y];
    var a, b := buf[..p.y] + [l[..p.x]], [l[p.x..]] + buf[p.y + 1..];
    Seam(a, b);
    assert a[..|a| - 1] == buf[..p.y] && b[1..] == buf[p.y + 1..] && l[..p.x] + l[p.x..] == l;
    assert buf[..p.y] + [l] + buf[p.y + 1..] == buf;
  }

  /** A key left the text behind the cursor alone and made `ahead` of what stood in front of it. */
  ghost predicate Fronted(e: Edit, f: Edit, ahead: seq<Byte>)
    requires Within(e.buf, e.cur)
  {
    && Within(f.buf, f.cur) && Ahead(f.buf, f.cur) == ahead && Behind(f.buf, f.cur) == Behind(e.buf, e.cur)
    && Joined(f.buf) == ahead + Behind(e.buf, e.cur)
  }

  // ── Typing and rubbing out ─────────────────────────────────────────

  /** A line of the text with something else in place of one part of it. */
  lemma LinePut(buf: seq<Line>, y: nat, a: Line, s: seq<Byte>, b: Line)
    requires y < |buf|
    ensures var after := buf[y := a + s + b];
      && Ahead(after, Pos(y, |a| + |s|)) == Joined(buf[..y] + [a]) + s
      && Behind(after, Pos(y, |a| + |s|)) == Joined([b] + buf[y + 1..])
  {
    hide Joined;
    var after := buf[y := a + s + b];
    assert after[..y] == buf[..y] && after[y + 1..] == buf[y + 1..];
    assert (a + s + b)[..|a| + |s|] == a + s && (a + s + b)[|a| + |s|..] == b;
    TextMore(buf[..y], a, s);
  }

  /** What is typed stands in front of the cursor, and all else as it was. */
  lemma TypingAdds(e: Edit, s: seq<Byte>)
    requires Within(e.buf, e.cur)
    ensures Fronted(e, TextTyped(e, s), Ahead(e.buf, e.cur) + s)
  {
    hide Joined, Pushed, Record;
    var l, x := e.buf[e.cur.y], e.cur.x;
    LinePut(e.buf, e.cur.y, l[..x], s, l[x..]);
    CutInTwo(TextTyped(e, s).buf, TextTyped(e, s).cur);
  }

  /** A line break taken out: the cursor stands where it was. */
  lemma JoiningTakesTheBreak(e: Edit, at: nat)
    requires at + 1 < |e.buf|
    ensures var f := LinesJoined(e, at);
      && Within(f.buf, f.cur)
      && Ahead(e.buf, Pos(at + 1, 0)) == Ahead(f.buf, f.cur) + [NL]
      && Behind(e.buf, Pos(at, |e.buf[at]|)) == [NL] + Behind(f.buf, f.cur)
      && Ahead(f.buf, f.cur) == Ahead(e.buf, Pos(at, |e.buf[at]|))
      && Behind(f.buf, f.cur) == Behind(e.buf, Pos(at + 1, 0))
      && Joined(f.buf) == Ahead(f.buf, f.cur) + Behind(f.buf, f.cur)
  {
    hide Joined, Pushed, Record;
    var f := LinesJoined(e, at);
    var a, b := e.buf[at], e.buf[at + 1];
    assert f.buf == e.buf[..at] + [a + b] + e.buf[at + 2..];
    assert f.buf[..at] == e.buf[..at] && f.buf[at + 1..] == e.buf[at + 2..] && (a + b)[..|a|] == a &&
      (a + b)[|a|..] == b;
    assert b[0..] == b && b[..0] == [] && a[..|a|] == a && a[|a|..] == [];
    assert e.buf[..at + 1] == e.buf[..at] + [a] && e.buf[at + 1..] == [b] + e.buf[at + 2..];
    TwoTexts(e.buf[..at] + [a], [[]]);
    JoinedOne([[]]);
    assert Joined(e.buf[..at] + [a]) + [NL] + [] == Joined(e.buf[..at] + [a]) + [NL];
    TwoTexts([[]], [b] + e.buf[at + 2..]);
    CutInTwo(f.buf, f.cur);
  }

  /** The bytes of a character taken one way or the other: no byte but the first is one inside a
      character. */
  ghost predicate OneCharacter(c: seq<Byte>) {
    0 < |c| <= 4 && forall k | 0 < k < |c| :: Inside(c[k])
  }

  lemma {:induction false} StepsInside(s: Line, i: nat, back: nat)
    requires i < |s| && back <= 3
    ensures i - StepBack(s, i, back) + back <= 3
    ensures forall k | StepBack(s, i, back) < k <= i :: Inside(s[k])
    ensures !Inside(s[StepBack(s, i, back)]) || StepBack(s, i, back) == 0 || i - StepBack(s, i, back) + back == 3
    decreases i
  {
    if 0 < i && back < 3 && Inside(s[i]) { StepsInside(s, i - 1, back + 1); }
  }

  /** Backspace takes exactly what stands last in front of the cursor: a line break, or the bytes
      back to where a character starts. At the start of the text it does nothing. */
  lemma BackspaceTakesOne(e: Edit)
    requires Within(e.buf, e.cur)
    ensures var f := ErasedBack(e);
      if e.cur == Pos(0, 0) then f == e
      else
        && |Ahead(f.buf, f.cur)| < |Ahead(e.buf, e.cur)|
        && Fronted(e, f, Ahead(e.buf, e.cur)[..|Ahead(f.buf, f.cur)|])
        && var c := Ahead(e.buf, e.cur)[|Ahead(f.buf, f.cur)|..];
           if e.cur.x == 0 then c == [NL] else OneCharacter(c)
  {
    hide Joined, Pushed, Record, LinesJoined, StepBack;
    var (l, x, y) := (e.buf[e.cur.y], e.cur.x, e.cur.y);
    var f := ErasedBack(e);
    if x > 0 {
      var i := PrevChar(l, x);
      StepsInside(l, x - 1, 0);
      LinePut(e.buf, y, l[..i], [], l[x..]);
      assert l[..i] + [] + l[x..] == l[..i] + l[x..];
      TextMore(e.buf[..y], l[..i], l[i..x]);
      assert l[..i] + l[i..x] == l[..x];
      CutInTwo(f.buf, f.cur);
    } else if y > 0 {
      JoiningTakesTheBreak(e, y - 1);
    } else {
      assert LinesJoined(e, -1) == e by { NothingJoined(e, -1); }
    }
  }

  lemma NothingJoined(e: Edit, at: int)
    requires !(0 <= at < |e.buf| - 1)
    ensures LinesJoined(e, at) == e
  {
  }

  /** A key left the text in front of the cursor alone and made `behind` of what stood behind it. */
  ghost predicate Backed(e: Edit, f: Edit, behind: seq<Byte>)
    requires Within(e.buf, e.cur)
  {
    && Within(f.buf, f.cur) && Ahead(f.buf, f.cur) == Ahead(e.buf, e.cur) && Behind(f.buf, f.cur) == behind
    && Joined(f.buf) == Ahead(e.buf, e.cur) + behind
  }

  /** Delete takes exactly what stands first behind the cursor: a line break, or one character. At
      the end of the text it does nothing. */
  lemma DeleteTakesOne(e: Edit)
    requires Within(e.buf, e.cur)
    ensures var (f, l) := (ErasedAhead(e), e.buf[e.cur.y]);
      if e.cur == Pos(|e.buf| - 1, |e.buf[|e.buf| - 1]|) then f == e
      else if e.cur.x == |l| then Backed(e, f, Behind(f.buf, f.cur)) &&
        Behind(e.buf, e.cur) == [NL] + Behind(f.buf, f.cur)
      else
        var c := l[e.cur.x..NextChar(l, e.cur.x)];
        && 0 < |c| <= 4
        && Backed(e, f, Behind(f.buf, f.cur)) && Behind(e.buf, e.cur) == c + Behind(f.buf, f.cur)
  {
    hide Joined, Pushed, Record, LinesJoined;
    var (l, x, y) := (e.buf[e.cur.y], e.cur.x, e.cur.y);
    var f := ErasedAhead(e);
    if x < |l| {
      var i := NextChar(l, x);
      LinePut(e.buf, y, l[..x], [], l[i..]);
      assert l[..x] + [] + l[i..] == l[..x] + l[i..];
      TextBefore(l[x..i], l[i..], e.buf[y + 1..]);
      assert l[x..i] + l[i..] == l[x..];
      var a := Joined(e.buf[..y] + [l[..x]]);
      assert a + [] == a;
      CutInTwo(f.buf, f.cur);
    } else if y < |e.buf| - 1 {
      JoiningTakesTheBreak(e, y);
    } else {
      NothingJoined(e, y);
    }
  }

  /** The bytes of one character of UTF-8. */
  predicate IsChar(c: seq<Byte>) {
    && (forall k | 0 < k < |c| :: Inside(c[k]))
    && ((|c| == 1 && c[0] < 128) || (|c| == 2 && 192 <= c[0] < 224) || (|c| == 3 && 224 <= c[0] < 240)
        || (|c| == 4 && 240 <= c[0] < 248))
  }

  /** A whole character is what is stepped over in both directions, whatever stands around it. */
  lemma StepsOverOne(a: Line, c: seq<Byte>, b: Line)
    requires IsChar(c)
    ensures NextChar(a + c + b, |a|) == |a| + |c| && PrevChar(a + c + b, |a| + |c|) == |a|
  {
    hide StepBack;
    var s := a + c + b;
    var end := |a| + |c| - 1;
    assert s[|a|] == c[0] && forall k | 0 < k < |c| :: s[|a| + k] == c[k];
    StepsInside(s, end, 0);
    var i := StepBack(s, end, 0);
    assert !Inside(s[|a|]);
    if i > |a| { assert s[i] == c[i - |a|] && Inside(s[i]); }
  }

  // ── Line breaks ────────────────────────────────────────────────────

  predicate White(c: Byte) { c == 32 || c == 9 }

  lemma {:induction false} IndentIsWhite(l: Line, x: nat, i: nat)
    requires i <= x <= |l|
    ensures var r := IndentFrom(l, x, i); (forall k | i <= k < r :: White(l[k])) && (r < x ==> !White(l[r]))
    decreases x - i
  {
    if i < x && White(l[i]) { IndentIsWhite(l, x, i + 1); }
  }

  /** Enter puts in one line break and behind it the white space that the line starts with, as far as
      it stands in front of the cursor. In a full buffer it does nothing. */
  lemma EnterBreaksOnce(e: Edit)
    requires Within(e.buf, e.cur) && e.cur.y + 1 < MAX_LINES
    ensures var (f, l, i) := (LineSplit(e), e.buf[e.cur.y], Indent(e.buf[e.cur.y], e.cur.x));
      && (forall k | 0 <= k < i :: White(l[k])) && (i < e.cur.x ==> !White(l[i]))
      && if |e.buf| == MAX_LINES then f == e else Fronted(e, f, Ahead(e.buf, e.cur) + [NL] + l[..i])
  {
    hide Joined, Pushed, Record, IndentFrom;
    var (l, x, y) := (e.buf[e.cur.y], e.cur.x, e.cur.y);
    IndentIsWhite(l, x, 0);
    if |e.buf| != MAX_LINES {
      var f := LineSplit(e);
      var i := Indent(l, x);
      var second := l[..i] + l[x..];
      assert f.buf == e.buf[..y] + [l[..x], second] + e.buf[y + 1..];
      assert f.buf[..y + 1] == e.buf[..y] + [l[..x]] && f.buf[y + 2..] == e.buf[y + 1..];
      assert second[..i] == l[..i] && second[i..] == l[x..];
      TwoTexts(e.buf[..y] + [l[..x]], [l[..i]]);
      JoinedOne([l[..i]]);
      CutInTwo(f.buf, f.cur);
    }
  }

  /** Where a line has no indent, Backspace takes an Enter back. */
  lemma BackspaceTakesEnterBack(e: Edit)
    requires Within(e.buf, e.cur) && |e.buf| < MAX_LINES && Indent(e.buf[e.cur.y], e.cur.x) == 0
    ensures var f := ErasedBack(LineSplit(e)); f.buf == e.buf && f.cur == e.cur
  {
    hide Pushed, Record, IndentFrom;
    var (l, x, y) := (e.buf[e.cur.y], e.cur.x, e.cur.y);
    var m := LineSplit(e);
    assert m.buf == e.buf[..y] + [l[..x], l[..0] + l[x..]] + e.buf[y + 1..];
    assert m.buf[y] + m.buf[y + 1] == l;
    var f := LinesJoined(m, y);
    assert f.buf == m.buf[..y] + [l] + m.buf[y + 2..] == e.buf;
  }

  // ── Selections and the clipboard ───────────────────────────────────

  /** What is taken for the selection is the text between where it begins and where it ends. */
  lemma SelectionIsBetween(buf: seq<Line>, p: Pos, q: Pos)
    requires Within(buf, p) && Within(buf, q) && Before(p, q)
    ensures Ahead(buf, q) == Ahead(buf, p) + Joined(Region(buf, p, q))
    ensures Behind(buf, p) == Joined(Region(buf, p, q)) + Behind(buf, q)
  {
    hide Joined;
    var a, b := buf[p.y], buf[q.y];
    if p.y == q.y {
      var t := a[p.x..q.x];
      JoinedOne([t]);
      TextMore(buf[..p.y], a[..p.x], t);
      TextBefore(t, a[q.x..], buf[p.y + 1..]);
      assert a[..p.x] + t == a[..q.x] && t + a[q.x..] == a[p.x..];
    } else {
      var mid := buf[p.y + 1..q.y];
      var r := [a[p.x..]] + mid + [b[..q.x]];
      var front, back := buf[..p.y] + [a[..p.x]], [b[q.x..]] + buf[q.y + 1..];
      Seam(front, r);
      assert front[..p.y] + [front[p.y] + r[0]] + r[1..] == buf[..q.y] + [b[..q.x]] by {
        assert a[..p.x] + a[p.x..] == a && r[1..] == mid + [b[..q.x]];
        assert buf[..p.y] + [a] + mid == buf[..q.y];
      }
      Seam(r, back);
      var n := |r| - 1;
      assert r[..n] + [r[n] + back[0]] + back[1..] == [a[p.x..]] + buf[p.y + 1..] by {
        assert b[..q.x] + b[q.x..] == b && r[..n] == [a[p.x..]] + mid;
        assert mid + [b] + buf[q.y + 1..] == buf[p.y + 1..];
      }
    }
  }

  /** Removing the selection takes out just its text, and the cursor stands where it was. */
  lemma RemovingTakesTheSelection(e: Edit)
    requires Within(e.buf, e.cur) && e.MarkFits() && e.Selects()
    ensures var (p, q, f) := (e.Selected().0, e.Selected().1, SelectionGone(e));
      && Within(f.buf, f.cur) && Ahead(f.buf, f.cur) == Ahead(e.buf, p) && Behind(f.buf, f.cur) == Behind(e.buf, q)
      && Joined(f.buf) == Ahead(e.buf, p) + Behind(e.buf, q)
      && Joined(e.buf) == Ahead(e.buf, p) + Joined(Region(e.buf, p, q)) + Behind(e.buf, q)
  {
    hide Joined, Pushed, Record, Region;
    var (p, q) := e.Selected();
    var f := SelectionGone(e);
    var a, b := e.buf[p.y][..p.x], e.buf[q.y][q.x..];
    assert f.buf == e.buf[..p.y] + [a + b] + e.buf[q.y + 1..];
    assert f.buf[..p.y] == e.buf[..p.y] && f.buf[p.y + 1..] == e.buf[q.y + 1..] && (a + b)[..p.x] == a &&
      (a + b)[p.x..] == b;
    CutInTwo(f.buf, f.cur);
    CutInTwo(e.buf, p);
    SelectionIsBetween(e.buf, p, q);
    assert Ahead(e.buf, p) + (Joined(Region(e.buf, p, q)) + Behind(e.buf, q)) ==
      Ahead(e.buf, p) + Joined(Region(e.buf, p, q)) + Behind(e.buf, q);
  }

  /** Pasting puts the clipboard in front of the cursor, unless that takes too many lines. */
  lemma PastingAdds(e: Edit)
    requires Good(e.buf) && Within(e.buf, e.cur)
    ensures if |e.buf| + Breaks(e.clip) > MAX_LINES then ClipPasted(e) == e
      else Fronted(e, ClipPasted(e), Ahead(e.buf, e.cur) + e.clip)
  {
    hide Joined, Pushed, Record, Parts, Breaks, PastedLines, LastLine, AfterPaste;
    var (l, x, y) := (e.buf[e.cur.y], e.cur.x, e.cur.y);
    if e.clip == [] {
      assert Ahead(e.buf, e.cur) + [] == Ahead(e.buf, e.cur);
      CutInTwo(e.buf, e.cur);
    } else if |e.buf| + Breaks(e.clip) <= MAX_LINES {
      PastedLinesAre(l, x, e.clip);
      var add := PastedLines(l, x, e.clip);
      LastPastedLine(l, x, e.clip);
      var f := ClipPasted(e);
      assert f.buf == e.buf[..y] + add + e.buf[y + 1..];
      PastedText(e.buf, y, x, e.clip, f.buf);
      CutInTwo(f.buf, f.cur);
    }
  }

  lemma PastedText(buf: seq<Line>, y: nat, x: nat, clip: seq<Byte>, after: seq<Line>)
    requires y < |buf| && x <= |buf[y]| && Clean(buf) && after == buf[..y] + PastedLines(buf[y], x, clip) + buf[y + 1..]
    ensures var p, q := Pos(y, x), AfterPaste(Pos(y, x), clip);
      Within(after, q) && Ahead(after, q) == Ahead(buf, p) + clip && Behind(after, q) == Behind(buf, p)
  {
    hide Joined, Parts, Breaks, LastLine;
    var (l, n) := (buf[y], Breaks(clip));
    var cl := Parts(clip, 0, 1 + n);
    AllPartsJoin(clip);
    LastPastedLine(l, x, clip);
    var add := PastedLines(l, x, clip);
    var q := AfterPaste(Pos(y, x), clip);
    var front := buf[..y] + [l[..x]];
    Seam(front, cl);
    assert front[..y] + [front[y] + cl[0]] + cl[1..] == buf[..y] + ([l[..x] + cl[0]] + cl[1..]);
    if n == 0 {
      JoinedOne(cl);
      assert add == [l[..x] + clip + l[x..]];
      assert (l[..x] + clip + l[x..])[..x + |clip|] == l[..x] + clip &&
        (l[..x] + clip + l[x..])[x + |clip|..] == l[x..];
      assert after[..y] == buf[..y] && after[y + 1..] == buf[y + 1..];
      assert cl[0] == clip && buf[..y] + ([l[..x] + clip] + cl[1..]) == buf[..y] + [l[..x] + clip];
    } else {
      var s := [l[..x] + cl[0]] + cl[1..];
      assert add == s[..n] + [cl[n] + l[x..]] && q == Pos(y + n, LastLine(clip)) && |cl[n]| == LastLine(clip);
      assert after[..y + n] == buf[..y] + s[..n] && after[y + n] == cl[n] + l[x..] &&
        after[y + n + 1..] == buf[y + 1..];
      assert (cl[n] + l[x..])[..|cl[n]|] == cl[n] && (cl[n] + l[x..])[|cl[n]|..] == l[x..];
      assert buf[..y] + s[..n] + [cl[n]] == buf[..y] + s;
    }
  }

  /** One occurrence replaced: the new text in front of the cursor, and the old one gone from behind it. */
  lemma ReplacingPutsIn(e: Edit, plen: nat, rep: seq<Byte>)
    requires Within(e.buf, e.cur) && e.cur.x + plen <= |e.buf[e.cur.y]|
    ensures var (f, x) := (OneReplaced(e, plen, rep), e.cur.x);
      && Within(f.buf, f.cur) && Ahead(f.buf, f.cur) == Ahead(e.buf, e.cur) + rep
      && Behind(e.buf, e.cur) == e.buf[e.cur.y][x..x + plen] + Behind(f.buf, f.cur)
  {
    hide Joined, Pushed, Record;
    var (l, x, y) := (e.buf[e.cur.y], e.cur.x, e.cur.y);
    LinePut(e.buf, y, l[..x], rep, l[x + plen..]);
    TextBefore(l[x..x + plen], l[x + plen..], e.buf[y + 1..]);
    assert l[x..x + plen] + l[x + plen..] == l[x..];
  }

  /** Cutting a line takes it out with the line break behind it, or with the one in front of it if it
      is the last; the only line is emptied. It goes to the clipboard if that holds it. */
  lemma CuttingTakesTheLine(e: Edit)
    requires Within(e.buf, e.cur)
    ensures var (f, y, l) := (LineCut(e), e.cur.y, e.buf[e.cur.y]);
      && f.clip == (if |l| < CLIP_MAX then l + [NL] else e.clip)
      && (|e.buf| == 1 ==> f.buf == [[]])
      && (y + 1 < |e.buf| ==>
            && Ahead(e.buf, Pos(y, 0)) + Behind(e.buf, Pos(y + 1, 0)) == Joined(f.buf)
            && Joined(e.buf) == Ahead(e.buf, Pos(y, 0)) + l + [NL] + Behind(e.buf, Pos(y + 1, 0)))
      && (0 < y == |e.buf| - 1 ==> Joined(e.buf) == Joined(f.buf) + [NL] + l)
  {
    hide Joined, Ahead, Behind, LineCut;
    LinesLeft(e);
    if e.cur.y + 1 < |e.buf| {
      LineOut(e.buf, e.cur.y);
    } else if 0 < e.cur.y {
      assert e.buf[..e.cur.y] + e.buf[e.cur.y + 1..] == e.buf[..e.cur.y];
      LastLineOut(e.buf);
    }
  }

  lemma LinesLeft(e: Edit)
    requires Within(e.buf, e.cur)
    ensures var (f, y, l) := (LineCut(e), e.cur.y, e.buf[e.cur.y]);
      && f.clip == (if |l| < CLIP_MAX then l + [NL] else e.clip)
      && f.buf == if |e.buf| == 1 then [[]] else e.buf[..y] + e.buf[y + 1..]
  {
    hide Pushed, Record;
  }

  lemma AheadOfLine(buf: seq<Line>, y: nat)
    requires y < |buf|
    ensures Ahead(buf, Pos(y, 0)) == Joined(buf[..y] + [[]])
  {
    hide Joined;
    assert buf[y][..0] == [];
  }

  lemma BehindLine(buf: seq<Line>, y: nat)
    requires y < |buf|
    ensures Behind(buf, Pos(y, 0)) == Joined(buf[y..])
  {
    hide Joined;
    assert buf[y][0..] == buf[y] && [buf[y]] + buf[y + 1..] == buf[y..];
  }

  lemma LineOut(buf: seq<Line>, y: nat)
    requires y + 1 < |buf|
    ensures Ahead(buf, Pos(y, 0)) + Behind(buf, Pos(y + 1, 0)) == Joined(buf[..y] + buf[y + 1..])
    ensures Joined(buf) == Ahead(buf, Pos(y, 0)) + buf[y] + [NL] + Behind(buf, Pos(y + 1, 0))
  {
    hide Joined, Ahead, Behind;
    AheadOfLine(buf, y);
    BehindLine(buf, y + 1);
    var front, rest := buf[..y], buf[y + 1..];
    ThreeParts(buf, y);
    LineBetween(front, buf[y], rest);
    NoLineBetween(front, rest);
  }

  lemma ThreeParts(buf: seq<Line>, y: nat)
    requires y < |buf|
    ensures buf[..y] + [buf[y]] + buf[y + 1..] == buf
  {
  }

  lemma LineBetween(front: seq<Line>, l: Line, rest: seq<Line>)
    requires rest != []
    ensures Joined(front + [l] + rest) == Joined(front + [[]]) + l + [NL] + Joined(rest)
  {
    hide Joined;
    TwoTexts(front + [l], rest);
    TextMore(front, [], l);
    assert [] + l == l;
  }

  lemma NoLineBetween(front: seq<Line>, rest: seq<Line>)
    requires rest != []
    ensures Joined(front + [[]]) + Joined(rest) == Joined(front + rest)
  {
    hide Joined;
    Seam(front + [[]], rest);
    assert (front + [[]])[..|front|] == front && [] + rest[0] == rest[0];
    assert front + [rest[0]] + rest[1..] == front + rest;
  }

  lemma LastLineOut(buf: seq<Line>)
    requires |buf| > 1
    ensures Joined(buf) == Joined(buf[..|buf| - 1]) + [NL] + buf[|buf| - 1]
  {
    hide Joined;
    var y := |buf| - 1;
    assert buf == buf[..y] + [buf[y]] && buf[..y] != [];
    TwoTexts(buf[..y], [buf[y]]);
    JoinedOne([buf[y]]);
  }
}
