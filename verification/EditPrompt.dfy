/** The replace prompt: each occurrence is shown in turn and one answer taken for it. */
module EditPrompt {
  import opened Optional
  import opened Octets
  import opened EditLines
  import opened EditHistory
  import opened EditKeys
  import opened Editor
  import opened EditSession

  datatype Answer = Yes | No | All | Quit

  // ── The next occurrence ────────────────────────────────────────────

  /** The first place of `pat` in a line from `from` on, if there is one. */
  function FirstAt(l: Line, pat: seq<Byte>, from: nat): (r: nat)
    ensures from <= r && forall i | from <= i < r :: !Occurs(l, pat, i)
    ensures (exists i :: from <= i && Occurs(l, pat, i)) ==> Occurs(l, pat, r)
    decreases |l| - from
  {
    if from >= |l| || Occurs(l, pat, from) then from else FirstAt(l, pat, from + 1)
  }

  /** The first occurrence at or behind a place. */
  ghost function NextHit(buf: seq<Line>, p: Pos, pat: seq<Byte>): (q: Option<Pos>)
    ensures q.None? <==> !Finds(buf, p, pat)
    ensures q.Some? ==> 0 <= q.value.y < |buf| && p.y <= q.value.y && Occurs(buf[q.value.y], pat, q.value.x)
  {
    var k := FirstLine(buf, p, pat, 0);
    if k == |buf| then None else Some(Pos(k, FirstAt(buf[k], pat, From(p, k))))
  }

  function From(p: Pos, k: nat): nat { if k == p.y && p.x >= 0 then p.x else 0 }

  // ── The prompt ─────────────────────────────────────────────────────

  /** The cursor where it can be. */
  function Settled(e: Edit): Edit
    requires e.buf != []
  {
    e.(cur := Clamped(e.buf, e.cur))
  }

  /** What one answer makes of an editor that stands at an occurrence. */
  ghost function Answered(e: Edit, pat: seq<Byte>, rep: seq<Byte>, a: Answer): (f: Edit)
    requires Within(e.buf, e.cur) && Occurs(e.buf[e.cur.y], pat, e.cur.x) && pat != []
    ensures f.buf != [] && (!a.All? ==> Within(f.buf, f.cur))
  {
    match a
    case Yes => OneReplaced(e, |pat|, rep)
    case No => e.(cur := Pos(e.cur.y, e.cur.x + 1))
    case All => RestReplaced(e, pat, rep)
    case Quit => e
  }

  /** What the answers make of an editor; when they end, so does the prompt. */
  ghost function Prompted(e: Edit, pat: seq<Byte>, rep: seq<Byte>, answers: seq<Answer>): Edit
    requires Within(e.buf, e.cur) && pat != []
    decreases |answers|
  {
    var hit := NextHit(e.buf, e.cur, pat);
    if hit.None? then Settled(e)
    else
      var f := e.(cur := hit.value);
      if answers == [] || answers[0].Quit? then Settled(f)
      else
        var g := Answered(f, pat, rep, answers[0]);
        if answers[0].All? then Settled(g) else Prompted(g, pat, rep, answers[1..])
  }

  /** The cursor goes to a place in the text. */
  method Place(s: Session, y: nat, x: nat)
    requires s.Valid() && Within(s.Buf(), Pos(y, x))
    modifies s`cy, s`cx
    ensures s.Valid() && s.Now() == old(s.Now()).(cur := Pos(y, x))
  {
    hide Ring.Contents, Chain, Held, Good;
    s.cy, s.cx := y, x;
  }

  /** Shows the next occurrence, if there is one. */
  method GoToNext(s: Session, pat: seq<Byte>) returns (found: bool)
    requires s.Valid() && pat != []
    modifies s`cy, s`cx
    ensures s.Valid()
    ensures s.Now() == match NextHit(old(s.Buf()), old(s.Cursor()), pat)
      case None => old(s.Now())
      case Some(q) => old(s.Now()).(cur := q)
    ensures found <==> NextHit(old(s.Buf()), old(s.Cursor()), pat).Some?
  {
    hide Ring.Contents, Chain, Held, Good, Occurs;
    ghost var buf, p := s.Buf(), s.Cursor();
    var y, x := s.cy, s.cx;
    for i := y to s.text.n
      invariant s.Valid() && s.Now() == old(s.Now()) && s.Cursor() == p
      invariant forall k: nat | k < i :: !LineHits(buf, p, pat, k)
    {
      hide Ring.Contents, Chain, Held, Good, Occurs;
      var at := FindFwd(s.text.a[i], pat, if i == y then x else 0);
      assert at >= 0 <==> LineHits(buf, p, pat, i);
      if at >= 0 {
        HitIs(buf, p, pat, i, at);
        Place(s, i, at);
        return true;
      }
    }
    return false;
  }

  lemma HitIs(buf: seq<Line>, p: Pos, pat: seq<Byte>, k: nat, at: nat)
    requires Within(buf, p) && k < |buf| && p.y <= k && From(p, k) <= at && Occurs(buf[k], pat, at)
    requires forall i: nat | i < k :: !LineHits(buf, p, pat, i)
    requires forall i | From(p, k) <= i < at :: !Occurs(buf[k], pat, i)
    ensures NextHit(buf, p, pat) == Some(Pos(k, at)) && Within(buf, Pos(k, at))
  {
    assert LineHits(buf, p, pat, k);
    assert FirstLine(buf, p, pat, 0) == k;
  }

  lemma InText(s: Session)
    requires s.Valid()
    ensures s.Buf() != [] && Within(s.Buf(), s.Cursor()) && Within(s.Buf(), Pos(0, 0))
  {
  }

  /** One answer, for the occurrence at the cursor. */
  method TakeAnswer(s: Session, pat: seq<Byte>, rep: seq<Byte>, a: Answer)
    requires s.Valid() && pat != [] && NL !in rep && !a.Quit? && Occurs(s.Buf()[s.cy], pat, s.cx)
    modifies s`cy, s`cx, s`histBytes, s`typingLine, s`pasts, s`futures, s.text.a, s.undo, s.undo.v, s.redo
    ensures s.Valid()
    ensures s.Now() == Answered(old(s.Now()), pat, rep, a)
  {
    hide Ring.Contents, Chain, Held, Good, OneReplaced, RestReplaced, Session.Keeps, Finds;
    InText(s);
    match a
    case All => s.ReplaceRest(pat, rep);
    case Yes => s.ReplaceAt(|pat|, rep);
    case No => Place(s, s.cy, s.cx + 1);
  }

  /** One answer after the other, from the top of the text to its end or to the answer that
      ends the prompt. */
  method ReplacePrompt(s: Session, pat: seq<Byte>, rep: seq<Byte>, answers: seq<Answer>)
    requires s.Valid() && pat != [] && NL !in rep
    modifies s`cy, s`cx, s`histBytes, s`typingLine, s`pasts, s`futures, s.text.a, s.undo, s.undo.v, s.redo
    ensures s.Valid() && Within(old(s.Buf()), Pos(0, 0))
    ensures s.Now() == Prompted(old(s.Now()).(cur := Pos(0, 0)), pat, rep, answers)
  {
    hide Ring.Contents, Chain, Held, Good, Prompted, NextHit, Answered, Settled, Occurs, Finds;
    InText(s);
    Place(s, 0, 0);
    ghost var goal := Prompted(s.Now(), pat, rep, answers);
    var i := 0;
    assert answers[0..] == answers;
    while true
      invariant s.Valid() && 0 <= i <= |answers| && Within(s.Now().buf, s.Now().cur)
      invariant Prompted(s.Now(), pat, rep, answers[i..]) == goal
      decreases |answers| - i
    {
      hide Ring.Contents, Chain, Held, Good, Prompted, NextHit, Answered, Settled, Occurs, Finds;
      PromptStep(s.Now(), pat, rep, answers[i..]);
      var found := GoToNext(s, pat);
      if !found || i == |answers| || answers[i].Quit? { break; }
      TakeAnswer(s, pat, rep, answers[i]);
      i := i + 1;
      if answers[i - 1].All? { break; }
      InText(s);
      assert answers[i - 1..][1..] == answers[i..];
    }
    InText(s);
    Settle(s);
  }

  method Settle(s: Session)
    requires s.Valid()
    modifies s`cy, s`cx
    ensures s.Valid() && s.Now() == Settled(old(s.Now()))
  {
    hide Ring.Contents, Chain, Held, Clamped;
    s.ClampCursor();
  }

  /** Where the prompt goes on after one answer, if it does. */
  lemma PromptStep(e: Edit, pat: seq<Byte>, rep: seq<Byte>, answers: seq<Answer>)
    requires Within(e.buf, e.cur) && pat != []
    ensures var hit := NextHit(e.buf, e.cur, pat);
      Prompted(e, pat, rep, answers) ==
        if hit.None? then Settled(e)
        else
          var f := e.(cur := hit.value);
          if answers == [] || answers[0].Quit? then Settled(f)
          else
            var g := Answered(f, pat, rep, answers[0]);
            if answers[0].All? then Settled(g) else Prompted(g, pat, rep, answers[1..])
  {
  }

  // ── One by one, and all at once ────────────────────────────────────

  /** Up to the next occurrence nothing is to be replaced. */
  lemma ReplacedFromHit(buf: seq<Line>, p: Pos, pat: seq<Byte>, rep: seq<Byte>, k: nat)
    requires Within(buf, p) && pat != [] && NextHit(buf, p, pat).Some? && k < |buf|
    requires Within(buf, NextHit(buf, p, pat).value)
    ensures ReplacedLine(buf, p, pat, rep, k) == ReplacedLine(buf, NextHit(buf, p, pat).value, pat, rep, k)
  {
    hide Replaced, Occurs, FirstLine, FirstAt, LineHits;
    var q := NextHit(buf, p, pat).value;
    HitParts(buf, p, pat, k);
    if p.y <= k < q.y {
      NothingReplaced(buf[k], From(p, k), pat, rep);
    } else if k == q.y {
      SkippedLine(buf[k], From(p, k), q.x, pat, rep);
    }
  }

  /** What stands before the next occurrence. */
  lemma HitParts(buf: seq<Line>, p: Pos, pat: seq<Byte>, k: nat)
    requires Within(buf, p) && NextHit(buf, p, pat).Some? && k < |buf|
    ensures var q := NextHit(buf, p, pat).value;
      && (p.y <= k < q.y ==> forall i | From(p, k) <= i :: !Occurs(buf[k], pat, i))
      && (k == q.y ==> From(p, k) <= q.x && forall i | From(p, k) <= i < q.x :: !Occurs(buf[k], pat, i))
  {
    hide Occurs;
    var q := NextHit(buf, p, pat).value;
    if p.y <= k < q.y { assert !LineHits(buf, p, pat, k); }
  }

  lemma SkippedLine(l: Line, from: nat, x: nat, pat: seq<Byte>, rep: seq<Byte>)
    requires from <= x <= |l| && pat != [] && forall i | from <= i < x :: !Occurs(l, pat, i)
    ensures l[..from] + Replaced(l[from..], pat, rep) == l[..x] + Replaced(l[x..], pat, rep)
    ensures from == 0 ==> Replaced(l, pat, rep) == l[..x] + Replaced(l[x..], pat, rep)
  {
    hide Replaced, Occurs;
    NoneFrom(l, from, x, pat);
    ReplacedSkips(l[from..], pat, rep, x - from);
    assert l[from..][x - from..] == l[x..] && l[..from] + l[from..][..x - from] == l[..x];
    if from == 0 { assert l[0..] == l; }
  }

  lemma HitWithin(buf: seq<Line>, q: Pos, pat: seq<Byte>)
    requires 0 <= q.y < |buf| && Occurs(buf[q.y], pat, q.x)
    ensures Within(buf, q) && q.x + |pat| <= |buf[q.y]|
  {
  }

  /** Replacing the occurrence at the cursor leaves what is to become of the text as it is. */
  lemma ReplacedFromNext(e: Edit, pat: seq<Byte>, rep: seq<Byte>, k: nat)
    requires Within(e.buf, e.cur) && pat != [] && Occurs(e.buf[e.cur.y], pat, e.cur.x) && k < |e.buf|
    ensures var f := OneReplaced(e, |pat|, rep);
      && Within(f.buf, f.cur) && |f.buf| == |e.buf|
      && ReplacedLine(f.buf, f.cur, pat, rep, k) == ReplacedLine(e.buf, e.cur, pat, rep, k)
  {
    hide Replaced, Occurs, Pushed, Record;
    HitWithin(e.buf, e.cur, pat);
    if k == e.cur.y { ReplacedFirst(e.buf[k], e.cur.x, e.cur.x, pat, rep); }
  }

  lemma RestIsReplaced(e: Edit, pat: seq<Byte>, rep: seq<Byte>)
    requires Within(e.buf, e.cur) && pat != []
    ensures RestReplaced(e, pat, rep).buf == ReplacedFrom(e.buf, e.cur, pat, rep)
    ensures !Finds(e.buf, e.cur, pat) ==> ReplacedFrom(e.buf, e.cur, pat, rep) == e.buf
  {
    hide LineHits, Pushed, Record;
    OthersKept(e.buf, e.cur, pat, rep);
    var (a, b) := (FirstLine(e.buf, e.cur, pat, 0), LastLineWith(e.buf, e.cur, pat, |e.buf|));
    if b < a { assert ReplacedFrom(e.buf, e.cur, pat, rep) == e.buf; }
    assert b >= 0 ==> Finds(e.buf, e.cur, pat);
  }

  /** Any number of times yes, and then all: the text is what all at once would have made of it. */
  lemma {:induction false} YesThenAll(e: Edit, pat: seq<Byte>, rep: seq<Byte>, n: nat)
    requires Within(e.buf, e.cur) && pat != []
    ensures Prompted(e, pat, rep, seq(n, _ => Yes) + [All]).buf == ReplacedFrom(e.buf, e.cur, pat, rep)
    decreases n
  {
    hide Prompted, NextHit, OneReplaced, RestReplaced, Finds, Occurs, ReplacedLine, Clamped;
    var answers := seq(n, _ => Yes) + [All];
    PromptStep(e, pat, rep, answers);
    var hit := NextHit(e.buf, e.cur, pat);
    if hit.None? {
      RestIsReplaced(e, pat, rep);
    } else {
      var f := e.(cur := hit.value);
      HitWithin(e.buf, f.cur, pat);
      assert ReplacedFrom(f.buf, f.cur, pat, rep) == ReplacedFrom(e.buf, e.cur, pat, rep) by {
        forall k: nat | k < |e.buf| { ReplacedFromHit(e.buf, e.cur, pat, rep, k); }
      }
      if n == 0 {
        RestIsReplaced(f, pat, rep);
      } else {
        var g := OneReplaced(f, |pat|, rep);
        assert answers[1..] == seq(n - 1, _ => Yes) + [All];
        ReplacedFromNext(f, pat, rep, 0);
        YesThenAll(g, pat, rep, n - 1);
        assert ReplacedFrom(g.buf, g.cur, pat, rep) == ReplacedFrom(f.buf, f.cur, pat, rep) by {
          forall k: nat | k < |f.buf| { ReplacedFromNext(f, pat, rep, k); }
        }
      }
    }
  }
}
