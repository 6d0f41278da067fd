/** Undo records: what they hold, how a stack of them describes earlier buffers, and
    what is evicted to keep the history within its budget. */
module EditHistory {
  import opened Octets
  import opened EditLines

  const MAX_LINES := 20000
  const UNDO_MAX := 64
  const UNDO_BYTES := 192 * 1024

  /** The `nadd` lines in `blob` stand for the `nremove` lines now at `at`; the cursor
      was at `cy`, `cx` when they did. */
  datatype Change = Change(at: int, nadd: nat, nremove: nat, blob: seq<Byte>, cy: int, cx: int)

  /** What a buffer may be: some lines, not too many, no newline inside any. */
  ghost predicate Good(buf: seq<Line>) { 1 <= |buf| <= MAX_LINES && Clean(buf) }

  predicate Fits(c: Change, buf: seq<Line>) {
    0 <= c.at && c.at + c.nremove <= |buf| && 1 <= |buf| - c.nremove + c.nadd <= MAX_LINES
  }

  function Applied(c: Change, buf: seq<Line>): seq<Line>
    requires Fits(c, buf)
  {
    Splice(buf, c.at, c.nremove, Parts(c.blob, 0, c.nadd))
  }

  /** The record of the lines `at..at+nold`, made before `mnew` lines replace them. */
  function Record(buf: seq<Line>, at: int, nold: nat, mnew: nat, p: Pos): Change
    requires 0 <= at && at + nold <= |buf|
  {
    Change(at, nold, mnew, Joined(buf[at..at + nold]), p.y, p.x)
  }

  /** A record made before a change undoes it, whatever lines the change puts there, if and
      only if no newline stands inside a line it holds. */
  lemma RecordUndoesClean(buf: seq<Line>, at: int, nold: nat, add: seq<Line>, p: Pos)
    requires 1 <= |buf| <= MAX_LINES && 0 <= at && at + nold <= |buf| && 1 <= |buf| - nold + |add| <= MAX_LINES
    ensures var c := Record(buf, at, nold, |add|, p); var after := Splice(buf, at, nold, add);
      Fits(c, after) && (Applied(c, after) == buf <==> Clean(buf[at..at + nold]))
  {
    hide Parts, Joined, Clean;
    var after := Splice(buf, at, nold, add);
    var was := buf[at..at + nold];
    var back := Parts(Joined(was), 0, nold);
    CaptureReadsBack(was);
    assert after[..at] == buf[..at] && after[at + |add|..] == buf[at + nold..];
    var r := after[..at] + back + after[at + |add|..];
    assert r[at..at + nold] == back;
    assert buf[..at] + was + buf[at + nold..] == buf;
  }

  lemma RecordUndoes(buf: seq<Line>, at: int, nold: nat, add: seq<Line>, p: Pos)
    requires Good(buf) && 0 <= at && at + nold <= |buf| && 1 <= |buf| - nold + |add| <= MAX_LINES
    ensures var c := Record(buf, at, nold, |add|, p); var after := Splice(buf, at, nold, add);
      Fits(c, after) && Applied(c, after) == buf
  {
    RecordUndoesClean(buf, at, nold, add, p);
  }

  /** A line that holds a character and the newline after it: its record loses what follows. */
  lemma NewlineIsLost(p: Pos)
    ensures var buf: seq<Line> := [[195, NL, 65]];
      var c := Record(buf, 0, 1, 1, p);
      var after := Splice(buf, 0, 1, [[]]);
      Fits(c, after) && Applied(c, after) != buf
  {
    var buf: seq<Line> := [[195, NL, 65]];
    assert buf[0][1] == NL;
    assert !Clean(buf[0..1]) by { assert buf[0..1][0] == buf[0]; }
    RecordUndoesClean(buf, 0, 1, [[]], p);
  }

  /** Applying a record and recording what it replaces gives its exact inverse. */
  lemma InverseUndoes(c: Change, buf: seq<Line>, p: Pos)
    requires Good(buf) && Fits(c, buf)
    ensures var inv := Record(buf, c.at, c.nremove, c.nadd, p);
      Fits(inv, Applied(c, buf)) && Applied(inv, Applied(c, buf)) == buf
    ensures Good(Applied(c, buf))
  {
    var add := Parts(c.blob, 0, c.nadd);
    RecordUndoes(buf, c.at, c.nremove, add, p);
    PartsAreClean(c.blob, 0, c.nadd);
  }

  // ── Stacks of records ──────────────────────────────────────────────

  /** Each record, applied when the ones above it have been, gives back the buffer that
      stood when it was made; `snaps` are those buffers, oldest first. */
  ghost predicate Chain(recs: seq<Change>, snaps: seq<seq<Line>>, buf: seq<Line>)
    decreases |recs|
  {
    && |recs| == |snaps|
    && (recs != [] ==>
          var n := |recs| - 1;
          && Good(snaps[n]) && Fits(recs[n], buf) && Applied(recs[n], buf) == snaps[n]
          && Chain(recs[..n], snaps[..n], snaps[n]))
  }

  /** The buffer after `k` records have been taken off the top and applied. */
  ghost function Rewound(recs: seq<Change>, snaps: seq<seq<Line>>, buf: seq<Line>, k: nat): seq<Line>
    requires Chain(recs, snaps, buf) && k <= |recs|
    decreases k
  {
    if k == 0 then buf
    else
      var n := |recs| - 1;
      Rewound(recs[..n], snaps[..n], Applied(recs[n], buf), k - 1)
  }

  /** Taking records off the top restores the earlier buffers one after the other. */
  lemma {:induction false} RewindsInOrder(recs: seq<Change>, snaps: seq<seq<Line>>, buf: seq<Line>, k: nat)
    requires Chain(recs, snaps, buf) && k <= |recs|
    ensures Rewound(recs, snaps, buf, k) == if k == 0 then buf else snaps[|recs| - k]
    decreases k
  {
    if k > 0 {
      hide Applied, Fits, Good, Chain;
      var n := |recs| - 1;
      ChainBelow(recs, snaps, buf);
      RewindsInOrder(recs[..n], snaps[..n], snaps[n], k - 1);
      RewindStep(recs, snaps, buf, k);
    }
  }

  lemma ChainBelow(recs: seq<Change>, snaps: seq<seq<Line>>, buf: seq<Line>)
    requires Chain(recs, snaps, buf) && recs != []
    ensures |snaps| == |recs| && Chain(recs[..|recs| - 1], snaps[..|recs| - 1], snaps[|recs| - 1])
  {
    hide Applied, Fits, Good;
  }

  lemma RewindStep(recs: seq<Change>, snaps: seq<seq<Line>>, buf: seq<Line>, k: nat)
    requires Chain(recs, snaps, buf) && 0 < k <= |recs|
    ensures var n := |recs| - 1;
      Chain(recs[..n], snaps[..n], snaps[n]) &&
        Rewound(recs, snaps, buf, k) == Rewound(recs[..n], snaps[..n], snaps[n], k - 1)
  {
    hide Good, Fits;
  }

  /** Forgetting the oldest records leaves the others as true as before. */
  lemma {:induction false} ChainDrop(recs: seq<Change>, snaps: seq<seq<Line>>, buf: seq<Line>, k: nat)
    requires Chain(recs, snaps, buf) && k <= |recs|
    ensures Chain(recs[k..], snaps[k..], buf)
    decreases |recs|
  {
    if k < |recs| {
      var n := |recs| - 1;
      ChainDrop(recs[..n], snaps[..n], snaps[n], k);
      assert recs[k..][..n - k] == recs[..n][k..];
      assert snaps[k..][..n - k] == snaps[..n][k..];
    }
  }

  lemma ChainPush(recs: seq<Change>, snaps: seq<seq<Line>>, buf: seq<Line>, c: Change, after: seq<Line>)
    requires Chain(recs, snaps, buf) && Good(buf) && Fits(c, after) && Applied(c, after) == buf
    ensures Chain(recs + [c], snaps + [buf], after)
  {
    assert (recs + [c])[..|recs|] == recs && (snaps + [buf])[..|snaps|] == snaps;
  }

  // ── The budget ─────────────────────────────────────────────────────

  function Held(recs: seq<Change>): nat {
    if recs == [] then 0 else |recs[0].blob| + Held(recs[1..])
  }

  lemma {:induction false} HeldPush(recs: seq<Change>, c: Change)
    ensures Held(recs + [c]) == Held(recs) + |c.blob|
  {
    if recs == [] {
      assert [c][1..] == [];
    } else {
      HeldPush(recs[1..], c);
      assert (recs + [c])[1..] == recs[1..] + [c];
    }
  }

  /** What is left of both stacks once there is room for `size` more bytes: the other
      stack gives up its oldest records first. */
  function Room(own: seq<Change>, other: seq<Change>, size: nat): (seq<Change>, seq<Change>)
    decreases |own| + |other|
  {
    if Held(own) + Held(other) + size <= UNDO_BYTES then (own, other)
    else if other != [] then Room(own, other[1..], size)
    else if own != [] then Room(own[1..], other, size)
    else (own, other)
  }

  /** Both stacks after a push, and whether the record went on. */
  function Pushed(own: seq<Change>, other: seq<Change>, c: Change): (seq<Change>, seq<Change>, bool) {
    var kept := if |own| == UNDO_MAX then own[1..] else own;
    var (o, t) := Room(kept, other, |c.blob|);
    if Held(o) + Held(t) + |c.blob| <= UNDO_BYTES then (o + [c], t, true) else (o, t, false)
  }

  /** Depth and budget allow one more record of this size on a stack, beside the other one. */
  ghost predicate Takes(own: seq<Change>, other: seq<Change>, size: nat) {
    |own| < UNDO_MAX && Held(own) + Held(other) + size <= UNDO_BYTES
  }

  /** `r` is what is left of `s` when its oldest entries are dropped. */
  ghost predicate Tail<T>(r: seq<T>, s: seq<T>) { |r| <= |s| && r == s[|s| - |r|..] }

  lemma TailItself(s: seq<Change>)
    ensures Tail(s, s) && (s != [] ==> Tail(s[1..], s)) && (s == [] ==> Held(s) == 0)
  {
  }

  lemma TailSize<T>(r: seq<T>, s: seq<T>)
    requires Tail(r, s)
    ensures |r| <= |s|
  {
  }

  lemma TailOfTail<T>(q: seq<T>, r: seq<T>, s: seq<T>)
    requires Tail(q, r) && Tail(r, s)
    ensures Tail(q, s)
  {
    assert q == s[|s| - |r|..][|r| - |q|..];
  }

  /** Room is made by dropping oldest records only, from the own stack only when the
      other one is gone, and never more than needed. */
  lemma {:induction false} RoomDropsOldest(own: seq<Change>, other: seq<Change>, size: nat)
    ensures var (o, t) := Room(own, other, size);
      && Tail(o, own) && Tail(t, other) && (o != own ==> t == [])
      && Held(o) + Held(t) <= UNDO_BYTES
      && (Held(o) + Held(t) + size <= UNDO_BYTES || (o == [] && t == []))
      && (Held(own) + Held(other) + size <= UNDO_BYTES ==> o == own && t == other)
      && (Held(o) + Held(t) + size <= UNDO_BYTES <==> size <= UNDO_BYTES)
    decreases |own| + |other|
  {
    hide Held, Tail;
    TailItself(own);
    TailItself(other);
    if Held(own) + Held(other) + size > UNDO_BYTES {
      if other != [] {
        RoomDropsOldest(own, other[1..], size);
        TailOfTail(Room(own, other, size).1, other[1..], other);
      } else if own != [] {
        RoomDropsOldest(own[1..], other, size);
        TailOfTail(Room(own, other, size).0, own[1..], own);
      }
    }
  }

  /** A record too big for its stack leaves it empty, and an empty one beside it stays so. */
  lemma PushOnAlone(own: seq<Change>, other: seq<Change>, c: Change)
    requires |own| <= UNDO_MAX
    ensures var (o, t, ok) := Pushed(own, other, c); (!ok ==> o == []) && (other == [] ==> t == [])
  {
    hide Pushed;
    PushKeepsBudget(own, other, c);
  }

  /** A push keeps the budget and the depth, and fails only for a record that would not
      fit into an empty history. */
  lemma PushKeepsBudget(own: seq<Change>, other: seq<Change>, c: Change)
    requires |own| <= UNDO_MAX
    ensures var (o, t, ok) := Pushed(own, other, c);
      && Held(o) + Held(t) <= UNDO_BYTES && |o| <= UNDO_MAX && Tail(t, other)
      && (ok <==> |c.blob| <= UNDO_BYTES)
      && (ok ==> o != [] && o[|o| - 1] == c && Tail(o[..|o| - 1], own))
      && (!ok ==> o == [] && t == [])
      && (|own| < UNDO_MAX && Held(own) + Held(other) + |c.blob| <= UNDO_BYTES ==> o == own + [c] && t == other)
  {
    hide Room, Held, Tail;
    var kept := if |own| == UNDO_MAX then own[1..] else own;
    RoomDropsOldest(kept, other, |c.blob|);
    var (o, t) := Room(kept, other, |c.blob|);
    HeldPush(o, c);
    LastOff(o, c);
    TailItself(own);
    TailSize(o, kept);
    TailOfTail(o, kept, own);
  }

  lemma LastOff(o: seq<Change>, c: Change)
    ensures (o + [c])[..|o|] == o && (o + [c])[|o|] == c
  {
  }

  /** The snapshots of a stack that has `k` records left. */
  function SnapsLeft<T>(snaps: seq<T>, k: nat): seq<T> { if k <= |snaps| then snaps[|snaps| - k..] else snaps }

  function SnapsPushed<T>(snaps: seq<T>, k: nat, ok: bool, before: T): seq<T> {
    if ok && 0 < k then SnapsLeft(snaps, k - 1) + [before] else []
  }

  /** A push on one stack, as the buffer goes from `before` to `after`, keeps both
      stacks true: the one pushed on was true of `before`, the other is of `after`. */
  lemma PushKeepsChains(own: seq<Change>, ownSnaps: seq<seq<Line>>, other: seq<Change>, otherSnaps: seq<seq<Line>>,
                        c: Change, before: seq<Line>, after: seq<Line>)
    requires Chain(own, ownSnaps, before) && Chain(other, otherSnaps, after) && |own| <= UNDO_MAX
    requires Good(before) && Fits(c, after) && Applied(c, after) == before
    ensures var (o, t, ok) := Pushed(own, other, c);
      && Chain(o, SnapsPushed(ownSnaps, |o|, ok, before), after)
      && Chain(t, SnapsLeft(otherSnaps, |t|), after)
  {
    hide Good, Fits, Applied, Pushed, Chain, Held, Tail, SnapsLeft;
    var (o, t, ok) := Pushed(own, other, c);
    PushKeepsBudget(own, other, c);
    TailChain(other, otherSnaps, after, t);
    if ok {
      var k := |o| - 1;
      TailChain(own, ownSnaps, before, o[..k]);
      ChainPush(o[..k], SnapsLeft(ownSnaps, k), before, c, after);
      assert o == o[..k] + [c];
    } else {
      NoChain(after);
    }
  }

  lemma NoChain(buf: seq<Line>)
    ensures Chain([], [], buf)
  {
  }

  lemma TailChain(recs: seq<Change>, snaps: seq<seq<Line>>, buf: seq<Line>, t: seq<Change>)
    requires Chain(recs, snaps, buf) && Tail(t, recs)
    ensures Chain(t, SnapsLeft(snaps, |t|), buf)
  {
    hide Chain;
    ChainSizes(recs, snaps, buf);
    ChainDrop(recs, snaps, buf, |recs| - |t|);
  }

  lemma ChainSizes(recs: seq<Change>, snaps: seq<seq<Line>>, buf: seq<Line>)
    requires Chain(recs, snaps, buf)
    ensures |recs| == |snaps|
  {
    hide Good, Fits, Applied;
  }

  /** The top record covers just line `y`, so a change to that line alone leaves every record true. */
  lemma LineEdited(recs: seq<Change>, snaps: seq<seq<Line>>, buf: seq<Line>, y: nat, l: Line)
    requires Chain(recs, snaps, buf) && y < |buf|
    requires recs != [] ==> var c := recs[|recs| - 1]; c.at == y && c.nadd == 1 && c.nremove == 1
    ensures Chain(recs, snaps, buf[y := l])
  {
    if recs != [] {
      assert buf[y := l][..y] == buf[..y] && buf[y := l][y + 1..] == buf[y + 1..];
    }
  }
}
