/** Directory slots: how a long name is spread over them, and what walking over them
    delivers. */
module FatNames {
  import opened Optional
  import opened Octets
  import opened FatChain

  type Slot = s: seq<Byte> | |s| == 32 witness Zeros(32)

  // ── One slot ───────────────────────────────────────────────────────

  datatype Kind = End | Deleted | Fragment | Label | Entry

  function KindOf(e: Slot): Kind {
    var attr := e[11] as int;
    if e[0] == 0 then End
    else if e[0] == 0xE5 then Deleted
    else if attr % 16 == 15 then Fragment
    else if attr / 8 % 2 == 1 then Label
    else Entry
  }

  predicate IsDir(e: Slot) { e[11] as int / 16 % 2 == 1 }

  /** Which part of the name a fragment holds, counted from one. */
  function Order(e: Slot): nat { e[0] as int % 64 }

  /** Where the thirteen units of a fragment stand. */
  function UnitPlace(i: nat): (p: nat)
    requires i < 13
    ensures p + 2 <= 32
  {
    if i < 5 then 1 + 2 * i else if i < 11 then 14 + 2 * (i - 5) else 28 + 2 * (i - 11)
  }

  function Unit(e: Slot, i: nat): int
    requires i < 13
  {
    Le16(e, UnitPlace(i))
  }

  /** A fragment as ASCII from unit `i` on: up to a terminator, then zeros. */
  function PartFrom(e: Slot, i: nat): (r: seq<Byte>)
    requires i <= 13
    ensures |r| == 13 - i
    decreases 13 - i
  {
    if i == 13 then []
    else if Unit(e, i) == 0 || Unit(e, i) == 0xFFFF then Zeros(13 - i)
    else [if Unit(e, i) < 0x80 then Unit(e, i) as Byte else '?' as Byte] + PartFrom(e, i + 1)
  }

  /** The short name, with a dot before a non-empty extension. */
  function Short(e: Slot): (r: seq<Byte>)
    ensures |r| <= 12
  {
    UpToSpace(e, 0, 8) + if e[8] == ' ' as Byte then [] else ['.' as Byte] + UpToSpace(e, 8, 11)
  }

  function UpToSpace(e: Slot, i: nat, end: nat): (r: seq<Byte>)
    requires i <= end <= 32
    ensures |r| <= end - i
    decreases end - i
  {
    if i == end || e[i] == ' ' as Byte then [] else [e[i]] + UpToSpace(e, i + 1, end)
  }

  /** A field that holds some letters and spaces behind them. */
  predicate Padded(e: Slot, from: nat, end: nat, s: seq<Byte>)
    requires from <= end <= 32
  {
    && |s| <= end - from && ' ' as Byte !in s
    && (forall k | 0 <= k < |s| :: e[from + k] == s[k])
    && forall k | from + |s| <= k < end :: e[k] == ' ' as Byte
  }

  lemma {:induction false} PaddedReads(e: Slot, from: nat, end: nat, s: seq<Byte>)
    requires from <= end <= 32 && Padded(e, from, end, s)
    ensures UpToSpace(e, from, end) == s
    decreases |s|
  {
    if s != [] {
      assert e[from] == s[0] && s[0] in s;
      forall k | 0 <= k < |s| - 1 ensures e[from + 1 + k] == s[1..][k] { assert e[from + (k + 1)] == s[k + 1]; }
      PaddedReads(e, from + 1, end, s[1..]);
    }
  }

  /** A name and an extension written into their fields are spelled with a dot between them, or with none
      where there is no extension. */
  lemma ShortSpells(e: Slot, stem: seq<Byte>, ext: seq<Byte>)
    requires Padded(e, 0, 8, stem) && Padded(e, 8, 11, ext)
    ensures Short(e) == if ext == [] then stem else stem + ['.' as Byte] + ext
  {
    PaddedReads(e, 0, 8, stem);
    PaddedReads(e, 8, 11, ext);
    if ext != [] { assert e[8 + 0] == ext[0] && ext[0] in ext; }
  }

  // ── Walking ────────────────────────────────────────────────────────

  type Name261 = s: seq<Byte> | |s| == 261 witness Zeros(261)

  /** The name collected so far. */
  datatype Scan = Scan(lfn: Name261, have: bool)

  const FRESH := Scan(Zeros(261), false)

  function Put(lfn: Name261, at: nat, part: seq<Byte>): (r: Name261)
    requires at + |part| <= 261
    ensures forall k | 0 <= k < 261 :: r[k] == if at <= k < at + |part| then part[k - at] else lfn[k]
  {
    lfn[..at] + part + lfn[at + |part|..]
  }

  function After(st: Scan, e: Slot): Scan {
    match KindOf(e)
    case End => st
    case Fragment =>
      if 1 <= Order(e) <= 20 then Scan(Put(st.lfn, (Order(e) - 1) * 13, PartFrom(e, 0)), true) else st
    case Entry => FRESH
    case _ => st.(have := false)
  }

  /** The name an entry is delivered under. */
  function NameFor(st: Scan, e: Slot): seq<Byte> {
    if st.have && st.lfn[0] != 0 then CStr(st.lfn[260 := 0], 0) else CStr(Short(e) + [0], 0)
  }

  datatype Item = Item(name: seq<Byte>, entry: Slot)

  /** How a walk goes: stopped at an item, past the end mark, at a block that cannot be
      read, or out of slots with this much of a name collected. */
  datatype Walk = Hit(item: Item) | Ended | Failed | More(st: Scan)

  function WalkOver(stop: Item -> bool, st: Scan, slots: seq<Option<Slot>>): Walk
    decreases |slots|
  {
    if slots == [] then More(st)
    else if slots[0].None? then Failed
    else
      var e := slots[0].value;
      if KindOf(e).End? then Ended
      else if KindOf(e).Entry? && stop(Item(NameFor(st, e), e)) then Hit(Item(NameFor(st, e), e))
      else WalkOver(stop, After(st, e), slots[1..])
  }

  /** A walk may be cut anywhere. */
  lemma {:induction false} WalkSplits(stop: Item -> bool, st: Scan, a: seq<Option<Slot>>, b: seq<Option<Slot>>)
    ensures var w := WalkOver(stop, st, a);
      WalkOver(stop, st, a + b) == if w.More? then WalkOver(stop, w.st, b) else w
    decreases |a|
  {
    if a == [] {
      assert a + b == b;
    } else {
      assert (a + b)[1..] == a[1..] + b;
      if a[0].Some? { WalkSplits(stop, After(st, a[0].value), a[1..], b); }
    }
  }

  function Slots(es: seq<Slot>): (r: seq<Option<Slot>>)
    ensures |r| == |es| && forall i | 0 <= i < |es| :: r[i] == Some(es[i])
  {
    seq(|es|, i requires 0 <= i < |es| => Some(es[i]))
  }

  // ── Long names in fragments ────────────────────────────────────────

  predicate IsAscii(name: seq<Byte>) { forall k | 0 <= k < |name| :: 0 < name[k] < 0x80 }

  /** Unit `k` of a stored name: behind it one zero, then padding. */
  function NameUnit(name: seq<Byte>, k: nat): (u: int)
    ensures 0 <= u <= 0xFFFF
  {
    if k < |name| then name[k] as int else if k == |name| then 0 else 0xFFFF
  }

  function Pieces(name: seq<Byte>): nat { (|name| + 12) / 13 }

  /** A slot holding part `i` of the name, whatever its flags, type, checksum and cluster. */
  ghost predicate Holds(e: Slot, name: seq<Byte>, i: nat) {
    && i >= 1 && KindOf(e).Fragment? && Order(e) == i
    && forall j | 0 <= j < 13 :: Unit(e, j) == NameUnit(name, (i - 1) * 13 + j)
  }

  /** The fragments of a name stand before its entry, the last one first. */
  ghost predicate Spread(frags: seq<Slot>, name: seq<Byte>) {
    |frags| == Pieces(name) && forall t | 0 <= t < |frags| :: Holds(frags[t], name, |frags| - t)
  }

  /** The last part of a name carries a mark besides its number. */
  function OrderByte(name: seq<Byte>, i: nat): Byte
    requires 1 <= i <= 20
  {
    if i == Pieces(name) then (i + 64) as Byte else i as Byte
  }

  /** Such a slot. */
  function MakeFragment(name: seq<Byte>, i: nat, sum: Byte): (e: Slot)
    requires 1 <= i <= 20
  {
    var at := (i - 1) * 13;
    FragmentStart([OrderByte(name, i)], UnitsAt(name, at, 5), [15, 0, sum]) +
    FragmentEnd(UnitsAt(name, at + 5, 6), UnitsAt(name, at + 11, 2))
  }

  function FragmentStart(order: seq<Byte>, units: seq<Byte>, marks: seq<Byte>): (r: seq<Byte>)
    requires |order| == 1 && |units| == 10 && |marks| == 3
    ensures |r| == 14 && r[0] == order[0] && r[1..11] == units && r[11..14] == marks
  {
    order + units + marks
  }

  function FragmentEnd(units: seq<Byte>, last: seq<Byte>): (r: seq<Byte>)
    requires |units| == 12 && |last| == 4
    ensures |r| == 18 && r[..12] == units && r[12] == r[13] == 0 && r[14..] == last
  {
    units + [0, 0] + last
  }

  function UnitsAt(name: seq<Byte>, at: nat, n: nat): (r: seq<Byte>)
    ensures |r| == 2 * n
    decreases n
  {
    if n == 0 then [] else
      var u := NameUnit(name, at + n - 1);
      UnitsAt(name, at, n - 1) + [(u % 256) as Byte, (u / 256) as Byte]
  }

  lemma {:induction false} UnitReads(name: seq<Byte>, at: nat, n: nat, j: nat)
    requires j < n
    ensures Le16(UnitsAt(name, at, n), 2 * j) == NameUnit(name, at + j)
    decreases n
  {
    var r, q := UnitsAt(name, at, n), UnitsAt(name, at, n - 1);
    if j < n - 1 {
      UnitReads(name, at, n - 1, j);
      assert r[2 * j] == q[2 * j] && r[2 * j + 1] == q[2 * j + 1];
    } else {
      var u := NameUnit(name, at + j);
      assert r[2 * j] as int == u % 256 && r[2 * j + 1] as int == u / 256;
    }
  }

  /** A piece of a slot that starts at `p`, read in place. */
  lemma ReadsWithin(e: Slot, p: nat, r: seq<Byte>, j: nat)
    requires p + |r| <= 32 && e[p..p + |r|] == r && 2 * j + 2 <= |r|
    ensures Le16(e, p + 2 * j) == Le16(r, 2 * j)
  {
    assert e[p + 2 * j] == r[2 * j] && e[p + 2 * j + 1] == r[2 * j + 1];
  }

  lemma MadeFragmentHolds(name: seq<Byte>, i: nat, sum: Byte)
    requires 1 <= i <= 20
    ensures Holds(MakeFragment(name, i, sum), name, i)
  {
    hide Le16, UnitsAt, NameUnit, Pieces, FragmentStart, FragmentEnd;
    var e := MakeFragment(name, i, sum);
    var at := (i - 1) * 13;
    var (a, b, c) := (UnitsAt(name, at, 5), UnitsAt(name, at + 5, 6), UnitsAt(name, at + 11, 2));
    var (start, end) := (FragmentStart([OrderByte(name, i)], a, [15, 0, sum]), FragmentEnd(b, c));
    assert e == start + end;
    assert e[1..11] == start[1..11] && e[14..26] == end[..12] && e[28..32] == end[14..];
    assert e[11] == start[11..14][0] && e[13] == start[11..14][2] && e[12] == start[11..14][1];
    forall j | 0 <= j < 13
      ensures Unit(e, j) == NameUnit(name, at + j)
    {
      if j < 5 {
        UnitReads(name, at, 5, j);
        ReadsWithin(e, 1, a, j);
      } else if j < 11 {
        UnitReads(name, at + 5, 6, j - 5);
        ReadsWithin(e, 14, b, j - 5);
      } else {
        UnitReads(name, at + 11, 2, j - 11);
        ReadsWithin(e, 28, c, j - 11);
      }
    }
  }

  /** Letter `k` of the collected name. */
  function Letter(name: seq<Byte>, k: nat): Byte { if k < |name| then name[k] else 0 }

  /** Letters `from` to `to`. */
  function Letters(name: seq<Byte>, from: nat, to: nat): (r: seq<Byte>)
    requires from <= to
    ensures |r| == to - from && forall k | 0 <= k < to - from :: r[k] == Letter(name, from + k)
  {
    seq(to - from, k requires 0 <= k < to - from => Letter(name, from + k))
  }

  lemma {:induction false} PartIsName(e: Slot, name: seq<Byte>, i: nat, j: nat)
    requires Holds(e, name, i) && IsAscii(name) && j <= 13
    requires (i - 1) * 13 + j <= |name| || j == 13
    ensures PartFrom(e, j) == Letters(name, (i - 1) * 13 + j, i * 13)
    decreases 13 - j
  {
    hide Unit, KindOf, Order;
    if j < 13 {
      var at := (i - 1) * 13 + j;
      assert Unit(e, j) == NameUnit(name, at);
      if at < |name| {
        assert 0 < name[at] < 0x80;
        PartIsName(e, name, i, j + 1);
        assert Letters(name, at, i * 13) == [name[at]] + Letters(name, at + 1, i * 13);
      } else {
        assert Letters(name, at, i * 13) == Zeros(13 - j);
      }
    }
  }

  /** One fragment joins the letters already collected behind it. */
  lemma FragmentStep(st: Scan, e: Slot, name: seq<Byte>, i: nat, n: nat)
    requires Holds(e, name, i) && IsAscii(name) && (i - 1) * 13 <= |name| && i <= n <= 20
    requires st.lfn[i * 13..n * 13] == Letters(name, i * 13, n * 13)
    ensures After(st, e).have
    ensures After(st, e).lfn[(i - 1) * 13..n * 13] == Letters(name, (i - 1) * 13, n * 13)
    ensures After(st, e).lfn[n * 13..] == st.lfn[n * 13..]
  {
    hide PartFrom, KindOf, Order, IsAscii, Letter;
    PartIsName(e, name, i, 0);
    assert After(st, e) == Scan(Put(st.lfn, (i - 1) * 13, PartFrom(e, 0)), true);
    var s := After(st, e).lfn;
    assert s[(i - 1) * 13..i * 13] == Letters(name, (i - 1) * 13, i * 13);
    assert s[i * 13..n * 13] == st.lfn[i * 13..n * 13];
    var at := (i - 1) * 13;
    assert s[at..n * 13] == s[at..i * 13] + s[i * 13..n * 13];
    assert Letters(name, at, n * 13) == Letters(name, at, i * 13) + Letters(name, i * 13, n * 13);
    assert s[n * 13..] == st.lfn[n * 13..];
  }

  /** Walking over the fragments collects the whole name and leaves the rest of the buffer. */
  lemma {:induction false} FragmentsCollect(stop: Item -> bool, st: Scan, frags: seq<Slot>, t: nat, name: seq<Byte>)
    requires IsAscii(name) && 1 <= |name| <= 255 && Spread(frags, name) && t <= |frags|
    requires t > 0 ==> st.have
    requires st.lfn[(|frags| - t) * 13..|frags| * 13] == Letters(name, (|frags| - t) * 13, |frags| * 13)
    ensures var w := WalkOver(stop, st, Slots(frags[t..]));
      && w.More? && w.st.have
      && w.st.lfn[..|frags| * 13] == Letters(name, 0, |frags| * 13)
      && w.st.lfn[|frags| * 13..] == st.lfn[|frags| * 13..]
    decreases |frags| - t
  {
    hide IsAscii, After, Letter;
    if t < |frags| {
      var e := frags[t];
      assert Holds(e, name, |frags| - t);
      FragmentStep(st, e, name, |frags| - t, |frags|);
      assert Slots(frags[t..])[1..] == Slots(frags[t + 1..]);
      FragmentsCollect(stop, After(st, e), frags, t + 1, name);
    }
  }
}
