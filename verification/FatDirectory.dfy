/** Whole directories: which entries a walk delivers, and under which names. */
module FatDirectory {
  import opened Optional
  import opened Octets
  import opened FatChain
  import opened FatNames

  // ── One long name ──────────────────────────────────────────────────

  /** Whether a name is cut off after its last fragment: by the terminator that a name
      not filling it leaves there, or by what the buffer holds behind it. */
  predicate CutOff(st: Scan, name: seq<Byte>)
    requires |name| <= 255
  {
    |name| % 13 != 0 || st.lfn[|name|] == 0
  }

  lemma SpreadSize(frags: seq<Slot>, name: seq<Byte>)
    requires Spread(frags, name)
    ensures |frags| == Pieces(name)
    ensures Letters(name, |frags| * 13, |frags| * 13) == []
  {
  }

  /** The entry behind the fragments of a long name is delivered under exactly that name
      if and only if the name is cut off. */
  lemma LongNameDelivered(stop: Item -> bool, st: Scan, frags: seq<Slot>, name: seq<Byte>, entry: Slot)
    requires IsAscii(name) && 1 <= |name| <= 255 && Spread(frags, name)
    ensures var w := WalkOver(stop, st, Slots(frags)); w.More? && (NameFor(w.st, entry) == name <==> CutOff(st, name))
  {
    hide WalkOver, Spread, IsAscii;
    SpreadSize(frags, name);
    FragmentsCollect(stop, st, frags, 0, name);
    assert frags[0..] == frags;
    var got := WalkOver(stop, st, Slots(frags)).st.lfn;
    NameCollected(got, st, name);
  }

  lemma NameCollected(got: Name261, st: Scan, name: seq<Byte>)
    requires IsAscii(name) && 1 <= |name| <= 255
    requires got[..Pieces(name) * 13] == Letters(name, 0, Pieces(name) * 13)
    requires got[Pieces(name) * 13..] == st.lfn[Pieces(name) * 13..]
    ensures got[0] != 0 && (CStr(got[260 := 0], 0) == name <==> CutOff(st, name))
  {
    var n := |name|;
    var end := Pieces(name) * 13;
    var all := got[260 := 0];
    forall k | 0 <= k < n
      ensures got[k] == name[k] && got[k] != 0
    {
      assert got[..end][k] == Letters(name, 0, end)[k] == name[k];
    }
    assert all[0..n] == name;
    if n < end {
      assert got[..end][n] == Letters(name, 0, end)[n] == 0;
      CStrReads(all, 0, name);
    } else {
      assert got[end..][0] == st.lfn[end..][0];
      if all[n] == 0 { CStrReads(all, 0, name); }
      CStrEnds(all, 0);
    }
  }

  /** The cut is not always there: a longer name whose entry was deleted, but not its
      fragments, lengthens the next name of thirteen letters. */
  lemma StaleLettersLeak(stop: Item -> bool, was: seq<Byte>, left: seq<Slot>, gone: Slot, name: seq<Byte>,
                         frags: seq<Slot>, entry: Slot)
    requires IsAscii(was) && 13 < |was| <= 255 && Spread(left, was) && KindOf(gone).Deleted?
    requires IsAscii(name) && |name| == 13 && Spread(frags, name)
    ensures var w := WalkOver(stop, FRESH, Slots(left + [gone] + frags)); w.More? && NameFor(w.st, entry) != name
  {
    hide Spread, IsAscii, CutOff, WalkOver;
    LeftBehind(stop, was, left, gone);
    var mid := WalkOver(stop, FRESH, Slots(left + [gone])).st;
    assert Slots(left + [gone] + frags) == Slots(left + [gone]) + Slots(frags);
    WalkSplits(stop, FRESH, Slots(left + [gone]), Slots(frags));
    LongNameDelivered(stop, mid, frags, name, entry);
    NotCut(mid, name);
  }

  lemma NotCut(st: Scan, name: seq<Byte>)
    requires |name| == 13 && st.lfn[13] != 0
    ensures !CutOff(st, name)
  {
  }

  lemma LeftBehind(stop: Item -> bool, was: seq<Byte>, left: seq<Slot>, gone: Slot)
    requires IsAscii(was) && 13 < |was| <= 255 && Spread(left, was) && KindOf(gone).Deleted?
    ensures var w := WalkOver(stop, FRESH, Slots(left + [gone])); w.More? && w.st.lfn[13] == was[13] != 0
  {
    hide Spread, KindOf;
    var end := |left| * 13;
    SpreadSize(left, was);
    FragmentsCollect(stop, FRESH, left, 0, was);
    assert left[0..] == left;
    var w := WalkOver(stop, FRESH, Slots(left));
    assert w.st.lfn[..end][13] == Letters(was, 0, end)[13] == was[13];
    assert Slots([gone])[1..] == [];
    assert Slots(left + [gone]) == Slots(left) + Slots([gone]);
    WalkSplits(stop, FRESH, Slots(left), Slots([gone]));
  }

  // ── Directories ────────────────────────────────────────────────────

  /** What stands in a directory. An orphan is a fragment that no entry follows. */
  datatype Record =
    | Long(name: seq<Byte>, frags: seq<Slot>, entry: Slot)
    | Plain(entry: Slot)
    | Other(slot: Slot)
    | Orphan(slot: Slot)
  {
    ghost predicate Good() {
      match this
      case Long(name, frags, entry) =>
        IsAscii(name) && 1 <= |name| <= 255 && Spread(frags, name) && KindOf(entry).Entry?
      case Plain(entry) => KindOf(entry).Entry?
      case Other(slot) => KindOf(slot).Deleted? || KindOf(slot).Label?
      case Orphan(slot) => KindOf(slot).Fragment?
    }

    function SlotsOf(): seq<Slot> {
      match this
      case Long(_, frags, entry) => frags + [entry]
      case Plain(entry) => [entry]
      case Other(slot) => [slot]
      case Orphan(slot) => [slot]
    }

    /** What should be delivered for it. */
    function Stored(): seq<Item> {
      match this
      case Long(name, _, entry) => [Item(name, entry)]
      case Plain(entry) => [Item(CStr(Short(entry) + [0], 0), entry)]
      case _ => []
    }

    /** What is delivered for it, from a buffer in any state. */
    function Delivered(st: Scan): seq<Item> {
      match this
      case Long(_, frags, entry) => [Item(NameFor(Collected(st, frags), entry), entry)]
      case Plain(entry) => [Item(NameFor(st, entry), entry)]
      case _ => []
    }

    function Then(st: Scan): Scan {
      match this
      case Long(_, _, _) => FRESH
      case Plain(_) => FRESH
      case Other(slot) => After(st, slot)
      case Orphan(slot) => After(st, slot)
    }

    /** Nothing left over gets into its name: a long name is cut off where it ends, and no
        other long name waits for an entry that has none, unless it spells the short one. */
    predicate Undisturbed(st: Scan) {
      match this
      case Long(name, _, _) => |name| <= 255 && CutOff(st, name)
      case Plain(entry) => st.have && st.lfn[0] != 0 ==> CStr(st.lfn[260 := 0], 0) == CStr(Short(entry) + [0], 0)
      case _ => true
    }
  }

  /** The buffer after some fragments. */
  function Collected(st: Scan, frags: seq<Slot>): Scan
    decreases |frags|
  {
    if frags == [] then st else Collected(After(st, frags[0]), frags[1..])
  }

  function AllSlots(dir: seq<Record>): seq<Slot> {
    if dir == [] then [] else dir[0].SlotsOf() + AllSlots(dir[1..])
  }

  function AllStored(dir: seq<Record>): seq<Item> {
    if dir == [] then [] else dir[0].Stored() + AllStored(dir[1..])
  }

  function AllDelivered(st: Scan, dir: seq<Record>): seq<Item>
    decreases |dir|
  {
    if dir == [] then [] else dir[0].Delivered(st) + AllDelivered(dir[0].Then(st), dir[1..])
  }

  function Behind(st: Scan, dir: seq<Record>): Scan
    decreases |dir|
  {
    if dir == [] then st else Behind(dir[0].Then(st), dir[1..])
  }

  predicate AllUndisturbed(st: Scan, dir: seq<Record>)
    decreases |dir|
  {
    dir == [] || (dir[0].Undisturbed(st) && AllUndisturbed(dir[0].Then(st), dir[1..]))
  }

  /** The first item that stops the walk. */
  function FirstHit(stop: Item -> bool, items: seq<Item>): (r: Option<Item>)
    ensures r.None? <==> forall i | 0 <= i < |items| :: !stop(items[i])
    ensures r.Some? ==> exists i | 0 <= i < |items| ::
      items[i] == r.value && stop(items[i]) && forall j | 0 <= j < i :: !stop(items[j])
  {
    if items == [] then None
    else if stop(items[0]) then Some(items[0])
    else FirstHit(stop, items[1..])
  }

  lemma {:induction false} CollectedWalk(stop: Item -> bool, st: Scan, frags: seq<Slot>)
    requires forall e | e in frags :: KindOf(e).Fragment?
    ensures WalkOver(stop, st, Slots(frags)) == More(Collected(st, frags))
    decreases |frags|
  {
    hide After;
    if frags != [] {
      assert Slots(frags)[1..] == Slots(frags[1..]);
      CollectedWalk(stop, After(st, frags[0]), frags[1..]);
    }
  }

  lemma SpreadAreFragments(frags: seq<Slot>, name: seq<Byte>)
    requires Spread(frags, name)
    ensures forall e | e in frags :: KindOf(e).Fragment?
  {
    hide KindOf;
    forall e | e in frags
      ensures KindOf(e).Fragment?
    {
      var t :| 0 <= t < |frags| && frags[t] == e;
      assert Holds(frags[t], name, |frags| - t);
    }
  }

  /** What a record delivers, from a buffer in any state, and the state it leaves. */
  lemma RecordWalk(stop: Item -> bool, st: Scan, r: Record)
    requires r.Good()
    ensures var w := WalkOver(stop, st, Slots(r.SlotsOf()));
      w == if r.Delivered(st) != [] && stop(r.Delivered(st)[0]) then Hit(r.Delivered(st)[0]) else More(r.Then(st))
  {
    hide NameFor, Spread;
    match r
    case Long(name, frags, entry) =>
      SpreadAreFragments(frags, name);
      CollectedWalk(stop, st, frags);
      assert Slots(frags + [entry]) == Slots(frags) + Slots([entry]);
      WalkSplits(stop, st, Slots(frags), Slots([entry]));
      EntryStep(stop, Collected(st, frags), entry);
    case Plain(entry) => EntryStep(stop, st, entry);
    case Other(slot) => assert Slots([slot])[1..] == [];
    case Orphan(slot) => assert Slots([slot])[1..] == [];
  }

  lemma EntryStep(stop: Item -> bool, st: Scan, e: Slot)
    requires KindOf(e).Entry?
    ensures var item := Item(NameFor(st, e), e);
      WalkOver(stop, st, Slots([e])) == if stop(item) then Hit(item) else More(FRESH)
  {
    hide NameFor;
    assert Slots([e])[1..] == [];
  }

  /** A record is delivered as it is stored exactly when nothing left over disturbs it. */
  lemma DeliveredAsStored(st: Scan, r: Record)
    requires r.Good()
    ensures r.Delivered(st) == r.Stored() <==> r.Undisturbed(st)
  {
    hide Spread, IsAscii, CStr, CutOff;
    match r
    case Long(name, frags, entry) =>
      SpreadAreFragments(frags, name);
      CollectedWalk(_ => false, st, frags);
      LongNameDelivered(_ => false, st, frags, name, entry);
      assert (r.Delivered(st) == r.Stored()) == (r.Delivered(st)[0] == r.Stored()[0]);
    case Plain(entry) =>
      assert (r.Delivered(st) == r.Stored()) == (r.Delivered(st)[0] == r.Stored()[0]);
    case _ =>
  }

  /** A directory delivers its items in order: the walk stops at the first one wanted, and
      otherwise goes on behind the directory. */
  lemma {:induction false} DirectoryWalk(stop: Item -> bool, st: Scan, dir: seq<Record>, tail: seq<Option<Slot>>)
    requires forall r | r in dir :: r.Good()
    ensures WalkOver(stop, st, Slots(AllSlots(dir)) + tail) ==
      match FirstHit(stop, AllDelivered(st, dir))
      case Some(item) => Hit(item)
      case None => WalkOver(stop, Behind(st, dir), tail)
    decreases |dir|
  {
    hide WalkOver, FirstHit, Record.Good, Record.SlotsOf, Record.Delivered, Record.Then;
    if dir == [] {
      assert Slots([]) + tail == tail;
      NoHit(stop);
    } else {
      var r, rest := dir[0], AllSlots(dir[1..]);
      assert r in dir && forall q | q in dir[1..] :: q in dir;
      RecordWalk(stop, st, r);
      DirectoryWalk(stop, r.Then(st), dir[1..], tail);
      SlotsRegroup(r.SlotsOf(), rest, tail);
      WalkSplits(stop, st, Slots(r.SlotsOf()), Slots(rest) + tail);
      AtMostOne(r, st);
      HitSplits(stop, r.Delivered(st), AllDelivered(r.Then(st), dir[1..]));
    }
  }

  /** Everything in a directory is delivered as it is stored exactly when nothing left over
      disturbs any of it. */
  lemma {:induction false} DirectoryAsStored(st: Scan, dir: seq<Record>)
    requires forall r | r in dir :: r.Good()
    ensures AllDelivered(st, dir) == AllStored(dir) <==> AllUndisturbed(st, dir)
    decreases |dir|
  {
    hide Record.Good, Record.SlotsOf, Record.Delivered, Record.Stored, Record.Then, Record.Undisturbed;
    if dir != [] {
      var r := dir[0];
      assert r in dir && forall q | q in dir[1..] :: q in dir;
      DeliveredAsStored(st, r);
      DirectoryAsStored(r.Then(st), dir[1..]);
      AtMostOne(r, st);
      SameSplit(r.Delivered(st), AllDelivered(r.Then(st), dir[1..]), r.Stored(), AllStored(dir[1..]));
    }
  }

  lemma SameSplit(a: seq<Item>, b: seq<Item>, c: seq<Item>, d: seq<Item>)
    requires |a| == |c|
    ensures a + b == c + d <==> a == c && b == d
  {
    assert (a + b)[..|a|] == a && (a + b)[|a|..] == b;
    assert (c + d)[..|c|] == c && (c + d)[|c|..] == d;
  }

  /** Without orphans nothing is left over. */
  lemma {:induction false} NoOrphansNothingLeft(dir: seq<Record>)
    requires forall r | r in dir :: r.Good() && !r.Orphan?
    ensures AllUndisturbed(FRESH, dir) && Behind(FRESH, dir) == FRESH
    decreases |dir|
  {
    if dir != [] {
      var r := dir[0];
      assert r in dir && forall q | q in dir[1..] :: q in dir;
      NoOrphansNothingLeft(dir[1..]);
    }
  }

  lemma SlotsRegroup(a: seq<Slot>, b: seq<Slot>, tail: seq<Option<Slot>>)
    ensures Slots(a + b) + tail == Slots(a) + (Slots(b) + tail)
  {
  }

  lemma NoHit(stop: Item -> bool)
    ensures FirstHit(stop, []) == None
  {
  }

  lemma AtMostOne(r: Record, st: Scan)
    ensures |r.Delivered(st)| == |r.Stored()| <= 1
  {
  }

  lemma HitSplits(stop: Item -> bool, a: seq<Item>, b: seq<Item>)
    requires |a| <= 1
    ensures FirstHit(stop, a + b) == if a != [] && stop(a[0]) then Some(a[0]) else FirstHit(stop, b)
  {
    if a == [] { assert a + b == b; } else { assert (a + b)[1..] == b; }
  }

  // ── Finding a file ─────────────────────────────────────────────────

  function Upper(c: Byte): Byte { if 'a' as Byte <= c <= 'z' as Byte then c - 32 else c }

  /** Equal up to ASCII case. */
  predicate SameName(a: seq<Byte>, b: seq<Byte>) {
    |a| == |b| && forall i | 0 <= i < |a| :: Upper(a[i]) == Upper(b[i])
  }

  /** What the search for a file stops at. */
  function Wanted(want: seq<Byte>): Item -> bool { (item: Item) => SameName(item.name, want) && !IsDir(item.entry) }

  datatype File = File(first: nat, size: nat)

  function FileOf(e: Slot): File { File(Le16(e, 20) * 0x1_0000 + Le16(e, 26), Le32(e, 28)) }

  /** Byte `k` of a number, the lowest first. */
  function ByteOf(v: nat, k: nat): Byte { if k == 0 then (v % 256) as Byte else ByteOf(v / 256, k - 1) }

  /** An entry that says where a file starts, in two halves, and how long it is. */
  predicate SaysFile(e: Slot, first: nat, size: nat) {
    && e[26] == ByteOf(first, 0) && e[27] == ByteOf(first, 1) && e[20] == ByteOf(first, 2) && e[21] == ByteOf(first, 3)
    && forall k | 0 <= k < 4 :: e[28 + k] == ByteOf(size, k)
  }

  /** It gives them back. */
  lemma EntryGivesBack(e: Slot, first: nat, size: nat)
    requires first < U32 && size < U32 && SaysFile(e, first, size)
    ensures FileOf(e) == File(first, size)
  {
    FourBytes(first);
    FourBytes(size);
    assert e[28] == ByteOf(size, 0) && e[28 + 1] == ByteOf(size, 1) && e[28 + 2] == ByteOf(size, 2) &&
      e[28 + 3] == ByteOf(size, 3);
  }

  lemma FourBytes(v: nat)
    requires v < U32
    ensures v == ByteOf(v, 0) as nat +
      (ByteOf(v, 1) as nat + (ByteOf(v, 2) as nat + ByteOf(v, 3) as nat * 256) * 256) * 256
  {
    hide ByteOf;
    var (a, b, c) := (v / 256, v / 256 / 256, v / 256 / 256 / 256);
    BytesStep(v);
    BytesStep(a);
    BytesStep(b);
    BytesStep(c);
    assert c < 256;
  }

  lemma BytesStep(v: nat)
    ensures v == v / 256 * 256 + ByteOf(v, 0) as nat && (v < 256 ==> ByteOf(v, 0) as nat == v)
    ensures ByteOf(v, 1) == ByteOf(v / 256, 0) && ByteOf(v, 2) == ByteOf(v / 256, 1) &&
      ByteOf(v, 3) == ByteOf(v / 256, 2)
  {
  }
}
