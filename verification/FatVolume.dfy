/** The mounted volume: walking the root directory through one sector buffer, and reading
    a file into memory. */
module FatVolume {
  import opened Optional
  import opened Octets
  import opened FatChain
  import opened FatNames
  import opened FatDirectory

  // ── The root directory as one run of slots ─────────────────────────

  function SectorSlots(b: Sector, from: nat): (r: seq<Option<Slot>>)
    requires from <= 16
    ensures |r| == 16 - from
    decreases 16 - from
  {
    if from == 16 then [] else [Some(b[from * 32..from * 32 + 32])] + SectorSlots(b, from + 1)
  }

  /** The slots of a cluster from sector `s` on; a block that cannot be read shows as a gap. */
  function ClusterSlots(fs: Fs, card: Card, c: nat, s: nat): seq<Option<Slot>>
    requires c >= 2
    decreases fs.perCluster - s
  {
    if s >= fs.perCluster then []
    else
      var b := fs.Block(c, s);
      (if b in card then SectorSlots(card[b], 0) else [None]) + ClusterSlots(fs, card, c, s + 1)
  }

  /** The slots of the first `n` clusters from `c` on. */
  function Listing(fs: Fs, card: Card, c: nat, n: nat): seq<Option<Slot>>
    decreases n
  {
    if n == 0 || c < 2 then [] else ClusterSlots(fs, card, c, 0) + Listing(fs, card, fs.Next(card, c), n - 1)
  }

  /** The cluster `n` links behind `c`. */
  function Nth(fs: Fs, card: Card, c: nat, n: nat): nat
    decreases n
  {
    if n == 0 || c < 2 then c else Nth(fs, card, fs.Next(card, c), n - 1)
  }

  /** The walk is over within `n` clusters: the chain ends, or something stops it. */
  ghost predicate Settles(fs: Fs, card: Card, want: seq<Byte>, st: Scan, c: nat, n: nat) {
    Nth(fs, card, c, n) < 2 || !WalkOver(Wanted(want), st, Listing(fs, card, c, n)).More?
  }

  /** How a piece of the walk came out. */
  datatype Gone = Found(entry: Slot) | Over | Broken | On

  ghost predicate Agrees(g: Gone, w: Walk, lfn: seq<Byte>, have: bool) {
    match w
    case Hit(item) => g == Found(item.entry)
    case Ended => g.Over?
    case Failed => g.Broken?
    case More(st) => g.On? && st.lfn == lfn && st.have == have
  }

  lemma OneSlot(stop: Item -> bool, st: Scan, e: Slot)
    ensures var w := WalkOver(stop, st, [Some(e)]);
      w == if KindOf(e).End? then Ended
           else if KindOf(e).Entry? && stop(Item(NameFor(st, e), e)) then Hit(Item(NameFor(st, e), e))
           else More(After(st, e))
  {
    hide NameFor, KindOf, After;
  }

  class Volume {
    const card: Card
    const fs: Fs
    const sectorBuf: array<Byte>

    ghost predicate Valid() { fs.Fits() && sectorBuf.Length == 512 }

    constructor (card: Card, fs: Fs)
      requires fs.Fits()
      ensures Valid() && this.card == card && this.fs == fs && fresh(sectorBuf)
    {
      this.card := card;
      this.fs := fs;
      sectorBuf := new Byte[512];
    }

    /** Reads blocks into memory; what was read before a bad block stays there. */
    method Read(lba: nat, count: nat, dst: array<Byte>, at: nat) returns (ok: bool)
      requires at + 512 * count <= dst.Length
      modifies dst
      ensures ok <==> forall b | lba <= b < lba + count :: b in card
      ensures ok ==> forall k | 0 <= k < 512 * count :: dst[at + k] == card[lba + k / 512][k % 512]
      ensures forall k | 0 <= k < at || at + 512 * count <= k < dst.Length :: dst[k] == old(dst[k])
    {
      for i := 0 to count
        invariant forall b | lba <= b < lba + i :: b in card
        invariant forall k | 0 <= k < 512 * i :: dst[at + k] == card[lba + k / 512][k % 512]
        invariant forall k | 0 <= k < at || at + 512 * count <= k < dst.Length :: dst[k] == old(dst[k])
      {
        if lba + i !in card { return false; }
        var sector := card[lba + i];
        forall j | 0 <= j < 512 {
          dst[at + 512 * i + j] := sector[j];
        }
        forall k | 512 * i <= k < 512 * i + 512
          ensures dst[at + k] == card[lba + k / 512][k % 512]
        {
          var j := k - 512 * i;
          assert dst[at + 512 * i + j] == sector[j];
          assert k / 512 == i && k % 512 == j;
        }
      }
      return true;
    }

    /** One block into the sector buffer. */
    method ReadBlock(lba: nat) returns (ok: bool)
      requires Valid()
      modifies sectorBuf
      ensures ok <==> lba in card
      ensures ok ==> sectorBuf[..] == card[lba]
    {
      ok := Read(lba, 1, sectorBuf, 0);
      if ok {
        forall k | 0 <= k < 512
          ensures sectorBuf[k] == card[lba][k]
        {
          assert sectorBuf[0 + k] == card[lba + k / 512][k % 512];
        }
      }
    }

    method NextCluster(c: nat) returns (n: nat)
      requires Valid()
      modifies sectorBuf
      ensures n == fs.Next(card, c)
    {
      var ok := ReadBlock(fs.EntryBlock(c));
      if !ok { return 0; }
      var v := Le32(sectorBuf[..], fs.EntryAt(c)) % 0x1000_0000;
      if v >= 0x0FFF_FFF7 { return 0; }
      if v < 2 || (fs.totalClusters != 0 && v >= (fs.totalClusters + 2) % U32) { return 0; }
      return v;
    }

    // ── Reading a file ───────────────────────────────────────────────

    /** The whole of a cluster goes straight to its place. */
    method WholeCluster(c: nat, dst: array<Byte>, at: nat) returns (ok: bool)
      requires Valid() && fs.perCluster > 0 && c >= 2 && at + fs.Span() <= dst.Length
      modifies dst
      ensures ok <==> fs.Reaches(card, c, fs.Span())
      ensures ok ==> forall k | 0 <= k < fs.Span() :: fs.ByteAt(card, c, k) == Some(dst[at + k])
      ensures forall k | 0 <= k < at || at + fs.Span() <= k < dst.Length :: dst[k] == old(dst[k])
    {
      ok := Read(fs.Block(c, 0), fs.perCluster, dst, at);
      if ok {
        forall k | 0 <= k < fs.Span()
          ensures fs.ByteAt(card, c, k) == Some(dst[at + k])
        {
          assert fs.Block(c, k / 512) == fs.Block(c, 0) + k / 512;
        }
      } else {
        var b :| fs.Block(c, 0) <= b < fs.Block(c, 0) + fs.perCluster && b !in card;
        var k := 512 * (b - fs.Block(c, 0));
        assert k / 512 == b - fs.Block(c, 0);
        assert fs.ByteAt(card, c, k).None?;
      }
    }

    /** The last cluster comes by sectors, through the buffer, and only as far as it is needed. */
    method PartCluster(c: nat, chunk: nat, dst: array<Byte>, at: nat) returns (ok: bool)
      requires Valid() && fs.perCluster > 0 && c >= 2 && chunk < fs.Span() && at + chunk <= dst.Length &&
        dst != sectorBuf
      modifies dst, sectorBuf
      ensures ok <==> fs.Reaches(card, c, chunk)
      ensures ok ==> forall k | 0 <= k < chunk :: fs.ByteAt(card, c, k) == Some(dst[at + k])
      ensures forall k | 0 <= k < at || at + chunk <= k < dst.Length :: dst[k] == old(dst[k])
    {
      var done, s := 0, 0;
      while s < fs.perCluster && done < chunk
        invariant done == if s * 512 < chunk then s * 512 else chunk
        invariant forall k | 0 <= k < done :: fs.ByteAt(card, c, k) == Some(dst[at + k])
        invariant forall k | 0 <= k < at || at + chunk <= k < dst.Length :: dst[k] == old(dst[k])
        decreases fs.perCluster - s
      {
        ok := ReadBlock(fs.Block(c, s));
        if !ok {
          assert fs.ByteAt(card, c, done).None?;
          return;
        }
        var take := if chunk - done < 512 then chunk - done else 512;
        forall j | 0 <= j < take {
          dst[at + done + j] := sectorBuf[j];
        }
        forall k | done <= k < done + take
          ensures fs.ByteAt(card, c, k) == Some(dst[at + k])
        {
          var j := k - done;
          assert dst[at + done + j] == sectorBuf[j] == card[fs.Block(c, s)][j];
          assert k / 512 == s && k % 512 == j;
        }
        done := done + take;
        s := s + 1;
      }
      return true;
    }

    method OneCluster(c: nat, chunk: nat, dst: array<Byte>, at: nat) returns (ok: bool)
      requires Valid() && fs.perCluster > 0 && c >= 2 && chunk <= fs.Span() && at + chunk <= dst.Length &&
        dst != sectorBuf
      modifies dst, sectorBuf
      ensures ok <==> fs.Reaches(card, c, chunk)
      ensures ok ==> forall k | 0 <= k < chunk :: fs.ByteAt(card, c, k) == Some(dst[at + k])
      ensures forall k | 0 <= k < at || at + chunk <= k < dst.Length :: dst[k] == old(dst[k])
    {
      if chunk == fs.Span() {
        ok := WholeCluster(c, dst, at);
      } else {
        ok := PartCluster(c, chunk, dst, at);
      }
    }

    /** From place `at` of the file on, the bytes are those of the chain from `c`. */
    ghost predicate GoesOnAt(first: nat, at: nat, c: nat)
      requires fs.perCluster > 0
    {
      forall j: nat :: fs.ByteAt(card, c, j) == fs.ByteAt(card, first, at + j)
    }

    lemma NextCarriesOn(first: nat, at: nat, c: nat)
      requires fs.perCluster > 0 && c >= 2 && GoesOnAt(first, at, c)
      ensures GoesOnAt(first, at + fs.Span(), fs.Next(card, c))
    {
      var n := fs.Next(card, c);
      forall j: nat
        ensures fs.ByteAt(card, n, j) == fs.ByteAt(card, first, at + fs.Span() + j)
      {
        assert fs.ByteAt(card, c, fs.Span() + j) == fs.ByteAt(card, n, j);
        assert at + (fs.Span() + j) == at + fs.Span() + j;
      }
    }

    /** What has been copied so far. */
    ghost predicate Copied(first: nat, dst: array<Byte>, at: nat)
      requires fs.perCluster > 0 && at <= dst.Length
      reads dst
    {
      fs.Spells(card, first, dst[..at])
    }

    lemma CopiedOn(first: nat, dst: array<Byte>, at: nat, c: nat, chunk: nat)
      requires fs.perCluster > 0 && at + chunk <= dst.Length && Copied(first, dst, at) && GoesOnAt(first, at, c)
      requires forall k | 0 <= k < chunk :: fs.ByteAt(card, c, k) == Some(dst[at + k])
      ensures Copied(first, dst, at + chunk)
    {
      forall k | 0 <= k < at + chunk
        ensures fs.ByteAt(card, first, k) == Some(dst[..at + chunk][k])
      {
        if k < at {
          assert dst[..at][k] == dst[k];
        } else {
          assert fs.ByteAt(card, c, k - at) == Some(dst[at + (k - at)]);
        }
      }
    }

    lemma CannotReach(first: nat, at: nat, c: nat, chunk: nat, size: nat)
      requires fs.perCluster > 0 && GoesOnAt(first, at, c) && at + chunk <= size && !fs.Reaches(card, c, chunk)
      ensures !fs.Reaches(card, first, size)
    {
      var j :| 0 <= j < chunk && fs.ByteAt(card, c, j).None?;
      assert fs.ByteAt(card, first, at + j).None?;
    }

    lemma CopiedReaches(first: nat, dst: array<Byte>, at: nat)
      requires fs.perCluster > 0 && at <= dst.Length && Copied(first, dst, at)
      ensures fs.Reaches(card, first, at)
    {
    }

    /** True exactly when the file fits and every byte of it can be read; then the
        destination starts with it. Nothing behind its size is ever written. */
    method ReadFile(f: File, dst: array<Byte>, max: nat) returns (ok: bool)
      requires Valid() && max <= dst.Length && dst != sectorBuf
      modifies dst, sectorBuf
      ensures ok <==> fs.ready && f.first >= 2 && f.size <= max && fs.Reaches(card, f.first, f.size)
      ensures ok ==> fs.Spells(card, f.first, dst[..f.size])
      ensures forall k | f.size <= k < dst.Length :: dst[k] == old(dst[k])
    {
      if !fs.ready || f.first < 2 { return false; }
      if f.size > max { return false; }
      ok := FollowChain(f.first, f.size, dst);
    }

    method FollowChain(first: nat, size: nat, dst: array<Byte>) returns (ok: bool)
      requires Valid() && fs.perCluster > 0 && first >= 2 && size <= dst.Length && dst != sectorBuf
      modifies dst, sectorBuf
      ensures ok <==> fs.Reaches(card, first, size)
      ensures ok ==> fs.Spells(card, first, dst[..size])
      ensures forall k | size <= k < dst.Length :: dst[k] == old(dst[k])
    {
      hide Fs.Reaches, Fs.ByteAt, Fs.Spells, Fs.Next, Fs.Block, GoesOnAt;
      var at: nat, remaining: nat, c: nat := 0, size, first;
      StartsOff(first, dst);
      while c != 0 && remaining != 0
        invariant at + remaining == size && (c == 0 || c >= 2)
        invariant Copied(first, dst, at)
        invariant remaining > 0 ==> GoesOnAt(first, at, c)
        invariant forall k | size <= k < dst.Length :: dst[k] == old(dst[k])
        decreases remaining
      {
        var chunk := if remaining < fs.Span() then remaining else fs.Span();
        label Before:
        ok := OneCluster(c, chunk, dst, at);
        if !ok {
          CannotReach(first, at, c, chunk, size);
          return;
        }
        assert dst[..at] == old@Before(dst[..at]);
        CopiedOn(first, dst, at, c, chunk);
        label Read:
        var n := NextCluster(c);
        assert dst[..] == old@Read(dst[..]);
        if chunk == fs.Span() { NextCarriesOn(first, at, c); }
        at, remaining, c := at + chunk, remaining - chunk, n;
      }
      if remaining != 0 {
        NothingAtZero();
        CannotReach(first, at, 0, 1, size);
        return false;
      }
      CopiedReaches(first, dst, at);
      return true;
    }

    lemma StartsOff(first: nat, dst: array<Byte>)
      requires fs.perCluster > 0
      ensures Copied(first, dst, 0) && GoesOnAt(first, 0, first)
    {
      forall j: nat
        ensures fs.ByteAt(card, first, j) == fs.ByteAt(card, first, 0 + j)
      {
      }
    }

    lemma NothingAtZero()
      requires fs.perCluster > 0
      ensures !fs.Reaches(card, 0, 1)
    {
      assert fs.ByteAt(card, 0, 0).None?;
    }

    // ── Walking the root directory ───────────────────────────────────

    /** Takes the letters of a fragment, up to its terminator; what is behind stays zero. */
    method LfnChars(e: Slot, part: array<Byte>)
      requires part.Length == 14 && forall k | 0 <= k < 14 :: part[k] == 0
      modifies part
      ensures part[..13] == PartFrom(e, 0)
    {
      hide PartFrom, Unit;
      ghost var whole := PartFrom(e, 0);
      for i := 0 to 13
        invariant forall k | i <= k < 14 :: part[k] == 0
        invariant forall k | 0 <= k < i :: part[k] == whole[k]
        invariant whole[i..] == PartFrom(e, i)
      {
        PartStep(e, i);
        assert whole[i] == PartFrom(e, i)[0];
        var c := Unit(e, i);
        if c == 0 || c == 0xFFFF {
          part[i] := 0;
          assert whole == whole[..i] + whole[i..];
          assert part[..13] == whole[..i] + Zeros(13 - i);
          return;
        }
        part[i] := if c < 0x80 then c as Byte else '?' as Byte;
        assert whole[i + 1..] == whole[i..][1..];
      }
    }

    /** Spells out a short name, with a NUL behind it. */
    method Expand83(e: Slot, out: array<Byte>)
      requires out.Length == 16
      modifies out
      ensures CStr(out[..], 0) == CStr(Short(e) + [0], 0) && 0 in out[..]
    {
      var n := CopyField(e, 0, 8, out, 0);
      assert out[..n] == UpToSpace(e, 0, 8);
      if e[8] != ' ' as Byte {
        out[n] := '.' as Byte;
        ghost var stem := out[..n + 1];
        assert stem == UpToSpace(e, 0, 8) + ['.' as Byte];
        n := CopyField(e, 8, 11, out, n + 1);
        assert out[..n] == stem + UpToSpace(e, 8, 11);
      }
      assert out[..n] == Short(e);
      out[n] := 0;
      assert out[..n + 1] == Short(e) + [0];
      CutAtNul(out[..], Short(e) + [0], 0);
      assert out[..][n] == 0;
    }

    method CopyField(e: Slot, from: nat, end: nat, out: array<Byte>, at: nat) returns (n: nat)
      requires from <= end <= 11 && at + (end - from) <= out.Length
      modifies out
      ensures n == at + |UpToSpace(e, from, end)|
      ensures out[..n] == old(out[..at]) + UpToSpace(e, from, end)
    {
      n := at;
      var i := from;
      while i < end && e[i] != ' ' as Byte
        invariant from <= i <= end && n == at + (i - from)
        invariant n + |UpToSpace(e, i, end)| == at + |UpToSpace(e, from, end)|
        invariant out[..n] + UpToSpace(e, i, end) == old(out[..at]) + UpToSpace(e, from, end)
      {
        ghost var before := out[..n];
        out[n] := e[i];
        n, i := n + 1, i + 1;
        assert out[..n] == before + [e[i - 1]];
        assert out[..n] + UpToSpace(e, i, end) == before + UpToSpace(e, i - 1, end);
      }
    }

    /** Compares two strings up to ASCII case; the first one ends at its NUL. */
    method NameEq(a: array<Byte>, want: seq<Byte>) returns (same: bool)
      requires 0 in a[..]
      ensures same == SameName(CStr(a[..], 0), want)
    {
      ghost var name := CStr(a[..], 0);
      CStrEnds(a[..], 0);
      InString(a[..]);
      var i := 0;
      while a[i] != 0 && i < |want|
        invariant i <= |name| < a.Length && i <= |want|
        invariant forall j | 0 <= j < i :: Upper(name[j]) == Upper(want[j])
        decreases |want| - i
      {
        assert i < |name| && a[i] == name[i] by { assert a[..][0..|name|] == name; }
        if Upper(a[i]) != Upper(want[i]) { return false; }
        i := i + 1;
      }
      same := a[i] == 0 && i == |want|;
      assert i < |name| ==> a[i] == name[i] by { assert a[..][0..|name|] == name; }
    }

    /** What the search does with an entry. */
    method FindCallback(name: array<Byte>, e: Slot, want: seq<Byte>) returns (stop: bool)
      requires 0 in name[..]
      ensures stop == Wanted(want)(Item(CStr(name[..], 0), e))
    {
      var same := NameEq(name, want);
      stop := same && !IsDir(e);
    }

    /** One slot of the directory. */
    method TakeSlot(e: Slot, want: seq<Byte>, lfn: array<Byte>, have: bool) returns (g: Gone, now: bool)
      requires lfn.Length == 261
      modifies lfn
      ensures Agrees(g, WalkOver(Wanted(want), Scan(old(lfn[..]), have), [Some(e)]), lfn[..], now)
    {
      hide PartFrom, NameFor, Unit, Put, CStr, Short;
      now := have;
      OneSlot(Wanted(want), Scan(lfn[..], have), e);
      match KindOf(e)
      case End => g := Over;
      case Deleted => g, now := On, false;
      case Label => g, now := On, false;
      case Fragment =>
        g := On;
        if 1 <= Order(e) <= 20 {
          TakeFragment(e, lfn);
          now := true;
        }
      case Entry =>
        var hit := TakeEntry(e, want, lfn, have);
        if hit { return Found(e), have; }
        forall k | 0 <= k < 261 {
          lfn[k] := 0;
        }
        assert lfn[..] == Zeros(261);
        g, now := On, false;
    }

    method TakeFragment(e: Slot, lfn: array<Byte>)
      requires lfn.Length == 261 && 1 <= Order(e) <= 20
      modifies lfn
      ensures lfn[..] == Put(old(lfn[..]), (Order(e) - 1) * 13, PartFrom(e, 0))
    {
      hide PartFrom, Order;
      var part := new Byte[14](_ => 0);
      LfnChars(e, part);
      var at := (Order(e) - 1) * 13;
      ghost var got := PartFrom(e, 0);
      forall j | 0 <= j < 13 {
        lfn[at + j] := part[j];
      }
      forall k | 0 <= k < 261
        ensures lfn[k] == if at <= k < at + 13 then got[k - at] else old(lfn[k])
      {
        if at <= k < at + 13 {
          var j := k - at;
          assert lfn[at + j] == part[..13][j];
        }
      }
    }

    /** An entry is delivered under the long name, if one was collected. */
    method TakeEntry(e: Slot, want: seq<Byte>, lfn: array<Byte>, have: bool) returns (stop: bool)
      requires lfn.Length == 261
      modifies lfn
      ensures stop == Wanted(want)(Item(NameFor(Scan(old(lfn[..]), have), e), e))
    {
      hide CStr, Short;
      var short := new Byte[16];
      Expand83(e, short);
      if have && lfn[0] != 0 {
        lfn[260] := 0;
        assert lfn[..] == old(lfn[..])[260 := 0];
        assert lfn[..][260] == 0;
        stop := FindCallback(lfn, e, want);
      } else {
        stop := FindCallback(short, e, want);
      }
    }

    method WalkSector(want: seq<Byte>, lfn: array<Byte>, have: bool) returns (g: Gone, now: bool)
      requires Valid() && lfn.Length == 261 && lfn != sectorBuf
      modifies lfn
      ensures Agrees(g, WalkOver(Wanted(want), Scan(old(lfn[..]), have), SectorSlots(sectorBuf[..], 0)), lfn[..], now)
    {
      hide WalkOver, Wanted, SectorSlots;
      ghost var b: Sector, stop, st0 := sectorBuf[..], Wanted(want), Scan(lfn[..], have);
      g, now := On, have;
      for i := 0 to 16
        invariant sectorBuf[..] == b
        invariant WalkOver(stop, st0, SectorSlots(b, 0)) == WalkOver(stop, Scan(lfn[..], now), SectorSlots(b, i))
      {
        hide WalkOver, Wanted, SectorSlots;
        var e := sectorBuf[i * 32..i * 32 + 32];
        assert e == b[i * 32..i * 32 + 32];
        SectorStep(stop, Scan(lfn[..], now), b, i);
        g, now := TakeSlot(e, want, lfn, now);
        if !g.On? { return; }
      }
      WalkNothing(stop, Scan(lfn[..], now));
      SectorDone(b);
      g := On;
    }

    method WalkCluster(c: nat, want: seq<Byte>, lfn: array<Byte>, have: bool) returns (g: Gone, now: bool)
      requires Valid() && c >= 2 && lfn.Length == 261 && lfn != sectorBuf
      modifies lfn, sectorBuf
      ensures Agrees(g, WalkOver(Wanted(want), Scan(old(lfn[..]), have), ClusterSlots(fs, card, c, 0)), lfn[..], now)
    {
      hide WalkOver, Wanted, SectorSlots, ClusterSlots, Fs.Block;
      ghost var stop, st0 := Wanted(want), Scan(lfn[..], have);
      g, now := On, have;
      var s := 0;
      while s < fs.perCluster
        invariant 0 <= s <= fs.perCluster
        invariant WalkOver(stop, st0, ClusterSlots(fs, card, c, 0)) ==
                  WalkOver(stop, Scan(lfn[..], now), ClusterSlots(fs, card, c, s))
      {
        hide WalkOver, Wanted, SectorSlots, ClusterSlots, Fs.Block;
        ClusterStep(stop, Scan(lfn[..], now), fs, card, c, s);
        label Reading:
        var ok := ReadBlock(fs.Block(c, s));
        assert lfn[..] == old@Reading(lfn[..]);
        if !ok { return Broken, now; }
        g, now := WalkSector(want, lfn, now);
        if !g.On? { return; }
        s := s + 1;
      }
      WalkNothing(stop, Scan(lfn[..], now));
      ClusterDone(fs, card, c, s);
      g := On;
    }

    /** Walks the clusters of the root directory until something stops it; `n` clusters are
        enough for that. */
    method WalkRoot(want: seq<Byte>, ghost n: nat) returns (g: Gone)
      requires Valid() && fs.ready && Settles(fs, card, want, FRESH, fs.rootCluster, n)
      modifies sectorBuf
      ensures SameEnd(g, WalkOver(Wanted(want), FRESH, Listing(fs, card, fs.rootCluster, n)))
    {
      hide WalkOver, Wanted, SectorSlots, ClusterSlots, Fs.Block, Fs.Next, Nth, Listing;
      ghost var stop := Wanted(want);
      var lfn := new Byte[261](_ => 0);
      assert lfn[..] == Zeros(261);
      var now := false;
      var c := fs.rootCluster;
      ghost var left: nat := n;
      g := On;
      while c != 0
        invariant (c == 0 || c >= 2) && g.On?
        invariant fresh(lfn) && lfn.Length == 261
        invariant c != 0 ==> Settles(fs, card, want, Scan(lfn[..], now), c, left)
        invariant WalkOver(stop, FRESH, Listing(fs, card, fs.rootCluster, n)) ==
                  WalkOver(stop, Scan(lfn[..], now), Listing(fs, card, c, left))
        decreases left
      {
        hide WalkOver, Wanted, SectorSlots, ClusterSlots, Fs.Block, Fs.Next, Nth, Listing;
        SettlesLater(fs, card, want, Scan(lfn[..], now), c, left);
        ListingStep(stop, Scan(lfn[..], now), fs, card, c, left);
        g, now := WalkCluster(c, want, lfn, now);
        if !g.On? { return; }
        label Linking:
        c := NextCluster(c);
        assert lfn[..] == old@Linking(lfn[..]);
        left := left - 1;
      }
      ListingEnds(stop, Scan(lfn[..], now), fs, card, left);
    }

    /** The file of the given name: that of the first entry wanted. */
    method Find(want: seq<Byte>, ghost n: nat) returns (f: Option<File>)
      requires Valid() && (fs.ready ==> Settles(fs, card, want, FRESH, fs.rootCluster, n))
      modifies sectorBuf
      ensures !fs.ready ==> f == None
      ensures fs.ready ==>
        f == var w := WalkOver(Wanted(want), FRESH, Listing(fs, card, fs.rootCluster, n));
          if w.Hit? then Some(FileOf(w.item.entry)) else None
    {
      hide WalkOver, Listing;
      if !fs.ready { return None; }
      var g := WalkRoot(want, n);
      f := if g.Found? then Some(FileOf(g.entry)) else None;
    }
  }

  lemma WalkNothing(stop: Item -> bool, st: Scan)
    ensures WalkOver(stop, st, []) == More(st)
  {
  }

  lemma SectorDone(b: Sector)
    ensures SectorSlots(b, 16) == []
  {
  }

  lemma SectorStep(stop: Item -> bool, st: Scan, b: Sector, i: nat)
    requires i < 16
    ensures var w := WalkOver(stop, st, [Some(b[i * 32..i * 32 + 32])]);
      WalkOver(stop, st, SectorSlots(b, i)) == if w.More? then WalkOver(stop, w.st, SectorSlots(b, i + 1)) else w
  {
    hide WalkOver;
    WalkSplits(stop, st, [Some(b[i * 32..i * 32 + 32])], SectorSlots(b, i + 1));
  }

  lemma ClusterDone(fs: Fs, card: Card, c: nat, s: nat)
    requires c >= 2 && s >= fs.perCluster
    ensures ClusterSlots(fs, card, c, s) == []
  {
  }

  lemma ClusterStep(stop: Item -> bool, st: Scan, fs: Fs, card: Card, c: nat, s: nat)
    requires c >= 2 && s < fs.perCluster
    ensures fs.Block(c, s) in card ==>
      var w := WalkOver(stop, st, SectorSlots(card[fs.Block(c, s)], 0));
      WalkOver(stop, st, ClusterSlots(fs, card, c, s)) ==
        if w.More? then WalkOver(stop, w.st, ClusterSlots(fs, card, c, s + 1)) else w
    ensures fs.Block(c, s) !in card ==> WalkOver(stop, st, ClusterSlots(fs, card, c, s)).Failed?
  {
    hide SectorSlots;
    if fs.Block(c, s) in card {
      WalkSplits(stop, st, SectorSlots(card[fs.Block(c, s)], 0), ClusterSlots(fs, card, c, s + 1));
    }
  }

  lemma ListingStep(stop: Item -> bool, st: Scan, fs: Fs, card: Card, c: nat, n: nat)
    requires c >= 2 && n > 0
    ensures var w := WalkOver(stop, st, ClusterSlots(fs, card, c, 0));
      WalkOver(stop, st, Listing(fs, card, c, n)) ==
        if w.More? then WalkOver(stop, w.st, Listing(fs, card, fs.Next(card, c), n - 1)) else w
    ensures Nth(fs, card, c, n) == Nth(fs, card, fs.Next(card, c), n - 1)
  {
    hide WalkOver, ClusterSlots;
    WalkSplits(stop, st, ClusterSlots(fs, card, c, 0), Listing(fs, card, fs.Next(card, c), n - 1));
  }

  /** In a root directory whose slots are those of some records, ended by a mark or by the
      chain, the walk is over and stops at the first record wanted, wherever the sectors
      and clusters cut it. Records count as stored unless something left over disturbs them. */
  lemma DirectoryFound(fs: Fs, card: Card, want: seq<Byte>, n: nat, dir: seq<Record>, tail: seq<Option<Slot>>)
    requires forall r | r in dir :: r.Good()
    requires Listing(fs, card, fs.rootCluster, n) == Slots(AllSlots(dir)) + tail
    requires if tail == [] then Nth(fs, card, fs.rootCluster, n) < 2 else tail[0].Some? && KindOf(tail[0].value).End?
    ensures Settles(fs, card, want, FRESH, fs.rootCluster, n)
    ensures var w := WalkOver(Wanted(want), FRESH, Listing(fs, card, fs.rootCluster, n));
      match FirstHit(Wanted(want), AllDelivered(FRESH, dir))
      case Some(item) => w == Hit(item)
      case None => w == More(Behind(FRESH, dir)) || w == Ended
    ensures AllUndisturbed(FRESH, dir) ==> AllDelivered(FRESH, dir) == AllStored(dir)
  {
    hide Listing, Nth, AllSlots, AllDelivered, AllStored, AllUndisturbed, Behind, FirstHit, Record.Good, Wanted;
    DirectoryWalk(Wanted(want), FRESH, dir, tail);
    DirectoryAsStored(FRESH, dir);
  }

  ghost predicate SameEnd(g: Gone, w: Walk) {
    match w
    case Hit(item) => g == Found(item.entry)
    case Ended => g.Over?
    case Failed => g.Broken?
    case More(_) => g.On?
  }

  lemma SettlesLater(fs: Fs, card: Card, want: seq<Byte>, st: Scan, c: nat, n: nat)
    requires c >= 2 && Settles(fs, card, want, st, c, n)
    ensures n > 0
  {
  }

  lemma {:induction false} ListingSplits(fs: Fs, card: Card, c: nat, a: nat, b: nat)
    ensures Listing(fs, card, c, a + b) == Listing(fs, card, c, a) + Listing(fs, card, Nth(fs, card, c, a), b)
    ensures Nth(fs, card, c, a + b) == Nth(fs, card, Nth(fs, card, c, a), b)
    decreases a
  {
    hide ClusterSlots, Fs.Next;
    if a > 0 && c >= 2 { ListingSplits(fs, card, fs.Next(card, c), a - 1, b); }
  }

  /** The end of a chain stays its end. */
  lemma EndStays(fs: Fs, card: Card, c: nat, n: nat)
    requires c < 2
    ensures Nth(fs, card, c, n) == c
  {
  }

  /** A directory whose chain goes round, and in which one round finds nothing and leaves the scan as
      it was, is walked for ever: no number of clusters is enough. */
  lemma {:induction false} RoundForEver(fs: Fs, card: Card, want: seq<Byte>, st: Scan, c: nat, k: nat, n: nat)
    requires k > 0 && c >= 2 && Nth(fs, card, c, k) == c
    requires WalkOver(Wanted(want), st, Listing(fs, card, c, k)) == More(st)
    ensures !Settles(fs, card, want, st, c, n)
    decreases n
  {
    hide WalkOver, Wanted, Listing, Nth;
    var stop := Wanted(want);
    if n >= k {
      RoundForEver(fs, card, want, st, c, k, n - k);
      ListingSplits(fs, card, c, k, n - k);
      WalkSplits(stop, st, Listing(fs, card, c, k), Listing(fs, card, c, n - k));
    } else {
      ListingSplits(fs, card, c, n, k - n);
      var d := Nth(fs, card, c, n);
      WalkSplits(stop, st, Listing(fs, card, c, n), Listing(fs, card, d, k - n));
      if d < 2 { EndStays(fs, card, d, k - n); }
    }
  }

  lemma ListingEnds(stop: Item -> bool, st: Scan, fs: Fs, card: Card, n: nat)
    ensures WalkOver(stop, st, Listing(fs, card, 0, n)) == More(st)
  {
  }

  lemma PartStep(e: Slot, i: nat)
    requires i < 13
    ensures var c := Unit(e, i);
      PartFrom(e, i) == if c == 0 || c == 0xFFFF then Zeros(13 - i)
                        else [if c < 0x80 then c as Byte else '?' as Byte] + PartFrom(e, i + 1)
  {
    hide Unit;
  }

  lemma {:induction false} CutAtNul(m: seq<Byte>, s: seq<Byte>, p: nat)
    requires |s| <= |m| && m[..|s|] == s && p < |s| && s[|s| - 1] == 0
    ensures CStr(m, p) == CStr(s, p)
    decreases |s| - p
  {
    assert m[p] == s[p];
    if m[p] != 0 { CutAtNul(m, s, p + 1); }
  }

  lemma InString(m: seq<Byte>)
    requires 0 in m
    ensures |CStr(m, 0)| < |m|
  {
    CStrEnds(m, 0);
    var s := CStr(m, 0);
    var i :| 0 <= i < |m| && m[i] == 0;
  }
}
