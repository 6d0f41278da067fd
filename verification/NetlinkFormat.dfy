/** Netlink attributes: nested records with their length in front, on four-byte boundaries,
    and what the readers of the firewall get out of them. */
module NetlinkFormat {
  import opened Optional
  import opened Octets

  // ── Numbers in network byte order ──────────────────────────────────

  function BeBytes(v: nat, n: nat): (s: seq<Byte>)
    ensures |s| == n
  {
    if n == 0 then [] else BeBytes(v / 256, n - 1) + [(v % 256) as Byte]
  }

  function BeValue(s: seq<Byte>): nat {
    if s == [] then 0 else BeValue(s[..|s| - 1]) * 256 + s[|s| - 1] as nat
  }

  /** A number without its last `k` bytes. */
  function Shift(v: nat, k: nat): nat { if k == 0 then v else Shift(v, k - 1) / 256 }

  lemma {:induction false} ShiftFirst(v: nat, k: nat)
    requires k > 0
    ensures Shift(v, k) == Shift(v / 256, k - 1)
  {
    if k > 1 { ShiftFirst(v, k - 1); }
  }

  /** A number that fits is read back. */
  lemma {:induction false} BeReads(v: nat, n: nat)
    requires Shift(v, n) == 0
    ensures BeValue(BeBytes(v, n)) == v
  {
    if n > 0 {
      ShiftFirst(v, n);
      BeReads(v / 256, n - 1);
      assert BeBytes(v, n)[..n - 1] == BeBytes(v / 256, n - 1);
    }
  }

  // ── Attributes ─────────────────────────────────────────────────────

  datatype Attr = Leaf(kind: nat, data: seq<Byte>) | Nest(kind: nat, kids: seq<Attr>)

  function Put16(v: nat): (s: seq<Byte>)
    ensures |s| == 2 && Le16(s, 0) == v % 0x1_0000
  {
    [(v % 256) as Byte, (v / 256 % 256) as Byte]
  }

  /** Length and type as they stand in front of an attribute. */
  function Header(len: nat, kind: nat): (s: seq<Byte>)
    ensures |s| == 4
  {
    Put16(len) + Put16(kind)
  }

  function WireKind(a: Attr): nat { if a.Leaf? then a.kind else Nested(a.kind) }

  /** The mark of a nested attribute is set in its type. */
  function Nested(kind: nat): nat { kind % 0x8000 + 0x8000 }

  function Payload(a: Attr): seq<Byte>
    decreases a, 0
  {
    if a.Leaf? then a.data else EncodeAll(a.kids)
  }

  /** Whether a place is on a four-byte boundary. */
  predicate Aligned(n: nat) { n % 4 == 0 }

  function Padding(n: nat): seq<Byte> { Zeros(Align4(n) - n) }

  function Encode(a: Attr): (s: seq<Byte>)
    ensures |s| == 4 + Align4(|Payload(a)|)
    decreases a, 1
  {
    Header(4 + |Payload(a)|, WireKind(a)) + Payload(a) + Padding(|Payload(a)|)
  }

  function EncodeAll(s: seq<Attr>): (r: seq<Byte>)
    ensures Aligned(|r|)
    decreases s, 0
  {
    if s == [] then [] else EncodeAll(s[..|s| - 1]) + Encode(s[|s| - 1])
  }

  lemma EncodeBack(s: seq<Attr>, a: Attr)
    ensures EncodeAll(s + [a]) == EncodeAll(s) + Encode(a)
  {
    hide Encode;
    assert (s + [a])[..|s|] == s;
  }

  lemma {:induction false} EncodeFront(a: Attr, s: seq<Attr>)
    ensures EncodeAll([a] + s) == Encode(a) + EncodeAll(s)
    decreases |s|
  {
    hide Encode, EncodeAll;
    if s == [] {
      EncodeBack([], a);
      assert [a] + s == [] + [a] && EncodeAll([]) == [] by { EncodeNone(); }
    } else {
      var t, b := s[..|s| - 1], s[|s| - 1];
      EncodeFront(a, t);
      assert s == t + [b] && [a] + s == ([a] + t) + [b];
      EncodeBack(t, b);
      EncodeBack([a] + t, b);
    }
  }

  lemma EncodeNone()
    ensures EncodeAll([]) == []
  {
  }

  /** Attributes whose lengths and types fit their sixteen bits. */
  ghost predicate Fits(a: Attr)
    decreases a
  {
    && 4 + |Payload(a)| < 0x1_0000
    && (a.Leaf? ==> a.kind < 0x8000)
    && (a.Nest? ==> a.kind < 0x8000 && forall k | k in a.kids :: Fits(k))
  }

  /** Types that leave the mark of a nest alone. */
  ghost predicate PlainKinds(s: seq<Attr>)
    decreases s
  {
    forall a | a in s :: a.kind < 0x8000 && (a.Nest? ==> PlainKinds(a.kids))
  }

  /** What fits a buffer smaller than a sixteen-bit length fits its lengths. */
  lemma {:induction false} SmallFits(s: seq<Attr>)
    requires PlainKinds(s) && |EncodeAll(s)| < 0x1_0000
    ensures AllFit(s)
    decreases s
  {
    hide Encode, EncodeAll;
    if s != [] {
      var a, rest := s[0], s[1..];
      assert s == [a] + rest && a in s;
      EncodeFront(a, rest);
      assert |Encode(a)| == 4 + Align4(|Payload(a)|) && Align4(|Payload(a)|) >= |Payload(a)|;
      assert PlainKinds(rest) by { forall b | b in rest ensures b in s { } }
      SmallFits(rest);
      if a.Nest? { SmallFits(a.kids); }
      assert Fits(a);
    }
  }

  ghost predicate AllFit(s: seq<Attr>) { forall a | a in s :: Fits(a) }

  // ── A reader of whole trees ────────────────────────────────────────

  /** Reads attributes that tile the bytes exactly. */
  function DecodeAll(p: seq<Byte>): Option<seq<Attr>>
    decreases |p|
  {
    if p == [] then Some([])
    else if |p| < 4 then None
    else
      var (len, kind) := (Le16(p, 0), Le16(p, 2));
      if len < 4 || Align4(len) > |p| then None
      else
        var rest := DecodeAll(p[Align4(len)..]);
        if rest.None? then None
        else if kind < 0x8000 then Some([Leaf(kind, p[4..len])] + rest.value)
        else
          var kids := DecodeAll(p[4..len]);
          if kids.None? then None else Some([Nest(kind - 0x8000, kids.value)] + rest.value)
  }

  lemma HeaderBytes(len: nat, kind: nat, p: seq<Byte>)
    requires len < 0x1_0000 && kind < 0x1_0000 && |p| >= 4 && p[..4] == Header(len, kind)
    ensures Le16(p, 0) == len && Le16(p, 2) == kind
  {
    var h := Header(len, kind);
    assert p[0] == h[0] && p[1] == h[1] && p[2] == h[2] && p[3] == h[3];
    assert h[0] == Put16(len)[0] && h[1] == Put16(len)[1] && h[2] == Put16(kind)[0] && h[3] == Put16(kind)[1];
  }

  lemma HeaderReads(a: Attr, tail: seq<Byte>)
    requires Fits(a)
    ensures var p := Encode(a) + tail;
      && Le16(p, 0) == 4 + |Payload(a)| && Le16(p, 2) == WireKind(a)
      && p[4..4 + |Payload(a)|] == Payload(a) && p[4 + Align4(|Payload(a)|)..] == tail
  {
    hide Header, Le16, EncodeAll, Align4;
    var n := |Payload(a)|;
    var p := Encode(a) + tail;
    assert p[..4] == Header(4 + n, WireKind(a));
    HeaderBytes(4 + n, WireKind(a), p);
  }

  lemma AlignFour(n: nat)
    ensures Align4(4 + n) == 4 + Align4(n)
  {
  }

  lemma DecodeStep(a: Attr, rest: seq<Attr>, tail: seq<Byte>)
    requires Fits(a) && DecodeAll(tail) == Some(rest)
    requires a.Nest? ==> DecodeAll(Payload(a)) == Some(a.kids)
    ensures DecodeAll(Encode(a) + tail) == Some([a] + rest)
  {
    hide Encode, Align4, EncodeAll, Le16;
    HeaderReads(a, tail);
    AlignFour(|Payload(a)|);
    assert |Encode(a) + tail| >= 4;
  }

  /** What is encoded tiles its bytes, on four-byte boundaries, at every level: reading it
      gives the same tree. */
  lemma {:induction false} DecodeReads(s: seq<Attr>)
    requires AllFit(s)
    ensures DecodeAll(EncodeAll(s)) == Some(s)
    decreases s
  {
    hide Encode, DecodeAll, EncodeAll;
    if s == [] {
      NothingDecodes();
    } else {
      var a, rest := s[0], s[1..];
      assert s == [a] + rest;
      EncodeFront(a, rest);
      DecodeReads(rest);
      assert Fits(s[0]);
      if a.Nest? {
        assert AllFit(a.kids);
        DecodeReads(a.kids);
      }
      DecodeStep(a, rest, EncodeAll(rest));
    }
  }

  lemma NothingDecodes()
    ensures DecodeAll(EncodeAll([])) == Some([])
  {
  }

  // ── The readers ────────────────────────────────────────────────────

  /** The payload of the first attribute of the given type, from `off` on. */
  function FindFrom(p: seq<Byte>, off: nat, want: nat): Option<seq<Byte>>
    decreases |p| + 4 - off
  {
    if off + 4 > |p| then None
    else
      var len := Le16(p, off);
      if len < 4 || off + len > |p| then None
      else if Le16(p, off + 2) % 0x4000 == want then Some(p[off + 4..off + len])
      else FindFrom(p, off + Align4(len), want)
  }

  /** The first attribute of a type in a list. */
  function First(s: seq<Attr>, want: nat): (r: Option<Attr>)
    ensures r.None? <==> forall i | 0 <= i < |s| :: WireKind(s[i]) % 0x4000 != want
    ensures r.Some? ==> exists i | 0 <= i < |s| ::
      s[i] == r.value && WireKind(s[i]) % 0x4000 == want && forall j | 0 <= j < i :: WireKind(s[j]) % 0x4000 != want
  {
    if s == [] then None
    else if WireKind(s[0]) % 0x4000 == want then Some(s[0])
    else First(s[1..], want)
  }

  lemma FindStep(a: Attr, tail: seq<Byte>, p: seq<Byte>, off: nat, want: nat)
    requires Fits(a) && off <= |p| && p[off..] == Encode(a) + tail
    ensures var next := off + 4 + Align4(|Payload(a)|);
      && next <= |p| && p[next..] == tail
      && FindFrom(p, off, want) == if WireKind(a) % 0x4000 == want then Some(Payload(a)) else FindFrom(p, next, want)
  {
    hide Encode, Align4, EncodeAll, Le16, Fits, WireKind;
    HeaderReads(a, tail);
    var n := |Payload(a)|;
    AlignFour(n);
    ReadsAt(p, off, n);
    assert p[off + 4 + Align4(n)..] == p[off..][4 + Align4(n)..];
  }

  /** Reading encoded attributes finds the first one of each type. */
  lemma {:induction false} FindReads(s: seq<Attr>, p: seq<Byte>, off: nat, want: nat)
    requires AllFit(s) && off <= |p| && p[off..] == EncodeAll(s)
    ensures FindFrom(p, off, want) == match First(s, want) case Some(a) => Some(Payload(a)) case None => None
    decreases |s|
  {
    hide Encode, Align4, Le16, Fits, WireKind, EncodeAll;
    if s == [] {
      NothingToFind(p, off, want);
    } else {
      var a, rest := s[0], s[1..];
      assert s == [a] + rest;
      EncodeFront(a, rest);
      FindStep(a, EncodeAll(rest), p, off, want);
      if WireKind(a) % 0x4000 != want { FindReads(rest, p, off + 4 + Align4(|Payload(a)|), want); }
    }
  }

  lemma NothingToFind(p: seq<Byte>, off: nat, want: nat)
    requires off <= |p| && p[off..] == EncodeAll([])
    ensures FindFrom(p, off, want) == None
  {
  }

  lemma ReadsAt(p: seq<Byte>, off: nat, n: nat)
    requires off + 4 + n <= |p|
    ensures Le16(p, off) == Le16(p[off..], 0) && Le16(p, off + 2) == Le16(p[off..], 2)
    ensures p[off + 4..off + (4 + n)] == p[off..][4..4 + n]
  {
  }

  // ── Rule counters ──────────────────────────────────────────────────

  const LIST_ELEM := 1
  const EXPR_NAME := 1
  const EXPR_DATA := 2
  const COUNTER_BYTES := 1
  const COUNTER_PACKETS := 2

  const COUNTER: seq<Byte> := [99, 111, 117, 110, 116, 101, 114, 0]

  datatype Counter = Counter(packets: nat, bytes: nat)

  /** What an expression counts: `Cut` when one of the two numbers is shorter than the
      eight bytes that are read of it. */
  datatype Count = NoCount | Cut | Counts(c: Counter)

  function CountOf(elem: seq<Byte>): Count {
    var name := FindFrom(elem, 0, EXPR_NAME);
    if name.None? || |name.value| < 8 || name.value[..8] != COUNTER then NoCount
    else
      var data := FindFrom(elem, 0, EXPR_DATA);
      if data.None? then NoCount
      else
        var packets, bytes := FindFrom(data.value, 0, COUNTER_PACKETS), FindFrom(data.value, 0, COUNTER_BYTES);
        if packets.None? || bytes.None? then NoCount
        else if |packets.value| < 8 || |bytes.value| < 8 then Cut
        else Counts(Counter(BeValue(packets.value[..8]), BeValue(bytes.value[..8])))
  }

  /** The first expression that counts, from `off` on. */
  function CountFrom(p: seq<Byte>, off: nat): Count
    decreases |p| + 4 - off
  {
    if off + 4 > |p| then NoCount
    else
      var len := Le16(p, off);
      if len < 4 || off + len > |p| then NoCount
      else if !CountOf(p[off + 4..off + len]).NoCount? then CountOf(p[off + 4..off + len])
      else CountFrom(p, off + Align4(len))
  }

  /** The counter expression as a tree, with other attributes allowed anywhere. */
  ghost predicate IsCounter(e: Attr, c: Counter) {
    && e.Nest?
    && (var name := First(e.kids, EXPR_NAME); name.Some? && name.value.Leaf? && COUNTER <= name.value.data)
    && (var data := First(e.kids, EXPR_DATA);
        && data.Some? && data.value.Nest?
        && IsNumber(First(data.value.kids, COUNTER_PACKETS), c.packets)
        && IsNumber(First(data.value.kids, COUNTER_BYTES), c.bytes))
  }

  ghost predicate IsNumber(a: Option<Attr>, v: nat) {
    v < U64 && a.Some? && a.value.Leaf? && a.value.data == BeBytes(v, 8)
  }

  /** An expression that goes by another name. */
  ghost predicate IsOther(e: Attr) {
    e.Nest? && (var name := First(e.kids, EXPR_NAME); name.None? || (name.value.Leaf? && !(COUNTER <= name.value.data)))
  }

  lemma {:induction false} FitsShift(v: nat)
    requires v < U64
    ensures Shift(v, 8) == 0
  {
    assert Shift(v, 1) < 0x100_0000_0000_0000;
    assert Shift(v, 2) < 0x1_0000_0000_0000;
    assert Shift(v, 3) < 0x100_0000_0000;
    assert Shift(v, 4) < 0x1_0000_0000;
    assert Shift(v, 5) < 0x100_0000;
    assert Shift(v, 6) < 0x1_0000;
    assert Shift(v, 7) < 0x100;
  }

  lemma FirstFits(s: seq<Attr>, want: nat)
    requires AllFit(s)
    ensures First(s, want).Some? ==> Fits(First(s, want).value)
  {
  }

  /** An expression named a counter whose two numbers are these bytes. */
  ghost predicate IsNumbered(e: Attr, packets: seq<Byte>, bytes: seq<Byte>) {
    && e.Nest?
    && (var name := First(e.kids, EXPR_NAME); name.Some? && name.value.Leaf? && COUNTER <= name.value.data)
    && (var data := First(e.kids, EXPR_DATA);
        && data.Some? && data.value.Nest?
        && (var p := First(data.value.kids, COUNTER_PACKETS); p.Some? && p.value.Leaf? && p.value.data == packets)
        && (var b := First(data.value.kids, COUNTER_BYTES); b.Some? && b.value.Leaf? && b.value.data == bytes))
  }

  /** The numbers of a counter are read past their end exactly when one is shorter than eight bytes. */
  lemma NumbersCount(e: Attr, packets: seq<Byte>, bytes: seq<Byte>)
    requires Fits(e) && IsNumbered(e, packets, bytes)
    ensures CountOf(Payload(e)) ==
      if |packets| < 8 || |bytes| < 8 then Cut else Counts(Counter(BeValue(packets[..8]), BeValue(bytes[..8])))
  {
    hide FindFrom, First, EncodeAll, Fits, BeValue, BeBytes;
    KidsFit(e);
    FindReads(e.kids, Payload(e), 0, EXPR_NAME);
    FindReads(e.kids, Payload(e), 0, EXPR_DATA);
    FirstFits(e.kids, EXPR_DATA);
    var data := First(e.kids, EXPR_DATA).value;
    KidsFit(data);
    FindReads(data.kids, Payload(data), 0, COUNTER_PACKETS);
    FindReads(data.kids, Payload(data), 0, COUNTER_BYTES);
  }

  lemma CounterCounts(e: Attr, c: Counter)
    requires Fits(e) && IsCounter(e, c)
    ensures CountOf(Payload(e)) == Counts(c)
  {
    hide CountOf, First, Fits, BeValue, BeBytes;
    NumbersCount(e, BeBytes(c.packets, 8), BeBytes(c.bytes, 8));
    FitsShift(c.packets);
    FitsShift(c.bytes);
    BeReads(c.packets, 8);
    BeReads(c.bytes, 8);
    assert BeBytes(c.packets, 8)[..8] == BeBytes(c.packets, 8) && BeBytes(c.bytes, 8)[..8] == BeBytes(c.bytes, 8);
  }

  lemma KidsFit(e: Attr)
    requires Fits(e) && e.Nest?
    ensures AllFit(e.kids)
  {
  }

  lemma OtherDoesNot(e: Attr)
    requires Fits(e) && IsOther(e)
    ensures CountOf(Payload(e)).NoCount?
  {
    hide FindFrom, First, EncodeAll, Fits, BeValue;
    KidsFit(e);
    FindReads(e.kids, Payload(e), 0, EXPR_NAME);
    var name := First(e.kids, EXPR_NAME);
    if name.Some? && |name.value.data| >= 8 { assert name.value.data[..8] != COUNTER; }
  }

  lemma CountStep(a: Attr, tail: seq<Byte>, p: seq<Byte>, off: nat)
    requires Fits(a) && off <= |p| && p[off..] == Encode(a) + tail
    ensures var next := off + 4 + Align4(|Payload(a)|);
      && next <= |p| && p[next..] == tail
      && CountFrom(p, off) == if CountOf(Payload(a)).NoCount? then CountFrom(p, next) else CountOf(Payload(a))
  {
    hide Encode, Align4, EncodeAll, Le16, Fits, WireKind, CountOf;
    HeaderReads(a, tail);
    var n := |Payload(a)|;
    AlignFour(n);
    ReadsAt(p, off, n);
    assert p[off + 4 + Align4(n)..] == p[off..][4 + Align4(n)..];
  }

  /** The counters of a rule are recovered wherever the counter expression stands in it. */
  lemma {:induction false} RuleCounts(exprs: seq<Attr>, i: nat, c: Counter, p: seq<Byte>, off: nat)
    requires AllFit(exprs) && i < |exprs| && IsCounter(exprs[i], c)
    requires forall j | 0 <= j < i :: IsOther(exprs[j])
    requires off <= |p| && p[off..] == EncodeAll(exprs)
    ensures CountFrom(p, off) == Counts(c)
    decreases |exprs|
  {
    hide Encode, Align4, Le16, Fits, WireKind, EncodeAll, CountOf, CountFrom, IsCounter, IsOther;
    var a, rest := exprs[0], exprs[1..];
    assert exprs == [a] + rest && a in exprs;
    EncodeFront(a, rest);
    CountStep(a, EncodeAll(rest), p, off);
    if i == 0 {
      CounterCounts(a, c);
    } else {
      OtherDoesNot(a);
      RuleCounts(rest, i - 1, c, p, off + 4 + Align4(|Payload(a)|));
    }
  }
}
