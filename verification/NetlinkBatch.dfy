/** The batch under construction: one buffer that is filled front to back, with the lengths
    of open messages and nests patched in when they close. */
module NetlinkBatch {
  import opened Optional
  import opened Octets
  import opened NetlinkFormat

  const BATCH_MAX := 16384
  const MAX_DEPTH := 8
  const SINK_SIZE := 256

  /** What stands in a message header besides its length. */
  datatype Head = Head(kind: nat, flags: nat, seqNo: nat, family: Byte, resId: nat)

  function Le4(v: nat): (s: seq<Byte>)
    ensures |s| == 4
  {
    Put16(v) + Put16(v / 0x1_0000)
  }

  function HeadBytes(h: Head, len: nat): (s: seq<Byte>)
    ensures |s| == 20
  {
    Le4(len) + Put16(h.kind) + Put16(h.flags) + Le4(h.seqNo) + Le4(0) + [h.family, 0] + BeBytes(h.resId, 2)
  }

  function Message(h: Head, body: seq<Attr>): (s: seq<Byte>)
    ensures Aligned(|s|)
  {
    AlignedConcat(HeadBytes(h, 20 + |EncodeAll(body)|), EncodeAll(body))
  }

  /** What a message holds so far: its attributes, and those of each open nest. */
  datatype Frame = Frame(kind: nat, kids: seq<Attr>)

  /** The bytes of an open message behind its header; the lengths of open nests are zero. */
  function Open(frames: seq<Frame>): (s: seq<Byte>)
    ensures Aligned(|s|)
  {
    if frames == [] then []
    else
      var f := frames[|frames| - 1];
      var outer := if |frames| == 1 then [] else AlignedConcat(Open(frames[..|frames| - 1]), Header(0, Nested(f.kind)));
      AlignedConcat(outer, EncodeAll(f.kids))
  }

  function AlignedConcat(a: seq<Byte>, b: seq<Byte>): (r: seq<Byte>)
    requires Aligned(|a|) && Aligned(|b|)
    ensures Aligned(|r|)
  {
    a + b
  }

  /** One more attribute in the innermost nest. */
  function With(frames: seq<Frame>, a: Attr): seq<Frame>
    requires frames != []
  {
    var n := |frames| - 1;
    frames[..n] + [frames[n].(kids := frames[n].kids + [a])]
  }

  function Closed(frames: seq<Frame>): seq<Frame>
    requires |frames| >= 2
  {
    var n := |frames| - 1;
    With(frames[..n], Nest(frames[n].kind, frames[n].kids))
  }

  lemma WithGrows(frames: seq<Frame>, a: Attr)
    requires frames != []
    ensures Open(With(frames, a)) == Open(frames) + Encode(a)
  {
    hide Open, Encode, EncodeAll, Header;
    var n := |frames| - 1;
    var front, f := frames[..n], frames[n];
    assert frames == front + [f];
    OpenBack(front, f);
    OpenBack(front, f.(kids := f.kids + [a]));
    EncodeBack(f.kids, a);
  }

  lemma OpenBack(front: seq<Frame>, f: Frame)
    ensures Open(front + [f]) ==
      (if front == [] then [] else Open(front) + Header(0, Nested(f.kind))) + EncodeAll(f.kids)
  {
    hide EncodeAll, Header;
    assert (front + [f])[..|front|] == front;
  }

  lemma ClosedGrows(frames: seq<Frame>)
    requires |frames| >= 2
    ensures var f := frames[|frames| - 1];
      var nested := Encode(Nest(f.kind, f.kids));
      && Open(frames) == Open(frames[..|frames| - 1]) + Header(0, Nested(f.kind)) + EncodeAll(f.kids)
      && Open(Closed(frames)) == Open(frames[..|frames| - 1]) + nested
      && nested == Header(4 + |EncodeAll(f.kids)|, Nested(f.kind)) + EncodeAll(f.kids)
  {
    hide Encode, Header, With, EncodeAll;
    var n := |frames| - 1;
    WithGrows(frames[..n], Nest(frames[n].kind, frames[n].kids));
    NestBytes(frames[n].kind, frames[n].kids);
  }

  lemma NestBytes(kind: nat, kids: seq<Attr>)
    ensures Encode(Nest(kind, kids)) == Header(4 + |EncodeAll(kids)|, Nested(kind)) + EncodeAll(kids)
  {
    hide Header, EncodeAll;
    var n := |EncodeAll(kids)|;
    assert n % 4 == 0 && Align4(n) == n;
    assert Encode(Nest(kind, kids)) == Header(4 + n, Nested(kind)) + EncodeAll(kids) + [];
  }

  lemma NoZeros()
    ensures Zeros(0) == []
  {
  }

  lemma OneMoreZero(at: nat, n: nat)
    ensures if at % 4 == 0 then Align4(at) == at else Align4(at + 1) == Align4(at) && at < Align4(at)
    ensures at % 4 != 0 && at <= BATCH_MAX ==> at < BATCH_MAX
    ensures Zeros(n + 1) == Zeros(n) + [0]
  {
  }

  /** Data put behind a header at `len` is written behind the end of the sink. */
  predicate Strays(len: nat, n: nat) {
    SINK_SIZE < n && BATCH_MAX < n + if len + 4 <= BATCH_MAX then len + 4 else len
  }

  class Batch {
    const buf: array<Byte>
    var len: nat
    var msgStart: nat
    const nest: array<nat>
    var depth: nat
    var seqNo: nat
    var overflow: bool

    // The messages that are complete, the one that is open, and whether it was nested too deep.
    ghost var done: seq<Byte>
    ghost var head: Head
    ghost var frames: seq<Frame>
    ghost var deep: bool

    /** Whether bytes were written behind the end of the sink, which takes what has no room. */
    ghost var strayed: bool

    /** Everything that was asked to be written so far. */
    ghost function All(): seq<Byte>
      reads this
    {
      done + if frames == [] then [] else HeadBytes(head, 0) + Open(frames)
    }

    /** Where the header of nest `i` has to stand. */
    ghost function NestAt(i: nat): nat
      requires i + 1 < |frames|
      reads this
    {
      |done| + 20 + |Open(frames[..i + 1])|
    }

    ghost predicate Valid()
      reads this, buf, nest
    {
      && buf.Length == BATCH_MAX && nest.Length == MAX_DEPTH && len <= BATCH_MAX && depth <= MAX_DEPTH
      && Aligned(|done|)
      && (overflow ==> deep || |All()| > BATCH_MAX)
      && (!overflow ==>
            && !deep && buf[..len] == All()
            && (frames != [] ==> msgStart == |done| && depth == |frames| - 1)
            && (frames == [] ==> depth == 0)
            && forall i | 0 <= i < depth :: nest[i] == NestAt(i))
    }

    constructor ()
      ensures Valid() && !overflow && !strayed && All() == [] && frames == [] && fresh(buf) && fresh(nest) && seqNo == 0
    {
      buf := new Byte[BATCH_MAX];
      nest := new nat[MAX_DEPTH];
      len, msgStart, depth, seqNo, overflow := 0, 0, 0, 0, false;
      done, frames, deep, strayed := [], [], false, false;
    }

    /** Room for some bytes, filled with them. When there is none they go to a sink, which
        takes so many at a time and is never read. */
    method Put(data: seq<Byte>)
      requires buf.Length == BATCH_MAX && len <= BATCH_MAX
      modifies buf, `len, `overflow, `strayed
      ensures strayed == (old(strayed) || (old(len) + |data| > BATCH_MAX && |data| > SINK_SIZE))
      ensures len <= BATCH_MAX && overflow == (old(overflow) || old(len) + |data| > BATCH_MAX)
      ensures len == old(len) + if old(len) + |data| > BATCH_MAX then 0 else |data|
      ensures !overflow ==> buf[..len] == old(buf[..len]) + data
    {
      if len + |data| > BATCH_MAX {
        overflow := true;
        strayed := strayed || |data| > SINK_SIZE;
        return;
      }
      forall i | 0 <= i < |data| {
        buf[len + i] := data[i];
      }
      assert buf[len..len + |data|] == data;
      assert buf[..len + |data|] == buf[..len] + buf[len..len + |data|];
      len := len + |data|;
    }

    method Pad4()
      requires buf.Length == BATCH_MAX && len <= BATCH_MAX
      modifies buf, `len
      ensures len <= BATCH_MAX
      ensures buf[..len] == old(buf[..len]) + Padding(old(len))
    {
      hide Align4, Zeros;
      ghost var n := len;
      NoZeros();
      while len % 4 != 0
        invariant n <= len <= Align4(n) == Align4(len) && len <= BATCH_MAX
        invariant buf[..len] == old(buf[..len]) + Zeros(len - n)
        decreases Align4(n) - len
      {
        // The buffer ends on a boundary, so there is always room for this.
        OneMoreZero(len, len - n);
        ghost var sofar := buf[..len];
        buf[len] := 0;
        len := len + 1;
        assert buf[..len] == sofar + [0];
      }
      OneMoreZero(len, len - n);
    }

    /** A header, some data and the padding behind it. */
    method PutPadded(kind: nat, data: seq<Byte>)
      requires buf.Length == BATCH_MAX && len <= BATCH_MAX && (!overflow ==> Aligned(len))
      modifies buf, `len, `overflow, `strayed
      ensures len <= BATCH_MAX && (old(overflow) ==> overflow)
      ensures overflow && !old(overflow) ==> old(len) + |Encode(Leaf(kind, data))| > BATCH_MAX
      ensures !overflow ==> buf[..len] == old(buf[..len]) + Encode(Leaf(kind, data))
      ensures strayed == (old(strayed) || Strays(old(len), |data|))
    {
      hide Encode, EncodeAll, Header, Padding, Align4, Aligned;
      ghost var at := len;
      if !overflow { PaddingOf(at, |data|); }
      LeafBytes(kind, data);
      Put(Header(4 + |data|, kind));
      Put(data);
      Pad4();
    }

    /** An attribute joins the innermost nest. Bytes are written behind the end of the sink
        exactly when there is no room for the data and it is longer than the sink. */
    method AttrPut(kind: nat, data: seq<Byte>)
      requires Valid() && frames != []
      modifies this, buf
      ensures Valid() && frames == With(old(frames), Leaf(kind, data))
      ensures done == old(done) && head == old(head) && deep == old(deep) && seqNo == old(seqNo)
      ensures strayed == (old(strayed) || Strays(old(len), |data|))
    {
      hide Open, Encode, EncodeAll, HeadBytes, Aligned;
      AllAligned();
      AllWith(Leaf(kind, data));
      PutPadded(kind, data);
      frames := With(frames, Leaf(kind, data));
    }

    method AttrU32(kind: nat, v: nat)
      requires Valid() && frames != []
      modifies this, buf
      ensures Valid() && frames == With(old(frames), Leaf(kind, BeBytes(v, 4)))
      ensures done == old(done) && head == old(head) && deep == old(deep) && strayed == old(strayed)
      ensures seqNo == old(seqNo)
    {
      AttrPut(kind, BeBytes(v, 4));
    }

    method AttrU64(kind: nat, v: nat)
      requires Valid() && frames != [] && v < U64
      modifies this, buf
      ensures Valid() && frames == With(old(frames), Leaf(kind, BeBytes(v, 8)))
      ensures done == old(done) && head == old(head) && deep == old(deep) && strayed == old(strayed)
      ensures seqNo == old(seqNo)
    {
      var be := BigEndian(v);
      AttrPut(kind, be);
    }

    /** A string goes in with its NUL; the length is kept in sixteen bits. */
    method AttrStr(kind: nat, s: seq<Byte>)
      requires Valid() && frames != []
      modifies this, buf
      ensures Valid() && frames == With(old(frames), Leaf(kind, (s + [0])[..(|s| + 1) % 0x1_0000]))
      ensures done == old(done) && head == old(head) && deep == old(deep) && seqNo == old(seqNo)
      ensures strayed == (old(strayed) || Strays(old(len), (|s| + 1) % 0x1_0000))
    {
      AttrPut(kind, (s + [0])[..(|s| + 1) % 0x1_0000]);
    }

    method NestBegin(kind: nat)
      requires Valid() && frames != []
      modifies this, buf, nest
      ensures Valid() && frames == old(frames) + [Frame(kind, [])]
      ensures done == old(done) && head == old(head) && deep == (old(deep) || |old(frames)| > MAX_DEPTH)
      ensures strayed == old(strayed) && seqNo == old(seqNo)
    {
      hide Open, EncodeAll, Header, HeadBytes, Aligned;
      ghost var inner := frames + [Frame(kind, [])];
      OpensNest(frames, kind);
      ghost var before := All();
      assert inner[..|frames|] == frames;
      assert forall i: nat {:trigger frames[..i]} :: i < |frames| ==> inner[..i] == frames[..i];
      if depth >= MAX_DEPTH {
        overflow := true;
      } else {
        nest[depth] := len;
        depth := depth + 1;
        Put(Header(0, Nested(kind)));
      }
      deep := deep || |frames| > MAX_DEPTH;
      frames := inner;
      assert All() == before + Header(0, Nested(kind));
    }

    method NestEnd()
      requires Valid() && |frames| >= 2
      modifies this, buf
      ensures Valid() && frames == Closed(old(frames))
      ensures done == old(done) && head == old(head) && deep == old(deep) && strayed == old(strayed)
      ensures seqNo == old(seqNo)
    {
      hide Open, EncodeAll, Encode, HeadBytes, Header, Nested, Aligned;
      ghost var n, f := |frames| - 1, frames[|frames| - 1];
      ghost var before := done + (HeadBytes(head, 0) + Open(frames[..n]));
      ghost var inside := EncodeAll(f.kids);
      ClosedGrows(frames);
      assert All() == before + Header(0, Nested(f.kind)) + inside;
      if depth <= 0 || overflow {
        frames := Closed(frames);
        return;
      }
      depth := depth - 1;
      var off := nest[depth];
      assert off == |before|;
      SetLength16(off, len - off, Nested(f.kind), before, inside);
      frames := Closed(frames);
      assert forall i: nat {:trigger frames[..i]} :: i < |frames| ==> frames[..i] == old(frames)[..i];
    }

    /** Sets the length in a header that stands between `before` and `inside`. */
    method SetLength16(off: nat, v: nat, ghost kind: nat, ghost before: seq<Byte>, ghost inside: seq<Byte>)
      requires buf.Length == BATCH_MAX && len <= BATCH_MAX && off == |before|
      requires buf[..len] == before + Header(0, kind) + inside
      modifies buf
      ensures buf[..len] == before + Header(v, kind) + inside
    {
      var bytes := Put16(v);
      buf[off], buf[off + 1] := bytes[0], bytes[1];
    }

    method MsgBegin(kind: nat, flags: nat, family: Byte, resId: nat)
      requires Valid() && frames == []
      modifies this, buf
      ensures Valid() && frames == [Frame(0, [])] && seqNo == (old(seqNo) + 1) % U32
      ensures head == Head(kind, flags, seqNo, family, resId) && done == old(done) && deep == old(deep)
      ensures strayed == old(strayed)
    {
      hide Padding, HeadBytes, Open, Aligned;
      NoPadding(len);
      Pad4();
      msgStart := len;
      seqNo := (seqNo + 1) % U32;
      var h := Head(kind, flags, seqNo, family, resId);
      PutHead(h);
      head := h;
      frames := [Frame(0, [])];
      OpensEmpty();
    }

    /** Both headers of a message, with no length yet. */
    method PutHead(h: Head)
      requires buf.Length == BATCH_MAX && len <= BATCH_MAX
      modifies buf, `len, `overflow, `strayed
      ensures len <= BATCH_MAX && (old(overflow) ==> overflow) && strayed == old(strayed)
      ensures overflow && !old(overflow) ==> old(len) + |HeadBytes(h, 0)| > BATCH_MAX
      ensures !overflow ==> buf[..len] == old(buf[..len]) + HeadBytes(h, 0)
    {
      hide Put16, Le4, BeBytes;
      var outer := Le4(0) + Put16(h.kind) + Put16(h.flags) + Le4(h.seqNo) + Le4(0);
      var inner := [h.family, 0] + BeBytes(h.resId, 2);
      Put(outer);
      Put(inner);
      assert HeadBytes(h, 0) == outer + inner;
    }

    method MsgEnd()
      requires Valid() && |frames| == 1
      modifies this, buf
      ensures Valid() && frames == [] && deep == old(deep) && strayed == old(strayed) && seqNo == old(seqNo)
      ensures done == old(done) + Message(old(head), old(frames)[0].kids)
    {
      hide EncodeAll, HeadBytes, Le4, Padding, Aligned;
      ghost var kids := frames[0].kids;
      assert Open(frames) == EncodeAll(kids);
      ghost var whole := done + Message(head, kids);
      AlignedSum(|done|, |Message(head, kids)|);
      if overflow {
        done, frames := whole, [];
        return;
      }
      SetLength32(msgStart, len - msgStart, done, head, EncodeAll(kids));
      NoPadding(len);
      Pad4();
      done, frames := whole, [];
    }

    method SetLength32(at: nat, v: nat, ghost before: seq<Byte>, ghost h: Head, ghost body: seq<Byte>)
      requires buf.Length == BATCH_MAX && len <= BATCH_MAX && at == |before|
      requires buf[..len] == before + (HeadBytes(h, 0) + body)
      modifies buf
      ensures buf[..len] == before + (HeadBytes(h, v) + body)
    {
      hide Put16, HeadBytes, Aligned;
      HeadChanges(h, 0);
      var bytes := Le4(v);
      ghost var rest := HeadBytes(h, 0)[4..];
      assert buf[..len] == before + Le4(0) + (rest + body);
      buf[at], buf[at + 1], buf[at + 2], buf[at + 3] := bytes[0], bytes[1], bytes[2], bytes[3];
      HeadChanges(h, v);
      assert buf[..len] == before + bytes + (rest + body);
    }

    lemma HeadChanges(h: Head, v: nat)
      ensures HeadBytes(h, v) == Le4(v) + HeadBytes(h, 0)[4..]
      ensures HeadBytes(h, 0)[..4] == Le4(0)
    {
      hide Put16, Le4, BeBytes;
    }

    // ── Expressions ──────────────────────────────────────────────────

    method ExprBegin(name: seq<Byte>)
      requires Valid() && frames != [] && |name| + 1 < 0x1_0000
      modifies this, buf, nest
      ensures Valid() && done == old(done) && head == old(head)
      ensures frames == old(frames) + [Frame(LIST_ELEM, [Leaf(EXPR_NAME, name + [0])]), Frame(EXPR_DATA, [])]
      ensures deep == (old(deep) || |old(frames)| + 1 > MAX_DEPTH)
      ensures |name| < SINK_SIZE ==> strayed == old(strayed)
      ensures seqNo == old(seqNo)
    {
      hide Valid, With;
      NestBegin(LIST_ELEM);
      AttrStr(EXPR_NAME, name);
      assert (name + [0])[..|name| + 1] == name + [0];
      WithLast(old(frames), Frame(LIST_ELEM, []), Leaf(EXPR_NAME, name + [0]));
      assert [] + [Leaf(EXPR_NAME, name + [0])] == [Leaf(EXPR_NAME, name + [0])];
      NestBegin(EXPR_DATA);
    }

    method ExprEnd()
      requires Valid() && |frames| >= 3
      modifies this, buf
      ensures Valid() && frames == Closed(Closed(old(frames)))
      ensures done == old(done) && head == old(head) && deep == old(deep) && strayed == old(strayed)
      ensures seqNo == old(seqNo)
    {
      hide Valid;
      NestEnd();
      NestEnd();
    }

    method ECounter()
      requires Valid() && frames != []
      modifies this, buf, nest
      ensures Valid() && frames == With(old(frames), CounterExpr(Counter(0, 0)))
      ensures done == old(done) && head == old(head) && deep == (old(deep) || |old(frames)| + 1 > MAX_DEPTH)
      ensures strayed == old(strayed) && seqNo == old(seqNo)
    {
      hide Valid, BeBytes;
      ghost var outer := frames;
      ExprBegin(COUNTER[..7]);
      AttrU64(COUNTER_BYTES, 0);
      AttrU64(COUNTER_PACKETS, 0);
      ExprEnd();
      CounterFrames(outer);
    }

    lemma AllAligned()
      requires Aligned(|done|)
      ensures Aligned(|All()|)
    {
      hide HeadBytes, Open;
      if frames != [] { assert |HeadBytes(head, 0)| == 20; }
    }

    lemma AllWith(a: Attr)
      requires frames != []
      ensures done + (HeadBytes(head, 0) + Open(With(frames, a))) == All() + Encode(a)
      ensures forall i: nat {:trigger frames[..i]} :: i < |frames| ==> With(frames, a)[..i] == frames[..i]
    {
      hide Open, Encode, EncodeAll;
      WithGrows(frames, a);
    }
  }

  /** The counter expression as the firewall writes it and the kernel fills it in. */
  function CounterExpr(c: Counter): Attr {
    Nest(LIST_ELEM, [Leaf(EXPR_NAME, COUNTER),
                     Nest(EXPR_DATA, [Leaf(COUNTER_BYTES, BeBytes(c.bytes, 8)),
                                      Leaf(COUNTER_PACKETS, BeBytes(c.packets, 8))])])
  }

  lemma CounterExprCounts(c: Counter)
    requires c.packets < U64 && c.bytes < U64
    ensures IsCounter(CounterExpr(c), c)
  {
    hide BeBytes, First;
    var a, b := Leaf(COUNTER_BYTES, BeBytes(c.bytes, 8)), Leaf(COUNTER_PACKETS, BeBytes(c.packets, 8));
    FirstOfTwo(a, b);
    FirstOfTwo(Leaf(EXPR_NAME, COUNTER), Nest(EXPR_DATA, [a, b]));
  }

  lemma FirstOfTwo(a: Attr, b: Attr)
    requires WireKind(a) % 0x4000 == 1 && WireKind(b) % 0x4000 == 2
    ensures First([a, b], 1) == Some(a) && First([a, b], 2) == Some(b)
  {
    assert [a, b][1..] == [b];
  }

  lemma WithLast(outer: seq<Frame>, f: Frame, a: Attr)
    ensures With(outer + [f], a) == outer + [f.(kids := f.kids + [a])]
  {
  }

  lemma ClosedLast(outer: seq<Frame>, f: Frame, g: Frame)
    ensures Closed(outer + [f, g]) == outer + [f.(kids := f.kids + [Nest(g.kind, g.kids)])]
  {
    assert (outer + [f, g])[..|outer| + 1] == outer + [f];
    WithLast(outer, f, Nest(g.kind, g.kids));
  }

  lemma CounterFrames(outer: seq<Frame>)
    requires outer != []
    ensures var open := outer + [Frame(LIST_ELEM, [Leaf(EXPR_NAME, COUNTER[..7] + [0])]), Frame(EXPR_DATA, [])];
      var a, b := Leaf(COUNTER_BYTES, BeBytes(0, 8)), Leaf(COUNTER_PACKETS, BeBytes(0, 8));
      Closed(Closed(With(With(open, a), b))) == With(outer, CounterExpr(Counter(0, 0)))
  {
    hide BeBytes, With, Closed;
    var name := Leaf(EXPR_NAME, COUNTER);
    var a, b := Leaf(COUNTER_BYTES, BeBytes(0, 8)), Leaf(COUNTER_PACKETS, BeBytes(0, 8));
    assert COUNTER[..7] + [0] == COUNTER;
    var e := Frame(LIST_ELEM, [name]);
    assert outer + [e, Frame(EXPR_DATA, [])] == outer + [e] + [Frame(EXPR_DATA, [])];
    WithLast(outer + [e], Frame(EXPR_DATA, []), a);
    assert [] + [a] == [a];
    WithLast(outer + [e], Frame(EXPR_DATA, [a]), b);
    assert [a] + [b] == [a, b];
    assert outer + [e] + [Frame(EXPR_DATA, [a, b])] == outer + [e, Frame(EXPR_DATA, [a, b])];
    ClosedLast(outer, e, Frame(EXPR_DATA, [a, b]));
    assert [name] + [Nest(EXPR_DATA, [a, b])] == [name, Nest(EXPR_DATA, [a, b])];
    var n := |outer| - 1;
    var last := outer[n];
    assert outer == outer[..n] + [last];
    var ef := Frame(LIST_ELEM, [name, Nest(EXPR_DATA, [a, b])]);
    assert outer + [ef] == outer[..n] + [last, ef];
    ClosedLast(outer[..n], last, ef);
    WithLast(outer[..n], last, CounterExpr(Counter(0, 0)));
  }

  lemma OpensEmpty()
    ensures Open([Frame(0, [])]) == []
  {
    assert EncodeAll([]) == [];
  }

  /** A complete message carries its own length, and its body tiles into the attributes
      that were put in, nests and all. */
  lemma MessageReads(h: Head, body: seq<Attr>)
    requires PlainKinds(body) && |Message(h, body)| <= BATCH_MAX
    ensures Le32(Message(h, body), 0) == |Message(h, body)|
    ensures DecodeAll(Message(h, body)[20..]) == Some(body)
  {
    hide EncodeAll, DecodeAll, PlainKinds, AllFit;
    var m := Message(h, body);
    SmallFits(body);
    DecodeReads(body);
    assert m[20..] == EncodeAll(body);
    var n := |m|;
    assert m[..4] == Le4(n);
    assert m[0] == m[..4][0] && m[1] == m[..4][1] && m[2] == m[..4][2] && m[3] == m[..4][3];
    assert n / 0x1_0000 == 0;
  }

  lemma AlignedSum(a: nat, b: nat)
    requires Aligned(a) && Aligned(b)
    ensures Aligned(a + b)
  {
  }

  lemma NoPadding(n: nat)
    ensures Aligned(n) ==> Padding(n) == []
  {
  }

  lemma OpensNest(frames: seq<Frame>, kind: nat)
    requires frames != []
    ensures Open(frames + [Frame(kind, [])]) == Open(frames) + Header(0, Nested(kind))
  {
    assert (frames + [Frame(kind, [])])[..|frames|] == frames;
  }

  /** The eight bytes of a number, most significant first. */
  method BigEndian(v: nat) returns (be: seq<Byte>)
    requires v < U64
    ensures be == BeBytes(v, 8)
  {
    var bytes := new Byte[8];
    for i := 0 to 8
      invariant bytes[..i] == BeBytes(Shift(v, 8 - i), i)
    {
      ghost var sofar := bytes[..i];
      bytes[i] := (Shift(v, 7 - i) % 256) as Byte;
      assert bytes[..i + 1] == sofar + [bytes[i]];
    }
    be := bytes[..];
    assert be == bytes[..8];
  }

  lemma PaddingOf(at: nat, n: nat)
    requires Aligned(at)
    ensures Padding(at + (4 + n)) == Padding(n)
  {
  }

  lemma LeafBytes(kind: nat, data: seq<Byte>)
    ensures Encode(Leaf(kind, data)) == Header(4 + |data|, kind) + data + Padding(|data|)
  {
  }

  // ── Reading the ruleset back ───────────────────────────────────────

  /** The payload of the first attribute of a type. */
  method FindAttr(p: seq<Byte>, want: nat) returns (r: Option<seq<Byte>>)
    ensures r == FindFrom(p, 0, want)
  {
    var off := 0;
    while off + 4 <= |p|
      invariant FindFrom(p, 0, want) == FindFrom(p, off, want)
      decreases |p| - off
    {
      var len := Le16(p, off);
      if len < 4 || off + len > |p| { break; }
      if Le16(p, off + 2) % 0x4000 == want { return Some(p[off + 4..off + len]); }
      off := off + Align4(len);
    }
    return None;
  }

  method Be64At(p: seq<Byte>) returns (v: nat)
    requires |p| >= 8
    ensures v == BeValue(p[..8])
  {
    v := 0;
    for i := 0 to 8
      invariant v == BeValue(p[..i])
    {
      v := v * 256 + p[i] as nat;
      assert p[..i + 1][..i] == p[..i];
    }
  }

  /** The packets and bytes of the first expression that counts. The two numbers are read
      without a look at their lengths, so they must not be cut short. */
  method RuleCounter(exprs: seq<Byte>) returns (c: Option<Counter>)
    requires !CountFrom(exprs, 0).Cut?
    ensures c == match CountFrom(exprs, 0) case Counts(v) => Some(v) case _ => None
  {
    hide FindFrom, BeValue;
    var off := 0;
    while off + 4 <= |exprs|
      invariant CountFrom(exprs, 0) == CountFrom(exprs, off)
      decreases |exprs| - off
    {
      hide FindFrom, BeValue;
      var len := Le16(exprs, off);
      if len < 4 || off + len > |exprs| { break; }
      var elem := exprs[off + 4..off + len];
      c := ElemCounter(elem);
      if c.Some? { return; }
      off := off + Align4(len);
    }
    return None;
  }

  method ElemCounter(elem: seq<Byte>) returns (c: Option<Counter>)
    requires !CountOf(elem).Cut?
    ensures c == match CountOf(elem) case Counts(v) => Some(v) case _ => None
  {
    hide FindFrom, BeValue;
    var name := FindAttr(elem, EXPR_NAME);
    if name.Some? && |name.value| >= 8 && name.value[..8] == COUNTER {
      var data := FindAttr(elem, EXPR_DATA);
      if data.Some? {
        var packets := FindAttr(data.value, COUNTER_PACKETS);
        var bytes := FindAttr(data.value, COUNTER_BYTES);
        if packets.Some? && bytes.Some? {
          var p := Be64At(packets.value);
          var b := Be64At(bytes.value);
          return Some(Counter(p, b));
        }
      }
    }
    return None;
  }
}
