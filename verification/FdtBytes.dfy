/** The flattened format: tokens as bytes, and the header that says where things are
    (Devicetree Specification, chapter 5). */
module FdtBytes {
  import opened Optional
  import opened Octets
  import opened FdtTree

  const MAGIC := 0xD00DFEED
  const HEADER := 40
  const MAX_TOTAL := 0x100_0000

  // Offsets of the header's fields.
  const H_MAGIC := 0
  const H_TOTALSIZE := 4
  const H_OFF_STRUCT := 8
  const H_OFF_STRINGS := 12
  const H_OFF_RSVMAP := 16
  const H_VERSION := 20
  const H_LAST_COMP := 24
  const H_BOOT_CPUID := 28
  const H_SIZE_STRINGS := 32
  const H_SIZE_STRUCT := 36

  function Field(m: seq<Byte>, h: nat): (v: int)
    requires HEADER <= |m| && h + 4 <= HEADER
    ensures 0 <= v < U32
  {
    Be32(m, h)
  }

  /** A header that can be worked with. The sums wrap around, as 32-bit sums do. */
  predicate FdtValid(m: seq<Byte>)
    requires HEADER <= |m|
  {
    && Field(m, H_MAGIC) == MAGIC && Field(m, H_LAST_COMP) <= 17
    && HEADER <= Field(m, H_TOTALSIZE) <= MAX_TOTAL
    && (Field(m, H_OFF_STRUCT) + Field(m, H_SIZE_STRUCT)) % U32 <= Field(m, H_TOTALSIZE)
    && (Field(m, H_OFF_STRINGS) + Field(m, H_SIZE_STRINGS)) % U32 <= Field(m, H_TOTALSIZE)
  }

  /** Whether one of the two sums that a header is judged by wraps around. */
  predicate Wraps(m: seq<Byte>)
    requires HEADER <= |m|
  {
    || Field(m, H_OFF_STRUCT) + Field(m, H_SIZE_STRUCT) >= U32
    || Field(m, H_OFF_STRINGS) + Field(m, H_SIZE_STRINGS) >= U32
  }

  /** Both blocks lie inside the tree. */
  predicate BlocksInside(m: seq<Byte>)
    requires HEADER <= |m|
  {
    && Field(m, H_OFF_STRUCT) + Field(m, H_SIZE_STRUCT) <= Field(m, H_TOTALSIZE)
    && Field(m, H_OFF_STRINGS) + Field(m, H_SIZE_STRINGS) <= Field(m, H_TOTALSIZE)
  }

  /** What the check is there for holds exactly when neither sum wraps around. */
  lemma ValidMeansInside(m: seq<Byte>)
    requires HEADER <= |m|
    ensures FdtValid(m) && BlocksInside(m) <==> FdtValid(m) && !Wraps(m)
  {
    hide Be32;
    if FdtValid(m) && !Wraps(m) {
      WrapsNot(Field(m, H_OFF_STRUCT) + Field(m, H_SIZE_STRUCT));
      WrapsNot(Field(m, H_OFF_STRINGS) + Field(m, H_SIZE_STRINGS));
    }
  }

  lemma WrapsNot(n: int)
    requires 0 <= n < U32
    ensures n % U32 == n
  {
  }

  // ── Tokens as bytes ────────────────────────────────────────────────

  const BEGIN_NODE := 1
  const END_NODE := 2
  const PROP := 3
  const NOP := 4
  const END := 9

  /** The zeros that bring `n` bytes to a multiple of four. */
  function Pad(n: nat): (s: seq<Byte>)
    ensures |s| == Align4(n) - n
  {
    Zeros(Align4(n) - n)
  }

  /** A token that bytes can spell. */
  ghost predicate Fine(t: Token) {
    match t
    case Begin(n) => 0 !in n
    case Prop(no, v) => no < U32 && |v| < U32
    case End => true
    case Nop => true
    case _ => false
  }

  ghost predicate AllFine(ts: seq<Token>) { forall i | 0 <= i < |ts| :: Fine(ts[i]) }

  function Encode(t: Token): seq<Byte>
    requires Fine(t)
  {
    match t
    case Begin(n) => Put32(BEGIN_NODE) + (n + [0]) + Pad(|n| + 1)
    case End => Put32(END_NODE)
    case Prop(no, v) => Put32(PROP) + Put32(|v|) + Put32(no) + v + Pad(|v|)
    case Nop => Put32(NOP)
  }

  function EncodeAll(ts: seq<Token>): seq<Byte>
    requires AllFine(ts)
  {
    if ts == [] then [] else Encode(ts[0]) + EncodeAll(ts[1..])
  }

  lemma {:induction false} EncodeConcat(a: seq<Token>, b: seq<Token>)
    requires AllFine(a) && AllFine(b)
    ensures AllFine(a + b) && EncodeAll(a + b) == EncodeAll(a) + EncodeAll(b)
  {
    hide Encode, Fine;
    if a == [] {
      assert a + b == b;
    } else {
      EncodeConcat(a[1..], b);
      assert (a + b)[1..] == a[1..] + b;
    }
  }

  lemma EncodeOne(t: Token)
    requires Fine(t)
    ensures AllFine([t]) && EncodeAll([t]) == Encode(t) && |Encode(t)| % 4 == 0 && 4 <= |Encode(t)|
  {
    hide Encode, EncodeAll, Fine;
    EncodeSize(t);
    EncodeAlone(t);
  }

  lemma EncodeAlone(t: Token)
    requires Fine(t)
    ensures AllFine([t]) && EncodeAll([t]) == Encode(t)
  {
    hide Encode, Fine;
    assert [t][1..] == [];
  }

  lemma EncodeSize(t: Token)
    requires Fine(t)
    ensures |Encode(t)| % 4 == 0 && 4 <= |Encode(t)|
    ensures t.Begin? ==> |Encode(t)| == 4 + Align4(|t.name| + 1)
    ensures t.Prop? ==> |Encode(t)| == 12 + Align4(|t.val|)
  {
    hide Put32, Pad, Align4;
    match t
    case Begin(n) =>
      assert |Put32(BEGIN_NODE) + (n + [0])| == 4 + |n| + 1;
      assert |Encode(t)| == 4 + Align4(|n| + 1);
    case Prop(no, v) =>
      assert |Put32(PROP) + Put32(|v|) + Put32(no) + v| == 12 + |v|;
      assert |Encode(t)| == 12 + Align4(|v|);
    case _ =>
  }

  lemma {:induction false} EncodeAligned(ts: seq<Token>)
    requires AllFine(ts)
    ensures |EncodeAll(ts)| % 4 == 0
  {
    hide Encode, Fine;
    if ts != [] {
      EncodeOne(ts[0]);
      EncodeAligned(ts[1..]);
    }
  }

  /** The token at `off` and where the next one is; None when it runs past the end. */
  function Decode1(m: seq<Byte>, off: nat): (r: Option<(Token, nat)>)
    requires off + 4 <= |m|
    ensures r.Some? ==> off + 4 <= r.value.1
  {
    var w := Be32(m, off);
    if w == BEGIN_NODE then
      var n := CStr(m, off + 4);
      if off + 4 + |n| < |m| then Some((Begin(n), off + 4 + Align4(|n| + 1))) else None
    else if w == END_NODE then Some((Token.End, off + 4))
    else if w == PROP then
      if off + 12 > |m| || off + 12 + Be32(m, off + 4) > |m| then None
      else
        var len := Be32(m, off + 4);
        Some((Prop(Be32(m, off + 8), m[off + 12..off + 12 + len]), off + 12 + Align4(len)))
    else if w == NOP then Some((Token.Nop, off + 4))
    else if w == END then Some((Fin, off + 4))
    else Some((Bad(w), off + 4))
  }

  /** The tokens from `off` to `end`, up to the one that ends the block or is none. */
  function Decode(m: seq<Byte>, off: nat, end: int): (r: Option<seq<Token>>)
    decreases end - off
  {
    if off >= end then Some([])
    else if off + 4 > |m| then None
    else
      match Decode1(m, off)
      case None => None
      case Some((t, next)) =>
        if t.Fin? then Some([])
        else if t.Bad? then Some([t])
        else
          match Decode(m, next, end)
          case None => None
          case Some(ts) => Some([t] + ts)
  }

  /** `s` stands at `p`. */
  ghost predicate At(m: seq<Byte>, p: nat, s: seq<Byte>) { p + |s| <= |m| && m[p..p + |s|] == s }

  lemma AtParts(m: seq<Byte>, p: nat, a: seq<Byte>, b: seq<Byte>)
    requires At(m, p, a + b)
    ensures At(m, p, a) && At(m, p + |a|, b)
  {
    var s := m[p..p + |a + b|];
    assert s[..|a|] == a && s[|a|..] == b;
  }

  lemma Decode1Reads(m: seq<Byte>, off: nat, t: Token)
    requires Fine(t) && At(m, off, Encode(t))
    ensures Decode1(m, off) == Some((t, off + |Encode(t)|))
  {
    match t
    case Begin(n) => BeginReads(m, off, n);
    case End => WordReads(m, off, t);
    case Nop => WordReads(m, off, t);
    case Prop(no, v) => PropReads(m, off, no, v);
  }

  lemma WordReads(m: seq<Byte>, off: nat, t: Token)
    requires (t.End? || t.Nop?) && At(m, off, Encode(t))
    ensures Decode1(m, off) == Some((t, off + |Encode(t)|))
  {
    hide Put32, CStr, Be32, Align4;
    Put32Reads(if t.End? then END_NODE else NOP, m, off);
  }

  lemma BeginReads(m: seq<Byte>, off: nat, n: seq<Byte>)
    requires Fine(Begin(n)) && At(m, off, Encode(Begin(n)))
    ensures Decode1(m, off) == Some((Begin(n), off + |Encode(Begin(n))|))
  {
    hide Put32, Decode1, CStr, Be32, Pad, Align4, At;
    AtParts(m, off, Put32(BEGIN_NODE) + (n + [0]), Pad(|n| + 1));
    AtParts(m, off, Put32(BEGIN_NODE), n + [0]);
    AtParts(m, off + 4, n, [0]);
    EncodeSize(Begin(n));
    WordAt(m, off, BEGIN_NODE);
    StringAt(m, off + 4, n);
    DecodesBegin(m, off, n);
  }

  lemma WordAt(m: seq<Byte>, p: nat, v: int)
    requires 0 <= v < U32 && At(m, p, Put32(v))
    ensures p + 4 <= |m| && Be32(m, p) == v
  {
    hide Put32, Be32;
    Put32Reads(v, m, p);
  }

  lemma StringAt(m: seq<Byte>, p: nat, n: seq<Byte>)
    requires 0 !in n && At(m, p, n) && At(m, p + |n|, [0])
    ensures p + |n| < |m| && CStr(m, p) == n
  {
    hide CStr;
    assert m[p + |n|] == m[p + |n|..p + |n| + 1][0];
    CStrReads(m, p, n);
  }

  lemma DecodesBegin(m: seq<Byte>, off: nat, n: seq<Byte>)
    requires off + 4 + |n| < |m| && Be32(m, off) == BEGIN_NODE && CStr(m, off + 4) == n
    ensures Decode1(m, off) == Some((Begin(n), off + 4 + Align4(|n| + 1)))
  {
    hide CStr, Be32, Align4;
  }

  lemma PropReads(m: seq<Byte>, off: nat, no: nat, v: seq<Byte>)
    requires Fine(Prop(no, v)) && At(m, off, Encode(Prop(no, v)))
    ensures Decode1(m, off) == Some((Prop(no, v), off + |Encode(Prop(no, v))|))
  {
    hide Put32, Decode1, Be32, Pad, Align4, At;
    AtParts(m, off, Put32(PROP) + Put32(|v|) + Put32(no) + v, Pad(|v|));
    AtParts(m, off, Put32(PROP) + Put32(|v|) + Put32(no), v);
    AtParts(m, off, Put32(PROP) + Put32(|v|), Put32(no));
    AtParts(m, off, Put32(PROP), Put32(|v|));
    WordAt(m, off, PROP);
    WordAt(m, off + 4, |v|);
    WordAt(m, off + 8, no);
    EncodeSize(Prop(no, v));
    DecodesProp(m, off, no, v);
  }

  lemma DecodesProp(m: seq<Byte>, off: nat, no: int, v: seq<Byte>)
    requires At(m, off + 12, v) && Be32(m, off) == PROP && Be32(m, off + 4) == |v| && Be32(m, off + 8) == no
    ensures Decode1(m, off) == Some((Prop(no, v), off + 12 + Align4(|v|)))
  {
    hide Be32, Align4;
  }

  /** A structure block reads back as the tokens it was written from. */
  lemma {:induction false} DecodeReads(m: seq<Byte>, off: nat, ts: seq<Token>)
    requires AllFine(ts) && At(m, off, EncodeAll(ts) + Put32(END))
    ensures Decode(m, off, off + |EncodeAll(ts)| + 4) == Some(ts)
    decreases |ts|
  {
    hide Encode, EncodeAll, Fine, Decode1, Decode, Put32, At;
    if ts == [] {
      DecodeEnd(m, off);
    } else {
      var x, all, more := Encode(ts[0]), EncodeAll(ts), EncodeAll(ts[1..]);
      EncodeCons(ts);
      assert all + Put32(END) == x + (more + Put32(END));
      AtParts(m, off, x, more + Put32(END));
      EncodeOne(ts[0]);
      FineTokens(ts[0]);
      Decode1Reads(m, off, ts[0]);
      var next := off + |x|;
      DecodeReads(m, next, ts[1..]);
      assert next + |more| + 4 == off + |all| + 4;
      AtFits(m, off, x);
      DecodeStep(m, off, off + |all| + 4, ts[0], next, ts[1..]);
      assert [ts[0]] + ts[1..] == ts;
    }
  }

  lemma AtFits(m: seq<Byte>, p: nat, s: seq<Byte>)
    requires At(m, p, s)
    ensures p + |s| <= |m|
  {
  }

  lemma DecodeEnd(m: seq<Byte>, off: nat)
    requires At(m, off, EncodeAll([]) + Put32(END))
    ensures Decode(m, off, off + |EncodeAll([])| + 4) == Some([])
  {
    assert EncodeAll([]) + Put32(END) == Put32(END);
    Put32Reads(END, m, off);
  }

  lemma EncodeCons(ts: seq<Token>)
    requires AllFine(ts) && ts != []
    ensures AllFine(ts[1..]) && EncodeAll(ts) == Encode(ts[0]) + EncodeAll(ts[1..])
  {
  }

  lemma DecodeStep(m: seq<Byte>, off: nat, end: int, t: Token, next: nat, ts: seq<Token>)
    requires off < end && off + 4 <= |m| && Decode1(m, off) == Some((t, next)) && !t.Fin? && !t.Bad?
    requires Decode(m, next, end) == Some(ts)
    ensures Decode(m, off, end) == Some([t] + ts)
  {
  }

  lemma FineTokens(t: Token)
    requires Fine(t)
    ensures !t.Fin? && !t.Bad?
  {
  }

  /** What was read can be written. */
  lemma {:induction false} DecodedFine(m: seq<Byte>, off: nat, end: int)
    requires Decode(m, off, end).Some?
    ensures var ts := Decode(m, off, end).value;
      forall i | 0 <= i < |ts| :: Fine(ts[i]) || (ts[i].Bad? && i == |ts| - 1)
    decreases end - off
  {
    if off < end {
      var (t, next) := Decode1(m, off).value;
      if !t.Fin? && !t.Bad? {
        DecodedFine(m, next, end);
        assert Fine(t);
        assert Decode(m, off, end).value == [t] + Decode(m, next, end).value;
      }
    }
  }
}
