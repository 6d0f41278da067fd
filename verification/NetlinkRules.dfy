/** The ruleset the firewall sends: every message of it, built call by call into one batch. */
module NetlinkRules {
  import opened Optional
  import opened Octets
  import opened Numerals
  import opened NetlinkFormat
  import opened NetlinkBatch

  // ── What is sent, as values ────────────────────────────────────────

  const INET: Byte := 1
  const SUBSYS := 10
  const REQUEST := 0x001
  const ACK := 0x004
  const CREATE := 0x400
  const APPEND := 0x800
  const DROP := 0
  const ACCEPT := 1
  const TCP: Byte := 6
  const UDP: Byte := 17
  const ICMP: Byte := 1
  const ICMP6: Byte := 58
  const MAX_EXTRA := 24

  datatype Msg = Msg(kind: nat, flags: nat, family: Byte, resId: nat, body: seq<Attr>)

  function HeadOf(m: Msg, n: nat): Head { Head(m.kind, m.flags, n % U32, m.family, m.resId) }

  /** Messages in a row, numbered from one. */
  function Bytes(log: seq<Msg>): seq<Byte> {
    if log == [] then []
    else
      var n := |log| - 1;
      Bytes(log[..n]) + Message(HeadOf(log[n], |log|), log[n].body)
  }

  function Ascii(s: string): (b: seq<Byte>)
    ensures |b| == |s|
  {
    seq(|s|, i requires 0 <= i < |s| => (s[i] as int % 256) as Byte)
  }

  function Word(kind: nat, v: nat): Attr { Leaf(kind, BeBytes(v, 4)) }

  function Text(kind: nat, s: string): Attr { Leaf(kind, Ascii(s) + [0]) }

  function ExprOf(name: string, kids: seq<Attr>): Attr {
    Nest(LIST_ELEM, [Text(EXPR_NAME, name), Nest(EXPR_DATA, kids)])
  }

  function Meta(key: nat): Attr { ExprOf("meta", [Word(2, key), Word(1, 1)]) }

  function PayloadOf(base: nat, off: nat, len: nat): Attr {
    ExprOf("payload", [Word(1, 1), Word(2, base), Word(3, off), Word(4, len)])
  }

  function Cmp(op: nat, data: seq<Byte>): Attr {
    ExprOf("cmp", [Word(1, 1), Word(2, op), Nest(3, [Leaf(1, data)])])
  }

  function Mask(mask: nat): Attr {
    ExprOf("bitwise", [Word(1, 1), Word(2, 1), Word(3, 4), Nest(4, [Leaf(1, Le4(mask))]), Nest(5, [Leaf(1, Le4(0))])])
  }

  function CtState(): Attr { ExprOf("ct", [Word(2, 0), Word(1, 1)]) }

  /** Any of these bits of the connection's state. */
  function AnyState(bits: nat): seq<Attr> { [CtState(), Mask(bits), Cmp(1, Le4(0))] }

  function Limit(rate: nat, secs: nat, burst: nat): Attr {
    ExprOf("limit", [Leaf(1, BeBytes(rate, 8)), Leaf(2, BeBytes(secs, 8)), Word(3, burst), Word(4, 0)])
  }

  function Count0(): Attr { CounterExpr(Counter(0, 0)) }

  function Verdict(code: nat): Attr { ExprOf("immediate", [Word(1, 0), Nest(2, [Nest(2, [Word(1, code)])])]) }

  /** An interface name as sixteen bytes. */
  function IfName(name: string): (b: seq<Byte>)
    requires |name| < 16
    ensures |b| == 16
  {
    Ascii(name) + Zeros(16 - |name|)
  }

  /** A rule's label as the kernel keeps it. One too long for 64 bytes is cut short. */
  function UserData(tag: string): (d: seq<Byte>)
    ensures |d| <= 64 && |d| <= |tag| + 3
  {
    var n := if |tag| + 1 > 62 then 62 else |tag| + 1;
    [0, n as Byte] + Ascii(tag)[..n - 1] + [0]
  }

  function Table(kind: nat, flags: nat): Msg { Msg(SUBSYS * 256 + kind, flags, INET, 0, [Text(1, "lpzero")]) }

  function Chain(name: string, hook: nat, policy: nat): Msg {
    Msg(SUBSYS * 256 + 3, REQUEST + ACK + CREATE, INET, 0,
        [Text(1, "lpzero"), Text(3, name), Nest(4, [Word(1, hook), Word(2, 0)]), Word(5, policy), Text(7, "filter")])
  }

  const RULE_KIND := SUBSYS * 256 + 6
  const RULE_FLAGS := REQUEST + ACK + CREATE + APPEND

  function Rule(chain: string, tag: string, exprs: seq<Attr>): Msg {
    Msg(RULE_KIND, RULE_FLAGS, INET, 0,
        [Text(1, "lpzero"), Text(2, chain), Leaf(7, UserData(tag)), Nest(4, exprs)])
  }

  /** Packets of a protocol to a port are let through. */
  function PortRule(chain: string, tag: string, proto: Byte, port: nat): Msg {
    Rule(chain, tag,
      [Meta(16), Cmp(0, [proto]), PayloadOf(2, 2, 2), Cmp(0, BeBytes(port, 2)), Count0(), Verdict(ACCEPT)])
  }

  /** A port that the configuration asks for. */
  datatype Extra = Extra(proto: Byte, port: nat) {
    ghost predicate Valid() { port < 0x1_0000 }
    function Label(): string { (if proto == TCP then "tcp" else "udp") + " port " + Digits(port, 10) }
  }

  function ExtraRules(extra: seq<Extra>): seq<Msg> {
    if extra == [] then []
    else
      var n := |extra| - 1;
      ExtraRules(extra[..n]) + [PortRule("input", extra[n].Label(), extra[n].proto, extra[n].port)]
  }

  const ESTABLISHED := 2
  const RELATED := 4
  const NEW := 8

  /** What every configuration lets in. */
  function StandingRules(): seq<Msg> {
    [Rule("input", "established", AnyState(ESTABLISHED + RELATED) + [Count0(), Verdict(ACCEPT)]),
     Rule("input", "loopback", [Meta(6), Cmp(0, IfName("lo")), Count0(), Verdict(ACCEPT)]),
     Rule("input", "ssh (new, rate limited)", NewSsh()),
     PortRule("input", "ssh (already open)", TCP, 22),
     Rule("input", "icmpv6", [Meta(16), Cmp(0, [ICMP6]), Count0(), Verdict(ACCEPT)]),
     Rule("input", "ping", [Meta(16), Cmp(0, [ICMP]), Limit(20, 1, 50), Count0(), Verdict(ACCEPT)]),
     PortRule("input", "dhcp reply", UDP, 68)]
  }

  function NewSsh(): seq<Attr> {
    [Meta(16), Cmp(0, [TCP]), PayloadOf(2, 2, 2), Cmp(0, BeBytes(22, 2))] + AnyState(NEW) +
    [Limit(30, 60, 30), Count0(), Verdict(ACCEPT)]
  }

  function InputRules(extra: seq<Extra>): seq<Msg> {
    StandingRules() + ExtraRules(extra) + [Rule("input", "denied", [Count0()])]
  }

  /** What strict mode lets out. */
  function PortsOut(): seq<Msg> {
    [PortRule("output", "dns", UDP, 53),
     PortRule("output", "dns (tcp)", TCP, 53),
     PortRule("output", "dhcp", UDP, 67),
     PortRule("output", "ntp", UDP, 123),
     PortRule("output", "http", TCP, 80),
     PortRule("output", "https", TCP, 443),
     PortRule("output", "ssh out", TCP, 22)]
  }

  function OutputRules(strict: bool): seq<Msg> {
    if !strict then [Rule("output", "sent", [Count0()])]
    else
      [Rule("output", "established", AnyState(ESTABLISHED + RELATED) + [Count0(), Verdict(ACCEPT)]),
       Rule("output", "loopback", [Meta(7), Cmp(0, IfName("lo")), Count0(), Verdict(ACCEPT)])] +
      PortsOut() +
      [Rule("output", "icmpv6", [Meta(16), Cmp(0, [ICMP6]), Count0(), Verdict(ACCEPT)]),
       Rule("output", "ping out", [Meta(16), Cmp(0, [ICMP]), Count0(), Verdict(ACCEPT)]),
       Rule("output", "blocked", [Count0()])]
  }

  function Begin(): Msg { Msg(16, REQUEST, 0, SUBSYS, []) }

  function End(): Msg { Msg(17, REQUEST, 0, SUBSYS, []) }

  /** A table of that name goes first, so that turning the firewall on twice gives one ruleset. */
  function Chains(strict: bool, replacing: bool): seq<Msg> {
    [Begin()] + (if replacing then [Table(2, REQUEST + ACK)] else []) +
    [Table(0, REQUEST + ACK + CREATE), Chain("input", 1, DROP), Chain("forward", 2, DROP),
     Chain("output", 3, if strict then DROP else ACCEPT)]
  }

  /** Everything that turning the firewall on sends. */
  function Ruleset(strict: bool, replacing: bool, extra: seq<Extra>): seq<Msg> {
    Chains(strict, replacing) + InputRules(extra) + [Rule("forward", "forwarded", [Count0()])] + OutputRules(strict) +
      [End()]
  }

  /** Whether the kernel is asked for an answer to a message. */
  predicate Asks(m: Msg) { m.flags / ACK % 2 == 1 }

  /** The message before the last is the last one that is answered. */
  lemma LastAnswer(strict: bool, replacing: bool, extra: seq<Extra>)
    ensures var all := Ruleset(strict, replacing, extra);
      |all| >= 2 && Asks(all[|all| - 2]) && !Asks(all[|all| - 1])
  {
    hide Chains, InputRules, PortsOut, AnyState, Meta, Cmp, Count0, Verdict;
    var out := OutputRules(strict);
    var before := Chains(strict, replacing) + InputRules(extra) + [Rule("forward", "forwarded", [Count0()])];
    assert Ruleset(strict, replacing, extra) == before + out + [End()];
    assert (before + out)[|before + out| - 1] == out[|out| - 1];
  }

  // ── Where the batch stands ─────────────────────────────────────────

  /** What stays the same while a message is filled. */
  datatype Around = Around(done: seq<Byte>, head: Head, seqNo: nat)

  /** A message is being filled, with these nests open. Nothing is nested too deep, and nothing
      was ever written behind the sink. */
  ghost predicate On(b: Batch, a: Around, frames: seq<Frame>)
    reads b, b.buf, b.nest
  {
    && b.Valid() && !b.deep && !b.strayed && b.frames == frames
    && b.done == a.done && b.head == a.head && b.seqNo == a.seqNo
  }

  /** These messages are complete, and none is open. */
  ghost predicate Logged(b: Batch, log: seq<Msg>)
    reads b, b.buf, b.nest
  {
    b.Valid() && !b.deep && !b.strayed && b.frames == [] && b.done == Bytes(log) && b.seqNo == |log| % U32
  }

  function Adding(f: Frame, a: Attr): Frame { f.(kids := f.kids + [a]) }

  method PutData(b: Batch, ghost a: Around, ghost base: seq<Frame>, ghost f: Frame, kind: nat, data: seq<Byte>)
    returns (ghost g: Frame)
    requires On(b, a, base + [f]) && |data| <= SINK_SIZE
    modifies b, b.buf
    ensures g == Adding(f, Leaf(kind, data)) && On(b, a, base + [g])
  {
    hide Batch.Valid, With;
    b.AttrPut(kind, data);
    WithLast(base, f, Leaf(kind, data));
    g := Adding(f, Leaf(kind, data));
  }

  method PutWord(b: Batch, ghost a: Around, ghost base: seq<Frame>, ghost f: Frame, kind: nat, v: nat)
    returns (ghost g: Frame)
    requires On(b, a, base + [f])
    modifies b, b.buf
    ensures g == Adding(f, Word(kind, v)) && On(b, a, base + [g])
  {
    hide Batch.Valid, With, BeBytes;
    b.AttrU32(kind, v);
    WithLast(base, f, Word(kind, v));
    g := Adding(f, Word(kind, v));
  }

  method PutLong(b: Batch, ghost a: Around, ghost base: seq<Frame>, ghost f: Frame, kind: nat, v: nat)
    returns (ghost g: Frame)
    requires On(b, a, base + [f]) && v < U64
    modifies b, b.buf
    ensures g == Adding(f, Leaf(kind, BeBytes(v, 8))) && On(b, a, base + [g])
  {
    hide Batch.Valid, With, BeBytes;
    b.AttrU64(kind, v);
    WithLast(base, f, Leaf(kind, BeBytes(v, 8)));
    g := Adding(f, Leaf(kind, BeBytes(v, 8)));
  }

  method PutText(b: Batch, ghost a: Around, ghost base: seq<Frame>, ghost f: Frame, kind: nat, s: string)
    returns (ghost g: Frame)
    requires On(b, a, base + [f]) && |s| < SINK_SIZE
    modifies b, b.buf
    ensures g == Adding(f, Text(kind, s)) && On(b, a, base + [g])
  {
    hide Batch.Valid, With, Ascii;
    b.AttrStr(kind, Ascii(s));
    assert (Ascii(s) + [0])[..|s| + 1] == Ascii(s) + [0];
    WithLast(base, f, Text(kind, s));
    g := Adding(f, Text(kind, s));
  }

  method Enter(b: Batch, ghost a: Around, ghost base: seq<Frame>, ghost f: Frame, kind: nat)
    requires On(b, a, base + [f]) && |base| < MAX_DEPTH
    modifies b, b.buf, b.nest
    ensures On(b, a, base + [f] + [Frame(kind, [])])
  {
    hide Batch.Valid;
    b.NestBegin(kind);
  }

  method Leave(b: Batch, ghost a: Around, ghost base: seq<Frame>, ghost f: Frame, ghost g: Frame)
    returns (ghost h: Frame)
    requires On(b, a, base + [f] + [g])
    modifies b, b.buf
    ensures h == Adding(f, Nest(g.kind, g.kids)) && On(b, a, base + [h])
  {
    hide Batch.Valid, Closed;
    b.NestEnd();
    assert base + [f] + [g] == base + [f, g];
    ClosedLast(base, f, g);
    h := Adding(f, Nest(g.kind, g.kids));
  }

  // ── Expressions ────────────────────────────────────────────────────

  /** An expression that is being filled, up to its name. */
  function Named(name: string): Frame { Frame(LIST_ELEM, [Text(EXPR_NAME, name)]) }

  method ExprBegin(b: Batch, ghost a: Around, ghost base: seq<Frame>, ghost f: Frame, name: string)
    returns (ghost up: seq<Frame>, ghost d: Frame)
    requires On(b, a, base + [f]) && |base| + 1 < MAX_DEPTH && |name| < SINK_SIZE
    modifies b, b.buf, b.nest
    ensures up == base + [f] + [Named(name)] && d == Frame(EXPR_DATA, [])
    ensures On(b, a, up + [d])
  {
    hide On;
    Enter(b, a, base, f, LIST_ELEM);
    ghost var e := PutText(b, a, base + [f], Frame(LIST_ELEM, []), EXPR_NAME, name);
    assert e == Named(name);
    Enter(b, a, base + [f], e, EXPR_DATA);
    up, d := base + [f] + [e], Frame(EXPR_DATA, []);
  }

  method ExprEnd(b: Batch, ghost a: Around, ghost base: seq<Frame>, ghost f: Frame, ghost name: string, ghost d: Frame)
    returns (ghost g: Frame)
    requires d.kind == EXPR_DATA && On(b, a, base + [f] + [Named(name)] + [d])
    modifies b, b.buf
    ensures g == Adding(f, ExprOf(name, d.kids)) && On(b, a, base + [g])
  {
    hide On;
    ghost var e := Leave(b, a, base + [f], Named(name), d);
    g := Leave(b, a, base, f, e);
    assert e.kids == [Text(EXPR_NAME, name), Nest(EXPR_DATA, d.kids)];
  }

  method EMeta(b: Batch, ghost a: Around, ghost base: seq<Frame>, ghost f: Frame, key: nat) returns (ghost g: Frame)
    requires On(b, a, base + [f]) && |base| == 1
    modifies b, b.buf, b.nest
    ensures g == Adding(f, Meta(key)) && On(b, a, base + [g])
  {
    hide On, Word, Text;
    ghost var up, d := ExprBegin(b, a, base, f, "meta");
    d := PutWord(b, a, up, d, 2, key);
    d := PutWord(b, a, up, d, 1, 1);
    assert d.kids == [Word(2, key), Word(1, 1)];
    g := ExprEnd(b, a, base, f, "meta", d);
  }

  method EPayload(b: Batch, ghost a: Around, ghost base: seq<Frame>, ghost f: Frame, from: nat, off: nat, len: nat)
    returns (ghost g: Frame)
    requires On(b, a, base + [f]) && |base| == 1
    modifies b, b.buf, b.nest
    ensures g == Adding(f, PayloadOf(from, off, len)) && On(b, a, base + [g])
  {
    hide On, Word, Text;
    ghost var up, d := ExprBegin(b, a, base, f, "payload");
    d := PutWord(b, a, up, d, 1, 1);
    d := PutWord(b, a, up, d, 2, from);
    d := PutWord(b, a, up, d, 3, off);
    d := PutWord(b, a, up, d, 4, len);
    assert d.kids == [Word(1, 1), Word(2, from), Word(3, off), Word(4, len)];
    g := ExprEnd(b, a, base, f, "payload", d);
  }

  /** Some bytes in a nest of their own. */
  method PutValue(b: Batch, ghost a: Around, ghost base: seq<Frame>, ghost d: Frame, kind: nat, data: seq<Byte>)
    returns (ghost g: Frame)
    requires On(b, a, base + [d]) && |base| < MAX_DEPTH && |data| <= SINK_SIZE
    modifies b, b.buf, b.nest
    ensures g == Adding(d, Nest(kind, [Leaf(1, data)])) && On(b, a, base + [g])
  {
    hide On;
    Enter(b, a, base, d, kind);
    ghost var v := PutData(b, a, base + [d], Frame(kind, []), 1, data);
    assert v.kids == [Leaf(1, data)];
    g := Leave(b, a, base, d, v);
  }

  method ECmp(b: Batch, ghost a: Around, ghost base: seq<Frame>, ghost f: Frame, op: nat, data: seq<Byte>)
    returns (ghost g: Frame)
    requires On(b, a, base + [f]) && |base| == 1 && |data| <= SINK_SIZE
    modifies b, b.buf, b.nest
    ensures g == Adding(f, Cmp(op, data)) && On(b, a, base + [g])
  {
    hide On, Word, Text;
    ghost var up, d := ExprBegin(b, a, base, f, "cmp");
    d := PutWord(b, a, up, d, 1, 1);
    d := PutWord(b, a, up, d, 2, op);
    d := PutValue(b, a, up, d, 3, data);
    assert d.kids == [Word(1, 1), Word(2, op), Nest(3, [Leaf(1, data)])];
    g := ExprEnd(b, a, base, f, "cmp", d);
  }

  method EMask(b: Batch, ghost a: Around, ghost base: seq<Frame>, ghost f: Frame, mask: nat) returns (ghost g: Frame)
    requires On(b, a, base + [f]) && |base| == 1
    modifies b, b.buf, b.nest
    ensures g == Adding(f, Mask(mask)) && On(b, a, base + [g])
  {
    hide On, Word, Text, Le4;
    ghost var up, d := ExprBegin(b, a, base, f, "bitwise");
    d := PutWord(b, a, up, d, 1, 1);
    d := PutWord(b, a, up, d, 2, 1);
    d := PutWord(b, a, up, d, 3, 4);
    d := PutValue(b, a, up, d, 4, Le4(mask));
    d := PutValue(b, a, up, d, 5, Le4(0));
    assert d.kids == [Word(1, 1), Word(2, 1), Word(3, 4), Nest(4, [Leaf(1, Le4(mask))]), Nest(5, [Leaf(1, Le4(0))])];
    g := ExprEnd(b, a, base, f, "bitwise", d);
  }

  method ECtState(b: Batch, ghost a: Around, ghost base: seq<Frame>, ghost f: Frame) returns (ghost g: Frame)
    requires On(b, a, base + [f]) && |base| == 1
    modifies b, b.buf, b.nest
    ensures g == Adding(f, CtState()) && On(b, a, base + [g])
  {
    hide On, Word, Text;
    ghost var up, d := ExprBegin(b, a, base, f, "ct");
    d := PutWord(b, a, up, d, 2, 0);
    d := PutWord(b, a, up, d, 1, 1);
    assert d.kids == [Word(2, 0), Word(1, 1)];
    g := ExprEnd(b, a, base, f, "ct", d);
  }

  method ECtStateAny(b: Batch, ghost a: Around, ghost base: seq<Frame>, ghost f: Frame, bits: nat)
    returns (ghost g: Frame)
    requires On(b, a, base + [f]) && |base| == 1
    modifies b, b.buf, b.nest
    ensures g == f.(kids := f.kids + AnyState(bits)) && On(b, a, base + [g])
  {
    hide On, CtState, Mask, Cmp, Le4;
    g := ECtState(b, a, base, f);
    g := EMask(b, a, base, g, bits);
    g := ECmp(b, a, base, g, 1, Le4(0));
    assert g.kids == f.kids + AnyState(bits);
  }

  method ELimit(b: Batch, ghost a: Around, ghost base: seq<Frame>, ghost f: Frame, rate: nat, secs: nat, burst: nat)
    returns (ghost g: Frame)
    requires On(b, a, base + [f]) && |base| == 1 && rate < U64 && secs < U64
    modifies b, b.buf, b.nest
    ensures g == Adding(f, Limit(rate, secs, burst)) && On(b, a, base + [g])
  {
    hide On, Word, Text, BeBytes;
    ghost var up, d := ExprBegin(b, a, base, f, "limit");
    d := PutLong(b, a, up, d, 1, rate);
    d := PutLong(b, a, up, d, 2, secs);
    d := PutWord(b, a, up, d, 3, burst);
    d := PutWord(b, a, up, d, 4, 0);
    assert d.kids == [Leaf(1, BeBytes(rate, 8)), Leaf(2, BeBytes(secs, 8)), Word(3, burst), Word(4, 0)];
    g := ExprEnd(b, a, base, f, "limit", d);
  }

  method ECounter(b: Batch, ghost a: Around, ghost base: seq<Frame>, ghost f: Frame) returns (ghost g: Frame)
    requires On(b, a, base + [f]) && |base| == 1
    modifies b, b.buf, b.nest
    ensures g == Adding(f, Count0()) && On(b, a, base + [g])
  {
    hide Batch.Valid, With, CounterExpr;
    b.ECounter();
    WithLast(base, f, Count0());
    g := Adding(f, Count0());
  }

  method EVerdict(b: Batch, ghost a: Around, ghost base: seq<Frame>, ghost f: Frame, code: nat) returns (ghost g: Frame)
    requires On(b, a, base + [f]) && |base| == 1
    modifies b, b.buf, b.nest
    ensures g == Adding(f, Verdict(code)) && On(b, a, base + [g])
  {
    hide On, Word, Text;
    ghost var up, d := ExprBegin(b, a, base, f, "immediate");
    d := PutWord(b, a, up, d, 1, 0);
    Enter(b, a, up, d, 2);
    Enter(b, a, up + [d], Frame(2, []), 2);
    ghost var v := PutWord(b, a, up + [d] + [Frame(2, [])], Frame(2, []), 1, code);
    ghost var w := Leave(b, a, up + [d], Frame(2, []), v);
    assert w.kids == [Nest(2, [Word(1, code)])] by { assert v.kids == [Word(1, code)]; }
    d := Leave(b, a, up, d, w);
    assert d.kids == [Word(1, 0), Nest(2, [Nest(2, [Word(1, code)])])];
    g := ExprEnd(b, a, base, f, "immediate", d);
  }

  // ── Messages ───────────────────────────────────────────────────────

  /** What stands around a message that comes after these. */
  function AroundNext(log: seq<Msg>, m: Msg): Around {
    Around(Bytes(log), HeadOf(m, |log| + 1), (|log| + 1) % U32)
  }

  method MessageBegin(b: Batch, ghost log: seq<Msg>, ghost m: Msg, kind: nat, flags: nat, family: Byte, resId: nat)
    returns (ghost a: Around)
    requires Logged(b, log) && m.kind == kind && m.flags == flags && m.family == family && m.resId == resId
    modifies b, b.buf
    ensures a == AroundNext(log, m) && On(b, a, [] + [Frame(0, [])])
  {
    hide Batch.Valid, Bytes;
    b.MsgBegin(kind, flags, family, resId);
    NextNumber(|log|);
    a := AroundNext(log, m);
  }

  method MessageEnd(b: Batch, ghost log: seq<Msg>, ghost m: Msg, ghost f: Frame)
    requires On(b, AroundNext(log, m), [] + [f]) && f.kids == m.body
    modifies b, b.buf
    ensures Logged(b, log + [m])
  {
    hide Batch.Valid, Bytes, Message;
    b.MsgEnd();
    BytesBack(log, m);
  }

  lemma NextNumber(n: nat)
    ensures (n % U32 + 1) % U32 == (n + 1) % U32
  {
  }

  lemma BytesBack(log: seq<Msg>, m: Msg)
    ensures Bytes(log + [m]) == Bytes(log) + Message(HeadOf(m, |log| + 1), m.body)
  {
    hide Message;
    assert (log + [m])[..|log|] == log;
  }

  /** A message without a body: the ones that open and close the batch. */
  method MEmpty(b: Batch, ghost log: seq<Msg>, kind: nat) returns (ghost more: seq<Msg>)
    requires Logged(b, log)
    modifies b, b.buf
    ensures more == log + [Msg(kind, REQUEST, 0, SUBSYS, [])] && Logged(b, more)
  {
    hide On, Logged;
    ghost var m := Msg(kind, REQUEST, 0, SUBSYS, []);
    ghost var a := MessageBegin(b, log, m, kind, REQUEST, 0, SUBSYS);
    MessageEnd(b, log, m, Frame(0, []));
    more := log + [m];
  }

  method MTable(b: Batch, ghost log: seq<Msg>, kind: nat, flags: nat) returns (ghost more: seq<Msg>)
    requires Logged(b, log)
    modifies b, b.buf
    ensures more == log + [Table(kind, REQUEST + ACK + flags)] && Logged(b, more)
  {
    hide On, Logged, Text;
    ghost var m := Table(kind, REQUEST + ACK + flags);
    ghost var a := MessageBegin(b, log, m, SUBSYS * 256 + kind, REQUEST + ACK + flags, INET, 0);
    ghost var f := PutText(b, a, [], Frame(0, []), 1, "lpzero");
    MessageEnd(b, log, m, f);
    more := log + [m];
  }

  method MChain(b: Batch, ghost log: seq<Msg>, name: string, hook: nat, policy: nat) returns (ghost more: seq<Msg>)
    requires Logged(b, log) && |name| < SINK_SIZE
    modifies b, b.buf, b.nest
    ensures more == log + [Chain(name, hook, policy)] && Logged(b, more)
  {
    hide On, Logged, Text, Word;
    ghost var m := Chain(name, hook, policy);
    ghost var a := MessageBegin(b, log, m, SUBSYS * 256 + 3, REQUEST + ACK + CREATE, INET, 0);
    ghost var f := PutText(b, a, [], Frame(0, []), 1, "lpzero");
    f := PutText(b, a, [], f, 3, name);
    Enter(b, a, [], f, 4);
    ghost var h := PutWord(b, a, [] + [f], Frame(4, []), 1, hook);
    h := PutWord(b, a, [] + [f], h, 2, 0);
    assert h.kids == [Word(1, hook), Word(2, 0)];
    f := Leave(b, a, [], f, h);
    f := PutWord(b, a, [], f, 5, policy);
    f := PutText(b, a, [], f, 7, "filter");
    assert f.kids == m.body;
    MessageEnd(b, log, m, f);
    more := log + [m];
  }

  /** The message of a rule up to its expressions. */
  function RuleTop(chain: string, tag: string): Frame {
    Frame(0, [Text(1, "lpzero"), Text(2, chain), Leaf(7, UserData(tag))])
  }

  function RuleAround(log: seq<Msg>): Around { AroundNext(log, Rule("", "", [])) }

  method RuleBegin(b: Batch, ghost log: seq<Msg>, chain: string, tag: string)
    returns (ghost a: Around, ghost base: seq<Frame>, ghost f: Frame)
    requires Logged(b, log) && |chain| < SINK_SIZE
    modifies b, b.buf, b.nest
    ensures a == RuleAround(log) && base == [RuleTop(chain, tag)] && f == Frame(4, []) && On(b, a, base + [f])
  {
    hide On, Logged, Text, UserData;
    a := MessageBegin(b, log, Rule("", "", []), RULE_KIND, RULE_FLAGS, INET, 0);
    ghost var t := PutText(b, a, [], Frame(0, []), 1, "lpzero");
    t := PutText(b, a, [], t, 2, chain);
    t := PutData(b, a, [], t, 7, UserData(tag));
    Enter(b, a, [], t, 4);
    assert t.kids == RuleTop(chain, tag).kids;
    base, f := [RuleTop(chain, tag)], Frame(4, []);
    assert [] + [t] == base;
  }

  method RuleEnd(b: Batch, ghost log: seq<Msg>, ghost chain: string, ghost tag: string, ghost f: Frame)
    returns (ghost more: seq<Msg>)
    requires f.kind == 4 && On(b, RuleAround(log), [RuleTop(chain, tag)] + [f])
    modifies b, b.buf
    ensures more == log + [Rule(chain, tag, f.kids)] && Logged(b, more)
  {
    hide On, Logged, Text, UserData;
    ghost var m := Rule(chain, tag, f.kids);
    assert [RuleTop(chain, tag)] + [f] == [] + [RuleTop(chain, tag)] + [f];
    ghost var t := Leave(b, RuleAround(log), [], RuleTop(chain, tag), f);
    assert RuleAround(log) == AroundNext(log, m);
    MessageEnd(b, log, m, t);
    more := log + [m];
  }

  // ── Rules ──────────────────────────────────────────────────────────

  /** Packets to a port are let through. */
  method RulePort(b: Batch, ghost log: seq<Msg>, chain: string, tag: string, proto: Byte, port: nat)
    returns (ghost more: seq<Msg>)
    requires Logged(b, log) && |chain| < SINK_SIZE
    modifies b, b.buf, b.nest
    ensures more == log + [PortRule(chain, tag, proto, port)] && Logged(b, more)
  {
    hide On, Logged, Meta, Cmp, PayloadOf, Count0, Verdict, BeBytes, RuleAround, RuleTop;
    ghost var a, base, f := RuleBegin(b, log, chain, tag);
    f := EMeta(b, a, base, f, 16);
    f := ECmp(b, a, base, f, 0, [proto]);
    f := EPayload(b, a, base, f, 2, 2, 2);
    f := ECmp(b, a, base, f, 0, BeBytes(port, 2));
    f := ECounter(b, a, base, f);
    f := EVerdict(b, a, base, f, ACCEPT);
    assert f.kids == [Meta(16), Cmp(0, [proto]), PayloadOf(2, 2, 2), Cmp(0, BeBytes(port, 2)), Count0(),
      Verdict(ACCEPT)];
    more := RuleEnd(b, log, chain, tag, f);
  }

  method RuleEstablished(b: Batch, ghost log: seq<Msg>, chain: string) returns (ghost more: seq<Msg>)
    requires Logged(b, log) && |chain| < SINK_SIZE
    modifies b, b.buf, b.nest
    ensures Logged(b, more)
    ensures more == log + [Rule(chain, "established", AnyState(ESTABLISHED + RELATED) + [Count0(), Verdict(ACCEPT)])]
  {
    hide On, Logged, AnyState, Count0, Verdict, RuleAround, RuleTop;
    ghost var a, base, f := RuleBegin(b, log, chain, "established");
    f := ECtStateAny(b, a, base, f, ESTABLISHED + RELATED);
    f := ECounter(b, a, base, f);
    f := EVerdict(b, a, base, f, ACCEPT);
    assert f.kids == AnyState(ESTABLISHED + RELATED) + [Count0(), Verdict(ACCEPT)];
    more := RuleEnd(b, log, chain, "established", f);
  }

  method RuleLoopback(b: Batch, ghost log: seq<Msg>, chain: string, key: nat) returns (ghost more: seq<Msg>)
    requires Logged(b, log) && |chain| < SINK_SIZE
    modifies b, b.buf, b.nest
    ensures more == log + [Rule(chain, "loopback", [Meta(key), Cmp(0, IfName("lo")), Count0(), Verdict(ACCEPT)])]
    ensures Logged(b, more)
  {
    hide On, Logged, Meta, Cmp, Count0, Verdict, RuleAround, RuleTop, Ascii, Zeros;
    ghost var a, base, f := RuleBegin(b, log, chain, "loopback");
    f := EMeta(b, a, base, f, key);
    f := ECmp(b, a, base, f, 0, IfName("lo"));
    f := ECounter(b, a, base, f);
    f := EVerdict(b, a, base, f, ACCEPT);
    assert f.kids == [Meta(key), Cmp(0, IfName("lo")), Count0(), Verdict(ACCEPT)];
    more := RuleEnd(b, log, chain, "loopback", f);
  }

  method RuleProto(b: Batch, ghost log: seq<Msg>, chain: string, tag: string, proto: Byte)
    returns (ghost more: seq<Msg>)
    requires Logged(b, log) && |chain| < SINK_SIZE
    modifies b, b.buf, b.nest
    ensures more == log + [Rule(chain, tag, [Meta(16), Cmp(0, [proto]), Count0(), Verdict(ACCEPT)])] && Logged(b, more)
  {
    hide On, Logged, Meta, Cmp, Count0, Verdict, RuleAround, RuleTop;
    ghost var a, base, f := RuleBegin(b, log, chain, tag);
    f := EMeta(b, a, base, f, 16);
    f := ECmp(b, a, base, f, 0, [proto]);
    f := ECounter(b, a, base, f);
    f := EVerdict(b, a, base, f, ACCEPT);
    assert f.kids == [Meta(16), Cmp(0, [proto]), Count0(), Verdict(ACCEPT)];
    more := RuleEnd(b, log, chain, tag, f);
  }

  /** Packets are only counted. */
  method RuleCount(b: Batch, ghost log: seq<Msg>, chain: string, tag: string) returns (ghost more: seq<Msg>)
    requires Logged(b, log) && |chain| < SINK_SIZE
    modifies b, b.buf, b.nest
    ensures more == log + [Rule(chain, tag, [Count0()])] && Logged(b, more)
  {
    hide On, Logged, Count0, RuleAround, RuleTop;
    ghost var a, base, f := RuleBegin(b, log, chain, tag);
    f := ECounter(b, a, base, f);
    assert f.kids == [Count0()];
    more := RuleEnd(b, log, chain, tag, f);
  }

  method RuleNewSsh(b: Batch, ghost log: seq<Msg>) returns (ghost more: seq<Msg>)
    requires Logged(b, log)
    modifies b, b.buf, b.nest
    ensures more == log + [Rule("input", "ssh (new, rate limited)", NewSsh())] && Logged(b, more)
  {
    hide On, Logged, Meta, Cmp, PayloadOf, AnyState, Limit, Count0, Verdict, BeBytes, RuleAround, RuleTop;
    ghost var a, base, f := RuleBegin(b, log, "input", "ssh (new, rate limited)");
    f := EMeta(b, a, base, f, 16);
    f := ECmp(b, a, base, f, 0, [TCP]);
    f := EPayload(b, a, base, f, 2, 2, 2);
    f := ECmp(b, a, base, f, 0, BeBytes(22, 2));
    f := ECtStateAny(b, a, base, f, NEW);
    f := ELimit(b, a, base, f, 30, 60, 30);
    f := ECounter(b, a, base, f);
    f := EVerdict(b, a, base, f, ACCEPT);
    assert f.kids == NewSsh();
    more := RuleEnd(b, log, "input", "ssh (new, rate limited)", f);
  }

  method RulePing(b: Batch, ghost log: seq<Msg>) returns (ghost more: seq<Msg>)
    requires Logged(b, log)
    modifies b, b.buf, b.nest
    ensures more == log +
      [Rule("input", "ping", [Meta(16), Cmp(0, [ICMP]), Limit(20, 1, 50), Count0(), Verdict(ACCEPT)])]
    ensures Logged(b, more)
  {
    hide On, Logged, Meta, Cmp, Limit, Count0, Verdict, RuleAround, RuleTop;
    ghost var a, base, f := RuleBegin(b, log, "input", "ping");
    f := EMeta(b, a, base, f, 16);
    f := ECmp(b, a, base, f, 0, [ICMP]);
    f := ELimit(b, a, base, f, 20, 1, 50);
    f := ECounter(b, a, base, f);
    f := EVerdict(b, a, base, f, ACCEPT);
    assert f.kids == [Meta(16), Cmp(0, [ICMP]), Limit(20, 1, 50), Count0(), Verdict(ACCEPT)];
    more := RuleEnd(b, log, "input", "ping", f);
  }

  method BuildStanding(b: Batch, ghost log: seq<Msg>) returns (ghost more: seq<Msg>)
    requires Logged(b, log)
    modifies b, b.buf, b.nest
    ensures more == log + StandingRules() && Logged(b, more)
  {
    hide Logged, Rule, PortRule, NewSsh;
    more := RuleEstablished(b, log, "input");
    more := RuleLoopback(b, more, "input", 6);
    more := RuleNewSsh(b, more);
    more := RulePort(b, more, "input", "ssh (already open)", TCP, 22);
    more := RuleProto(b, more, "input", "icmpv6", ICMP6);
    more := RulePing(b, more);
    more := RulePort(b, more, "input", "dhcp reply", UDP, 68);
    assert more == log + StandingRules();
  }

  method BuildInput(b: Batch, ghost log: seq<Msg>, extra: seq<Extra>) returns (ghost more: seq<Msg>)
    requires Logged(b, log)
    modifies b, b.buf, b.nest
    ensures more == log + InputRules(extra) && Logged(b, more)
  {
    hide Logged, Rule, PortRule, StandingRules, Extra.Label;
    more := BuildStanding(b, log);
    for i := 0 to |extra|
      invariant Logged(b, more) && more == log + StandingRules() + ExtraRules(extra[..i])
    {
      hide Logged, Rule, PortRule, StandingRules, Extra.Label;
      more := RulePort(b, more, "input", extra[i].Label(), extra[i].proto, extra[i].port);
      assert extra[..i + 1][..i] == extra[..i];
    }
    assert extra[..|extra|] == extra;
    more := RuleCount(b, more, "input", "denied");
    assert more == log + InputRules(extra);
  }

  method BuildPortsOut(b: Batch, ghost log: seq<Msg>) returns (ghost more: seq<Msg>)
    requires Logged(b, log)
    modifies b, b.buf, b.nest
    ensures more == log + PortsOut() && Logged(b, more)
  {
    hide Logged, PortRule;
    more := RulePort(b, log, "output", "dns", UDP, 53);
    more := RulePort(b, more, "output", "dns (tcp)", TCP, 53);
    more := RulePort(b, more, "output", "dhcp", UDP, 67);
    more := RulePort(b, more, "output", "ntp", UDP, 123);
    more := RulePort(b, more, "output", "http", TCP, 80);
    more := RulePort(b, more, "output", "https", TCP, 443);
    more := RulePort(b, more, "output", "ssh out", TCP, 22);
    assert more == log + PortsOut();
  }

  method BuildOutput(b: Batch, ghost log: seq<Msg>, strict: bool) returns (ghost more: seq<Msg>)
    requires Logged(b, log)
    modifies b, b.buf, b.nest
    ensures more == log + OutputRules(strict) && Logged(b, more)
  {
    hide Logged, Rule, PortsOut, AnyState, Meta, Cmp, IfName, Count0, Verdict;
    if !strict {
      more := RuleCount(b, log, "output", "sent");
      return;
    }
    more := RuleEstablished(b, log, "output");
    more := RuleLoopback(b, more, "output", 7);
    more := BuildPortsOut(b, more);
    more := RuleProto(b, more, "output", "icmpv6", ICMP6);
    more := RuleProto(b, more, "output", "ping out", ICMP);
    more := RuleCount(b, more, "output", "blocked");
    assert more == log + OutputRules(strict);
  }

  method BuildChains(b: Batch, strict: bool, replacing: bool) returns (ghost more: seq<Msg>)
    requires Logged(b, [])
    modifies b, b.buf, b.nest
    ensures more == Chains(strict, replacing) && Logged(b, more)
  {
    hide Logged, Chain, Table;
    more := MEmpty(b, [], 16);
    if replacing { more := MTable(b, more, 2, 0); }
    more := MTable(b, more, 0, CREATE);
    more := MChain(b, more, "input", 1, DROP);
    more := MChain(b, more, "forward", 2, DROP);
    more := MChain(b, more, "output", 3, if strict then DROP else ACCEPT);
    assert more == Chains(strict, replacing);
  }

  /** Builds all that turning the firewall on sends. Whatever the configuration asks for, nothing
      is nested too deep and nothing written behind the end of the sink. The answer that is waited
      for is the one to the message before the last. */
  method Build(strict: bool, replacing: bool, extra: seq<Extra>) returns (b: Batch, ackSeq: nat)
    ensures fresh(b) && Logged(b, Ruleset(strict, replacing, extra))
    ensures ackSeq == (|Ruleset(strict, replacing, extra)| - 1) % U32
  {
    hide Logged, Rule, Chains, InputRules, OutputRules;
    b := NewBatch();
    ghost var log := BuildChains(b, strict, replacing);
    log := BuildInput(b, log, extra);
    log := RuleCount(b, log, "forward", "forwarded");
    log := BuildOutput(b, log, strict);
    ackSeq := LastNumber(b, log);
    log := MEmpty(b, log, 17);
  }

  method LastNumber(b: Batch, ghost log: seq<Msg>) returns (n: nat)
    requires Logged(b, log)
    ensures n == |log| % U32
  {
    n := b.seqNo;
  }

  /** What is sent to turn the firewall on: the whole ruleset, or nothing at all exactly when it
      is longer than a batch. */
  method Apply(strict: bool, replacing: bool, extra: seq<Extra>) returns (sent: Option<seq<Byte>>, ackSeq: nat)
    ensures var all := Bytes(Ruleset(strict, replacing, extra));
      sent == if |all| > BATCH_MAX then None else Some(all)
    ensures ackSeq == (|Ruleset(strict, replacing, extra)| - 1) % U32
  {
    hide Ruleset, Bytes;
    var b;
    b, ackSeq := Build(strict, replacing, extra);
    assert b.All() == b.done;
    if b.overflow { return None, ackSeq; }
    sent := Some(b.buf[..b.len]);
  }

  /** The sink takes whatever the program puts: no caller puts more at once. Longer data would
      be written behind its end. */
  method Stray() returns (b: Batch)
    ensures fresh(b) && b.strayed
  {
    b := new Batch();
    b.MsgBegin(0, 0, 0, 0);
    b.AttrPut(0, Zeros(BATCH_MAX));
  }

  method NewBatch() returns (b: Batch)
    ensures fresh(b) && fresh(b.buf) && fresh(b.nest) && Logged(b, [])
  {
    b := new Batch();
    EmptyBatch(b);
  }

  lemma EmptyBatch(b: Batch)
    requires b.frames == [] && b.All() == []
    ensures b.done == []
  {
    assert b.done + [] == b.done;
  }
}
