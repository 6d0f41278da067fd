/** Which packets the ruleset lets through: its rules are evaluated expression by expression on a
    packet, as the kernel documents them. */
module NetlinkPolicy {
  import opened Optional
  import opened Octets
  import opened NetlinkFormat
  import opened NetlinkBatch
  import opened NetlinkRules

  /** What the expressions look at: the protocol, the interface names as the kernel keeps them, the
      transport header, and the bits that say what is known of the connection. */
  datatype Packet = Packet(proto: Byte, inName: seq<Byte>, outName: seq<Byte>, transport: seq<Byte>, state: nat)

  /** What an expression does: it goes on with something in the register, ends the rule without a verdict,
      or gives one. */
  datatype Step = On(reg: seq<Byte>) | Break | Say(code: nat)

  /** Whether a packet is under a limit of so many in so many seconds, and so many at once. */
  type Rates = (nat, nat, nat) -> bool

  // ── Evaluation ─────────────────────────────────────────────────────

  /** A number that an expression carries. */
  function Param(kids: seq<Attr>, kind: nat): Option<nat> {
    var a := First(kids, kind);
    if a.Some? && a.value.Leaf? then Some(BeValue(a.value.data)) else None
  }

  /** The bytes that an expression carries in a nest of their own. */
  function Carried(kids: seq<Attr>, kind: nat): Option<seq<Byte>> {
    var a := First(kids, kind);
    if a.Some? && a.value.Nest? then
      var b := First(a.value.kids, 1);
      if b.Some? && b.value.Leaf? then Some(b.value.data) else None
    else None
  }

  /** The register's first bytes, zeros behind what was loaded. */
  function Front(reg: seq<Byte>, n: nat): (s: seq<Byte>)
    ensures |s| == n
  {
    if n <= |reg| then reg[..n] else reg + Zeros(n - |reg|)
  }

  /** The bits set in both of two numbers of so many bits. */
  function AndBits(a: nat, b: nat, n: nat): nat {
    if n == 0 then 0 else 2 * AndBits(a / 2, b / 2, n - 1) + (if a % 2 == 1 && b % 2 == 1 then 1 else 0)
  }

  function AndBytes(s: seq<Byte>, mask: seq<Byte>): (r: seq<Byte>)
    requires |s| == |mask|
    ensures |r| == |s|
  {
    seq(|s|, i requires 0 <= i < |s| => (AndBits(s[i] as nat, mask[i] as nat, 8) % 256) as Byte)
  }

  function Loaded(key: Option<nat>, p: Packet): Step {
    if key == Some(16) then On([p.proto])
    else if key == Some(6) then On(p.inName)
    else if key == Some(7) then On(p.outName)
    else Break
  }

  /** Bytes of the transport header, if the packet has that many. */
  function Cut(kids: seq<Attr>, p: Packet): Step {
    var (base, off, len) := (Param(kids, 2), Param(kids, 3), Param(kids, 4));
    if base == Some(2) && off.Some? && len.Some? && off.value + len.value <= |p.transport|
    then On(p.transport[off.value..off.value + len.value])
    else Break
  }

  function Masked(kids: seq<Attr>, reg: seq<Byte>): Step {
    var mask := Carried(kids, 4);
    if mask.Some? then On(AndBytes(Front(reg, |mask.value|), mask.value)) else Break
  }

  function Compared(kids: seq<Attr>, reg: seq<Byte>): Step {
    var (op, data) := (Param(kids, 2), Carried(kids, 3));
    if op.Some? && op.value <= 1 && data.Some? && (op.value == 0 <==> Front(reg, |data.value|) == data.value)
    then On(reg)
    else Break
  }

  function Held(kids: seq<Attr>, reg: seq<Byte>, under: Rates): Step {
    var (rate, secs, burst) := (Param(kids, 1), Param(kids, 2), Param(kids, 3));
    if rate.Some? && secs.Some? && burst.Some? && under(rate.value, secs.value, burst.value) then On(reg) else Break
  }

  /** The verdict in its two nests. */
  function Told(kids: seq<Attr>): Step {
    var a := First(kids, 2);
    if a.Some? && a.value.Nest? then
      var b := First(a.value.kids, 2);
      if b.Some? && b.value.Nest? && Param(b.value.kids, 1).Some? then Say(Param(b.value.kids, 1).value) else Break
    else Break
  }

  function EvalNamed(name: seq<Byte>, kids: seq<Attr>, reg: seq<Byte>, p: Packet, under: Rates): Step {
    if name == Ascii("meta") + [0] then Loaded(Param(kids, 2), p)
    else if name == Ascii("payload") + [0] then Cut(kids, p)
    else if name == Ascii("ct") + [0] then if Param(kids, 2) == Some(0) then On(Le4(p.state)) else Break
    else if name == Ascii("bitwise") + [0] then Masked(kids, reg)
    else if name == Ascii("cmp") + [0] then Compared(kids, reg)
    else if name == Ascii("limit") + [0] then Held(kids, reg, under)
    else if name == Ascii("counter") + [0] then On(reg)
    else if name == Ascii("immediate") + [0] then Told(kids)
    else Break
  }

  /** One expression by its name. */
  function Eval1(e: Attr, reg: seq<Byte>, p: Packet, under: Rates): Step {
    if !e.Nest? then Break
    else
      var name, data := First(e.kids, EXPR_NAME), First(e.kids, EXPR_DATA);
      if name.None? || !name.value.Leaf? || data.None? || !data.value.Nest? then Break
      else EvalNamed(name.value.data, data.value.kids, reg, p, under)
  }

  /** A rule's expressions one after the other: its verdict, if it comes to one. */
  function Eval(exprs: seq<Attr>, reg: seq<Byte>, p: Packet, under: Rates): Option<nat> {
    if exprs == [] then None
    else
      match Eval1(exprs[0], reg, p, under)
      case On(r) => Eval(exprs[1..], r, p, under)
      case Break => None
      case Say(code) => Some(code)
  }

  /** Whether a message is about a chain of the table, which stands under that type in it. */
  predicate About(m: Msg, kind: nat, chain: string) {
    First(m.body, 1) == Some(Text(1, "lpzero")) && First(m.body, kind) == Some(Text(kind, chain))
  }

  /** What the rule in a message says of a packet, if it is a rule of that chain. */
  function Says(m: Msg, chain: string, p: Packet, under: Rates): Option<nat> {
    var exprs := First(m.body, 4);
    if m.kind == RULE_KIND && About(m, 2, chain) && exprs.Some? && exprs.value.Nest?
    then Eval(exprs.value.kids, [], p, under)
    else None
  }

  /** The first rule of a chain that comes to a verdict decides. */
  function Decided(log: seq<Msg>, chain: string, p: Packet, under: Rates): Option<nat> {
    if log == [] then None
    else
      var v := Says(log[0], chain, p, under);
      if v.Some? then v else Decided(log[1..], chain, p, under)
  }

  /** The policy of a chain, if a message gives it one at that hook. */
  function PolicyOf(m: Msg, chain: string, hook: nat): Option<nat> {
    var at := First(m.body, 4);
    if m.kind == SUBSYS * 256 + 3 && About(m, 3, chain) && at.Some? && at.value.Nest? &&
       Param(at.value.kids, 1) == Some(hook)
    then Param(m.body, 5)
    else None
  }

  function Policy(log: seq<Msg>, chain: string, hook: nat): Option<nat> {
    if log == [] then None
    else
      var v := PolicyOf(log[0], chain, hook);
      if v.Some? then v else Policy(log[1..], chain, hook)
  }

  /** What happens to a packet at a hook: what the rules of the chain there decide, or else its policy.
      Nothing happens where there is no such chain. */
  function Fate(log: seq<Msg>, chain: string, hook: nat, p: Packet, under: Rates): Option<nat> {
    var v := Decided(log, chain, p, under);
    if Policy(log, chain, hook).None? then None else if v.Some? then v else Policy(log, chain, hook)
  }

  // ── What is meant to be let through ────────────────────────────────

  /** A packet to a port: the number stands in bytes 2 and 3 of the transport header. */
  predicate To(p: Packet, proto: Byte, port: nat) {
    p.proto == proto && |p.transport| >= 4 && p.transport[2] as nat * 256 + p.transport[3] as nat == port
  }

  /** The name of the loopback interface, with nothing but zeros behind it. */
  predicate IsLo(name: seq<Byte>) {
    |name| >= 2 && name[0] == 108 && name[1] == 111 && forall i :: 2 <= i < 16 && i < |name| ==> name[i] == 0
  }

  /** Established or related. */
  predicate Known(p: Packet) { p.state / 2 % 2 == 1 || p.state / 4 % 2 == 1 }

  predicate Begun(p: Packet) { p.state / 8 % 2 == 1 }

  /** What comes in. */
  predicate LetIn(extra: seq<Extra>, p: Packet, under: Rates) {
    || Known(p)
    || IsLo(p.inName)
    || To(p, TCP, 22)
    || p.proto == ICMP6
    || (p.proto == ICMP && under(20, 1, 50))
    || To(p, UDP, 68)
    || exists e <- extra :: To(p, e.proto, e.port)
  }

  /** What goes out in strict mode. */
  predicate LetOut(p: Packet) {
    || Known(p)
    || IsLo(p.outName)
    || To(p, UDP, 53) || To(p, TCP, 53)
    || To(p, UDP, 67)
    || To(p, UDP, 123)
    || To(p, TCP, 80) || To(p, TCP, 443)
    || To(p, TCP, 22)
    || p.proto == ICMP6
    || p.proto == ICMP
  }

  // ── Expressions ────────────────────────────────────────────────────

  lemma ExprEvals(name: string, kids: seq<Attr>, reg: seq<Byte>, p: Packet, under: Rates)
    ensures Eval1(ExprOf(name, kids), reg, p, under) == EvalNamed(Ascii(name) + [0], kids, reg, p, under)
  {
    hide EvalNamed, Ascii;
    FirstOfTwo(Text(EXPR_NAME, name), Nest(EXPR_DATA, kids));
  }

  lemma WordReads(v: nat)
    requires v < U32
    ensures BeValue(BeBytes(v, 4)) == v
  {
    assert Shift(v, 1) < 0x100_0000;
    assert Shift(v, 2) < 0x1_0000;
    assert Shift(v, 3) < 0x100;
    BeReads(v, 4);
  }

  /** Two names of different length, or with different first letters. */
  lemma Differ(a: string, b: string)
    requires |a| != |b| || (a != [] && a[0] as int % 256 != b[0] as int % 256)
    ensures Ascii(a) + [0] != Ascii(b) + [0]
  {
    if |a| == |b| { assert (Ascii(a) + [0])[0] != (Ascii(b) + [0])[0]; }
  }

  lemma NamesDiffer()
    ensures var (m, y, c, b, q, l, n, i) := (Ascii("meta") + [0], Ascii("payload") + [0], Ascii("ct") + [0],
        Ascii("bitwise") + [0], Ascii("cmp") + [0], Ascii("limit") + [0], Ascii("counter") + [0],
        Ascii("immediate") + [0]);
      && |m| == 5 && |y| == 8 && |c| == 3 && |b| == 8 && |q| == 4 && |l| == 6 && |n| == 8 && |i| == 10
      && y != b && y != n && b != n
  {
    Differ("payload", "bitwise");
    Differ("payload", "counter");
    Differ("bitwise", "counter");
  }

  lemma Named(kids: seq<Attr>, reg: seq<Byte>, p: Packet, under: Rates)
    ensures EvalNamed(Ascii("payload") + [0], kids, reg, p, under) == Cut(kids, p)
    ensures EvalNamed(Ascii("ct") + [0], kids, reg, p, under) ==
      if Param(kids, 2) == Some(0) then On(Le4(p.state)) else Break
    ensures EvalNamed(Ascii("bitwise") + [0], kids, reg, p, under) == Masked(kids, reg)
    ensures EvalNamed(Ascii("cmp") + [0], kids, reg, p, under) == Compared(kids, reg)
    ensures EvalNamed(Ascii("limit") + [0], kids, reg, p, under) == Held(kids, reg, under)
    ensures EvalNamed(Ascii("counter") + [0], kids, reg, p, under) == On(reg)
    ensures EvalNamed(Ascii("immediate") + [0], kids, reg, p, under) == Told(kids)
  {
    hide Ascii, Param, Cut, Masked, Compared, Held, Told, Le4;
    NamesDiffer();
  }

  lemma WordAt(s: seq<Attr>, i: nat, kind: nat, v: nat)
    requires i < |s| && kind < 0x4000 && v < U32 && s[i] == Word(kind, v)
    requires forall j | 0 <= j < i :: WireKind(s[j]) % 0x4000 != kind
    ensures Param(s, kind) == Some(v)
  {
    hide BeBytes, BeValue;
    FirstAt(s, i, kind);
    WordReads(v);
  }

  lemma {:induction false} FirstAt(s: seq<Attr>, i: nat, want: nat)
    requires i < |s| && WireKind(s[i]) % 0x4000 == want
    requires forall j | 0 <= j < i :: WireKind(s[j]) % 0x4000 != want
    ensures First(s, want) == Some(s[i])
  {
    if i > 0 { FirstAt(s[1..], i - 1, want); }
  }

  lemma CarriedAt(s: seq<Attr>, i: nat, kind: nat, data: seq<Byte>)
    requires i < |s| && kind < 0x4000 && s[i] == Nest(kind, [Leaf(1, data)])
    requires forall j | 0 <= j < i :: WireKind(s[j]) % 0x4000 != kind
    ensures Carried(s, kind) == Some(data)
  {
    FirstAt(s, i, kind);
    FirstAt([Leaf(1, data)], 0, 1);
  }

  lemma MetaEvals(key: nat, reg: seq<Byte>, p: Packet, under: Rates)
    requires key < U32
    ensures Eval1(Meta(key), reg, p, under) == Loaded(Some(key), p)
  {
    hide Eval1, ExprOf, Param, Ascii, BeBytes, First, Loaded;
    var kids := [Word(2, key), Word(1, 1)];
    ExprEvals("meta", kids, reg, p, under);
    WordAt(kids, 0, 2, key);
  }

  lemma PortCut(kids: seq<Attr>, p: Packet)
    requires Param(kids, 2) == Some(2) && Param(kids, 3) == Some(2) && Param(kids, 4) == Some(2)
    ensures Cut(kids, p) == if |p.transport| >= 4 then On([p.transport[2], p.transport[3]]) else Break
  {
    hide Param;
    if |p.transport| >= 4 { assert p.transport[2..4] == [p.transport[2], p.transport[3]]; }
  }

  lemma PortPlace(kids: seq<Attr>)
    requires kids == [Word(1, 1), Word(2, 2), Word(3, 2), Word(4, 2)]
    ensures Param(kids, 2) == Some(2) && Param(kids, 3) == Some(2) && Param(kids, 4) == Some(2)
  {
    hide Param, BeBytes, First;
    WordAt(kids, 1, 2, 2);
    WordAt(kids, 2, 3, 2);
    WordAt(kids, 3, 4, 2);
  }

  lemma PayloadEvals(reg: seq<Byte>, p: Packet, under: Rates)
    ensures Eval1(PayloadOf(2, 2, 2), reg, p, under) ==
      if |p.transport| >= 4 then On([p.transport[2], p.transport[3]]) else Break
  {
    hide Param, Ascii, Word, First, EvalNamed, Eval1, Cut, ExprOf;
    var kids := [Word(1, 1), Word(2, 2), Word(3, 2), Word(4, 2)];
    ExprEvals("payload", kids, reg, p, under);
    Named(kids, reg, p, under);
    PortPlace(kids);
    PortCut(kids, p);
  }

  lemma CmpEvals(op: nat, data: seq<Byte>, reg: seq<Byte>, p: Packet, under: Rates)
    requires op <= 1
    ensures Eval1(Cmp(op, data), reg, p, under) ==
      if op == 0 <==> Front(reg, |data|) == data then On(reg) else Break
  {
    hide Eval1, ExprOf, Param, Ascii, Front, BeBytes, First, EvalNamed;
    var kids := [Word(1, 1), Word(2, op), Nest(3, [Leaf(1, data)])];
    ExprEvals("cmp", kids, reg, p, under);
    Named(kids, reg, p, under);
    WordAt(kids, 1, 2, op);
    CarriedAt(kids, 2, 3, data);
  }

  lemma CtEvals(reg: seq<Byte>, p: Packet, under: Rates)
    ensures Eval1(CtState(), reg, p, under) == On(Le4(p.state))
  {
    hide Eval1, ExprOf, Param, Ascii, BeBytes, First, EvalNamed, Le4;
    var kids := [Word(2, 0), Word(1, 1)];
    ExprEvals("ct", kids, reg, p, under);
    Named(kids, reg, p, under);
    WordAt(kids, 0, 2, 0);
  }

  lemma MaskEvals(mask: nat, reg: seq<Byte>, p: Packet, under: Rates)
    ensures Eval1(Mask(mask), reg, p, under) == On(AndBytes(Front(reg, 4), Le4(mask)))
  {
    hide Eval1, ExprOf, Param, Ascii, BeBytes, First, EvalNamed, AndBytes, Front;
    var kids := [Word(1, 1), Word(2, 1), Word(3, 4), Nest(4, [Leaf(1, Le4(mask))]), Nest(5, [Leaf(1, Le4(0))])];
    ExprEvals("bitwise", kids, reg, p, under);
    Named(kids, reg, p, under);
    CarriedAt(kids, 3, 4, Le4(mask));
  }

  lemma LongAt(s: seq<Attr>, i: nat, kind: nat, v: nat)
    requires i < |s| && kind < 0x4000 && v < 256 && s[i] == Leaf(kind, BeBytes(v, 8))
    requires forall j | 0 <= j < i :: WireKind(s[j]) % 0x4000 != kind
    ensures Param(s, kind) == Some(v)
  {
    hide BeBytes, BeValue;
    FirstAt(s, i, kind);
    SmallReads(v);
  }

  lemma SmallReads(v: nat)
    requires v < 256
    ensures BeValue(BeBytes(v, 8)) == v
  {
    assert Shift(v, 1) == 0;
    assert Shift(v, 2) == 0 && Shift(v, 3) == 0 && Shift(v, 4) == 0 && Shift(v, 5) == 0;
    assert Shift(v, 6) == 0 && Shift(v, 7) == 0;
    BeReads(v, 8);
  }

  lemma LimitNumbers(rate: nat, secs: nat, burst: nat, kids: seq<Attr>)
    requires rate < 256 && secs < 256 && burst < U32
    requires kids == [Leaf(1, BeBytes(rate, 8)), Leaf(2, BeBytes(secs, 8)), Word(3, burst), Word(4, 0)]
    ensures Param(kids, 1) == Some(rate) && Param(kids, 2) == Some(secs) && Param(kids, 3) == Some(burst)
  {
    hide Param, BeBytes, First;
    LongAt(kids, 0, 1, rate);
    LongAt(kids, 1, 2, secs);
    WordAt(kids, 2, 3, burst);
  }

  lemma LimitEvals(rate: nat, secs: nat, burst: nat, reg: seq<Byte>, p: Packet, under: Rates)
    requires rate < 256 && secs < 256 && burst < U32
    ensures Eval1(Limit(rate, secs, burst), reg, p, under) == if under(rate, secs, burst) then On(reg) else Break
  {
    hide Eval1, ExprOf, Param, Ascii, BeBytes, Word, First, EvalNamed;
    var kids := [Leaf(1, BeBytes(rate, 8)), Leaf(2, BeBytes(secs, 8)), Word(3, burst), Word(4, 0)];
    ExprEvals("limit", kids, reg, p, under);
    Named(kids, reg, p, under);
    LimitNumbers(rate, secs, burst, kids);
  }

  lemma CountEvals(reg: seq<Byte>, p: Packet, under: Rates)
    ensures Eval1(Count0(), reg, p, under) == On(reg)
  {
    hide BeBytes, EvalNamed;
    var kids := [Leaf(COUNTER_BYTES, BeBytes(0, 8)), Leaf(COUNTER_PACKETS, BeBytes(0, 8))];
    assert Ascii("counter") + [0] == COUNTER;
    FirstOfTwo(Leaf(EXPR_NAME, COUNTER), Nest(EXPR_DATA, kids));
    Named(kids, reg, p, under);
  }

  lemma CodeTold(code: nat, kids: seq<Attr>)
    requires code < U32 && kids == [Word(1, 0), Nest(2, [Nest(2, [Word(1, code)])])]
    ensures Told(kids) == Say(code)
  {
    hide Param, BeBytes, First;
    FirstAt(kids, 1, 2);
    FirstAt([Nest(2, [Word(1, code)])], 0, 2);
    WordAt([Word(1, code)], 0, 1, code);
  }

  lemma VerdictEvals(code: nat, reg: seq<Byte>, p: Packet, under: Rates)
    requires code < U32
    ensures Eval1(Verdict(code), reg, p, under) == Say(code)
  {
    hide Eval1, ExprOf, Told, Ascii, Word, First, EvalNamed;
    var kids := [Word(1, 0), Nest(2, [Nest(2, [Word(1, code)])])];
    ExprEvals("immediate", kids, reg, p, under);
    Named(kids, reg, p, under);
    CodeTold(code, kids);
  }

  // ── Expressions in a row ───────────────────────────────────────────

  lemma EvalStep(e: Attr, rest: seq<Attr>, reg: seq<Byte>, p: Packet, under: Rates)
    ensures var s := Eval1(e, reg, p, under);
      Eval([e] + rest, reg, p, under) ==
        if s.On? then Eval(rest, s.reg, p, under) else if s.Say? then Some(s.code) else None
  {
    hide Eval1;
    assert ([e] + rest)[1..] == rest;
  }

  /** Counts, and accepts whatever comes so far. */
  lemma Accepts(reg: seq<Byte>, p: Packet, under: Rates)
    ensures Eval([Count0(), Verdict(ACCEPT)], reg, p, under) == Some(ACCEPT)
  {
    hide Eval1, Count0, Verdict;
    CountEvals(reg, p, under);
    VerdictEvals(ACCEPT, reg, p, under);
    EvalStep(Count0(), [Verdict(ACCEPT)], reg, p, under);
    EvalStep(Verdict(ACCEPT), [], reg, p, under);
    assert [Count0()] + [Verdict(ACCEPT)] == [Count0(), Verdict(ACCEPT)];
    assert [Verdict(ACCEPT)] + [] == [Verdict(ACCEPT)];
  }

  lemma OnlyCounts(p: Packet, under: Rates)
    ensures Eval([Count0()], [], p, under) == None
  {
    hide Eval1, Count0;
    CountEvals([], p, under);
  }

  lemma FrontIs(s: seq<Byte>)
    ensures Front(s, |s|) == s
  {
  }

  lemma ProtoThen(proto: Byte, rest: seq<Attr>, reg: seq<Byte>, p: Packet, under: Rates)
    ensures Eval([Meta(16), Cmp(0, [proto])] + rest, reg, p, under) ==
      if p.proto == proto then Eval(rest, [p.proto], p, under) else None
  {
    hide Eval1, Eval, Meta, Cmp, Front;
    FrontIs([p.proto]);
    assert [p.proto] == [proto] <==> p.proto == proto;
    MetaEvals(16, reg, p, under);
    CmpEvals(0, [proto], [p.proto], p, under);
    EvalStep(Meta(16), [Cmp(0, [proto])] + rest, reg, p, under);
    EvalStep(Cmp(0, [proto]), rest, [p.proto], p, under);
    assert [Meta(16)] + ([Cmp(0, [proto])] + rest) == [Meta(16), Cmp(0, [proto])] + rest;
  }

  lemma PortReads(port: nat, a: Byte, b: Byte)
    requires port < 0x1_0000
    ensures [a, b] == BeBytes(port, 2) <==> a as nat * 256 + b as nat == port
  {
    var high := BeBytes(port / 256, 1);
    assert BeBytes(port / 256 / 256, 0) == [];
    assert high == [(port / 256) as Byte];
    assert BeBytes(port, 2) == [(port / 256) as Byte, (port % 256) as Byte];
    TwoDigits(port, a as nat, b as nat);
  }

  lemma TwoDigits(n: nat, a: nat, b: nat)
    requires b < 256
    ensures n / 256 == a && n % 256 == b <==> a * 256 + b == n
  {
  }

  lemma PortThen(port: nat, rest: seq<Attr>, reg: seq<Byte>, p: Packet, under: Rates)
    requires port < 0x1_0000
    ensures Eval([PayloadOf(2, 2, 2), Cmp(0, BeBytes(port, 2))] + rest, reg, p, under) ==
      if |p.transport| >= 4 && p.transport[2] as nat * 256 + p.transport[3] as nat == port
      then Eval(rest, [p.transport[2], p.transport[3]], p, under) else None
  {
    hide Eval1, Eval, PayloadOf, Cmp, Front, BeBytes;
    PayloadEvals(reg, p, under);
    EvalStep(PayloadOf(2, 2, 2), [Cmp(0, BeBytes(port, 2))] + rest, reg, p, under);
    assert [PayloadOf(2, 2, 2)] + ([Cmp(0, BeBytes(port, 2))] + rest) ==
      [PayloadOf(2, 2, 2), Cmp(0, BeBytes(port, 2))] + rest;
    if |p.transport| >= 4 {
      var at := [p.transport[2], p.transport[3]];
      FrontIs(at);
      PortReads(port, at[0], at[1]);
      CmpEvals(0, BeBytes(port, 2), at, p, under);
      EvalStep(Cmp(0, BeBytes(port, 2)), rest, at, p, under);
    }
  }

  lemma LoThen(key: nat, rest: seq<Attr>, reg: seq<Byte>, p: Packet, under: Rates)
    requires key == 6 || key == 7
    ensures var name := if key == 6 then p.inName else p.outName;
      Eval([Meta(key), Cmp(0, IfName("lo"))] + rest, reg, p, under) ==
        if IsLo(name) then Eval(rest, name, p, under) else None
  {
    hide Eval1, Eval, Meta, Cmp, Front, IfName, IsLo;
    var name := if key == 6 then p.inName else p.outName;
    LoReads(name);
    MetaEvals(key, reg, p, under);
    CmpEvals(0, IfName("lo"), name, p, under);
    EvalStep(Meta(key), [Cmp(0, IfName("lo"))] + rest, reg, p, under);
    EvalStep(Cmp(0, IfName("lo")), rest, name, p, under);
    assert [Meta(key)] + ([Cmp(0, IfName("lo"))] + rest) == [Meta(key), Cmp(0, IfName("lo"))] + rest;
  }

  lemma LoReads(name: seq<Byte>)
    ensures Front(name, 16) == IfName("lo") <==> IsLo(name)
  {
    var (f, lo) := (Front(name, 16), IfName("lo"));
    assert lo[0] == 108 && lo[1] == 111 && forall i | 2 <= i < 16 :: lo[i] == 0;
    assert forall i | 0 <= i < 16 :: f[i] == if i < |name| then name[i] else 0;
    if IsLo(name) {
      assert f == lo;
    } else if f == lo {
      assert f[0] == 108 && f[1] == 111;
      assert forall i | 2 <= i < 16 :: f[i] == 0;
      assert false;
    }
  }

  // ── Bits of the state ──────────────────────────────────────────────

  lemma {:induction false} NoBits(a: nat, n: nat)
    ensures AndBits(a, 0, n) == 0
  {
    if n > 0 { NoBits(a / 2, n - 1); }
  }

  lemma KnownBits(a: nat)
    ensures AndBits(a, 6, 8) != 0 <==> a / 2 % 2 == 1 || a / 4 % 2 == 1
    ensures AndBits(a, 6, 8) <= 6
  {
    assert AndBits(a, 6, 8) == 2 * AndBits(a / 2, 3, 7);
    assert AndBits(a / 2, 3, 7) == 2 * AndBits(a / 2 / 2, 1, 6) + (if a / 2 % 2 == 1 then 1 else 0);
    assert AndBits(a / 2 / 2, 1, 6) == 2 * AndBits(a / 2 / 2 / 2, 0, 5) + (if a / 2 / 2 % 2 == 1 then 1 else 0);
    NoBits(a / 2 / 2 / 2, 5);
    assert a / 2 / 2 == a / 4;
  }

  lemma BegunBits(a: nat)
    ensures AndBits(a, 8, 8) == if a / 8 % 2 == 1 then 8 else 0
  {
    assert AndBits(a, 8, 8) == 2 * AndBits(a / 2, 4, 7);
    assert AndBits(a / 2, 4, 7) == 2 * AndBits(a / 2 / 2, 2, 6);
    assert AndBits(a / 2 / 2, 2, 6) == 2 * AndBits(a / 2 / 2 / 2, 1, 5);
    var b := a / 2 / 2 / 2;
    assert AndBits(b, 1, 5) == 2 * AndBits(b / 2, 0, 4) + (if b % 2 == 1 then 1 else 0);
    NoBits(b / 2, 4);
    assert b == a / 8;
  }

  lemma MaskedFirst(a: seq<Byte>, b: seq<Byte>)
    requires |a| == 4 && |b| == 4 && b[1] == 0 && b[2] == 0 && b[3] == 0
    ensures AndBytes(a, b) == Le4(0) <==> AndBits(a[0] as nat, b[0] as nat, 8) % 256 == 0
  {
    hide AndBits;
    NoBits(a[1] as nat, 8);
    NoBits(a[2] as nat, 8);
    NoBits(a[3] as nat, 8);
    var r := AndBytes(a, b);
    assert r[1] == 0 && r[2] == 0 && r[3] == 0;
    assert r[0] as nat == AndBits(a[0] as nat, b[0] as nat, 8) % 256;
    var none := Le4(0);
    assert none[0] == 0 && none[1] == 0 && none[2] == 0 && none[3] == 0;
    if r[0] == 0 { assert r == none; }
  }

  lemma LowByte(v: nat)
    ensures Le4(v)[0] as nat == v % 256
    ensures v < 256 ==> Le4(v) == [v as Byte, 0, 0, 0]
  {
  }

  lemma Halves(v: nat, q: nat, r: nat)
    requires v == 256 * q + r
    ensures v / 2 == 2 * (64 * q) + r / 2
    ensures v / 4 == 2 * (32 * q) + r / 4
    ensures v / 8 == 2 * (16 * q) + r / 8
  {
  }

  lemma SameParity(a: nat, b: nat)
    ensures (2 * a + b) % 2 == b % 2
  {
  }

  lemma LowBits(v: nat)
    ensures v % 256 / 2 % 2 == v / 2 % 2
    ensures v % 256 / 4 % 2 == v / 4 % 2
    ensures v % 256 / 8 % 2 == v / 8 % 2
  {
    var (q, r) := (v / 256, v % 256);
    Halves(v, q, r);
    SameParity(64 * q, r / 2);
    SameParity(32 * q, r / 4);
    SameParity(16 * q, r / 8);
  }

  lemma StateBits(bits: nat, p: Packet)
    requires bits == ESTABLISHED + RELATED || bits == NEW
    ensures AndBytes(Le4(p.state), Le4(bits)) != Le4(0) <==> if bits == NEW then Begun(p) else Known(p)
  {
    hide AndBits, AndBytes, Le4;
    LowByte(p.state);
    LowByte(bits);
    MaskedFirst(Le4(p.state), Le4(bits));
    KnownBits(p.state % 256);
    BegunBits(p.state % 256);
    LowBits(p.state);
  }

  lemma StateThen(bits: nat, rest: seq<Attr>, reg: seq<Byte>, p: Packet, under: Rates)
    requires bits == ESTABLISHED + RELATED || bits == NEW
    ensures Eval(AnyState(bits) + rest, reg, p, under) ==
      if (if bits == NEW then Begun(p) else Known(p))
      then Eval(rest, AndBytes(Le4(p.state), Le4(bits)), p, under) else None
  {
    hide Eval1, Eval, CtState, Mask, Cmp, Front, Le4, AndBytes, Begun, Known;
    var (state, masked) := (Le4(p.state), AndBytes(Le4(p.state), Le4(bits)));
    CtEvals(reg, p, under);
    FrontIs(state);
    MaskEvals(bits, state, p, under);
    FrontIs(masked);
    CmpEvals(1, Le4(0), masked, p, under);
    StateBits(bits, p);
    EvalStep(CtState(), [Mask(bits), Cmp(1, Le4(0))] + rest, reg, p, under);
    EvalStep(Mask(bits), [Cmp(1, Le4(0))] + rest, state, p, under);
    EvalStep(Cmp(1, Le4(0)), rest, masked, p, under);
    assert [CtState()] + ([Mask(bits), Cmp(1, Le4(0))] + rest) == AnyState(bits) + rest;
    assert [Mask(bits)] + ([Cmp(1, Le4(0))] + rest) == [Mask(bits), Cmp(1, Le4(0))] + rest;
  }

  // ── Rules ──────────────────────────────────────────────────────────

  lemma PortSays(proto: Byte, port: nat, p: Packet, under: Rates)
    requires port < 0x1_0000
    ensures Eval([Meta(16), Cmp(0, [proto]), PayloadOf(2, 2, 2), Cmp(0, BeBytes(port, 2)), Count0(), Verdict(ACCEPT)],
      [], p, under) == if To(p, proto, port) then Some(ACCEPT) else None
  {
    hide Eval, Meta, Cmp, PayloadOf, BeBytes, Count0, Verdict;
    var rest := [PayloadOf(2, 2, 2), Cmp(0, BeBytes(port, 2))] + [Count0(), Verdict(ACCEPT)];
    ProtoThen(proto, rest, [], p, under);
    PortThen(port, [Count0(), Verdict(ACCEPT)], [p.proto], p, under);
    if |p.transport| >= 4 { Accepts([p.transport[2], p.transport[3]], p, under); }
    assert [Meta(16), Cmp(0, [proto])] + rest ==
      [Meta(16), Cmp(0, [proto]), PayloadOf(2, 2, 2), Cmp(0, BeBytes(port, 2)), Count0(), Verdict(ACCEPT)];
  }

  lemma ProtoSays(proto: Byte, p: Packet, under: Rates)
    ensures Eval([Meta(16), Cmp(0, [proto]), Count0(), Verdict(ACCEPT)], [], p, under) ==
      if p.proto == proto then Some(ACCEPT) else None
  {
    hide Eval, Meta, Cmp, Count0, Verdict;
    ProtoThen(proto, [Count0(), Verdict(ACCEPT)], [], p, under);
    Accepts([p.proto], p, under);
    assert [Meta(16), Cmp(0, [proto])] + [Count0(), Verdict(ACCEPT)] ==
      [Meta(16), Cmp(0, [proto]), Count0(), Verdict(ACCEPT)];
  }

  lemma PingSays(p: Packet, under: Rates)
    ensures Eval([Meta(16), Cmp(0, [ICMP]), Limit(20, 1, 50), Count0(), Verdict(ACCEPT)], [], p, under) ==
      if p.proto == ICMP && under(20, 1, 50) then Some(ACCEPT) else None
  {
    hide Eval, Eval1, Meta, Cmp, Limit, Count0, Verdict;
    var rest := [Limit(20, 1, 50)] + [Count0(), Verdict(ACCEPT)];
    ProtoThen(ICMP, rest, [], p, under);
    EvalStep(Limit(20, 1, 50), [Count0(), Verdict(ACCEPT)], [p.proto], p, under);
    LimitEvals(20, 1, 50, [p.proto], p, under);
    Accepts([p.proto], p, under);
    assert [Meta(16), Cmp(0, [ICMP])] + rest ==
      [Meta(16), Cmp(0, [ICMP]), Limit(20, 1, 50), Count0(), Verdict(ACCEPT)];
  }

  lemma LoSays(key: nat, p: Packet, under: Rates)
    requires key == 6 || key == 7
    ensures Eval([Meta(key), Cmp(0, IfName("lo")), Count0(), Verdict(ACCEPT)], [], p, under) ==
      if IsLo(if key == 6 then p.inName else p.outName) then Some(ACCEPT) else None
  {
    hide Eval, Meta, Cmp, Count0, Verdict, IfName, IsLo;
    LoThen(key, [Count0(), Verdict(ACCEPT)], [], p, under);
    Accepts(if key == 6 then p.inName else p.outName, p, under);
    assert [Meta(key), Cmp(0, IfName("lo"))] + [Count0(), Verdict(ACCEPT)] ==
      [Meta(key), Cmp(0, IfName("lo")), Count0(), Verdict(ACCEPT)];
  }

  lemma KnownSays(p: Packet, under: Rates)
    ensures Eval(AnyState(ESTABLISHED + RELATED) + [Count0(), Verdict(ACCEPT)], [], p, under) ==
      if Known(p) then Some(ACCEPT) else None
  {
    hide Eval, AnyState, Count0, Verdict, Known, Le4, AndBytes;
    StateThen(ESTABLISHED + RELATED, [Count0(), Verdict(ACCEPT)], [], p, under);
    Accepts(AndBytes(Le4(p.state), Le4(ESTABLISHED + RELATED)), p, under);
  }

  lemma NewSshSays(p: Packet, under: Rates)
    ensures Eval(NewSsh(), [], p, under) ==
      if To(p, TCP, 22) && Begun(p) && under(30, 60, 30) then Some(ACCEPT) else None
  {
    hide Eval, Eval1, Meta, Cmp, PayloadOf, BeBytes, AnyState, Limit, Count0, Verdict, Begun, Known, Le4, AndBytes;
    var end := [Limit(30, 60, 30)] + [Count0(), Verdict(ACCEPT)];
    var reg := AndBytes(Le4(p.state), Le4(NEW));
    ProtoThen(TCP, [PayloadOf(2, 2, 2), Cmp(0, BeBytes(22, 2))] + (AnyState(NEW) + end), [], p, under);
    PortThen(22, AnyState(NEW) + end, [p.proto], p, under);
    if |p.transport| >= 4 { StateThen(NEW, end, [p.transport[2], p.transport[3]], p, under); }
    EvalStep(Limit(30, 60, 30), [Count0(), Verdict(ACCEPT)], reg, p, under);
    LimitEvals(30, 60, 30, reg, p, under);
    Accepts(reg, p, under);
    NewSshInParts(end);
  }

  lemma NewSshInParts(end: seq<Attr>)
    requires end == [Limit(30, 60, 30)] + [Count0(), Verdict(ACCEPT)]
    ensures [Meta(16), Cmp(0, [TCP])] + ([PayloadOf(2, 2, 2), Cmp(0, BeBytes(22, 2))] + (AnyState(NEW) + end)) ==
      NewSsh()
  {
    hide Meta, Cmp, PayloadOf, BeBytes, AnyState, Limit, Count0, Verdict;
  }

  // ── Chains ─────────────────────────────────────────────────────────

  predicate IsChain(name: string) { name == "input" || name == "forward" || name == "output" }

  lemma TextsDiffer(kind: nat, a: string, b: string)
    requires IsChain(a) && IsChain(b)
    ensures Text(kind, a) == Text(kind, b) <==> a == b
  {
    assert |Ascii(a) + [0]| == |a| + 1 && |Ascii(b) + [0]| == |b| + 1;
  }

  lemma RuleSays(chain: string, tag: string, exprs: seq<Attr>, at: string, p: Packet, under: Rates)
    requires IsChain(chain) && IsChain(at)
    ensures Says(Rule(chain, tag, exprs), at, p, under) == if chain == at then Eval(exprs, [], p, under) else None
  {
    hide Eval, Ascii, UserData, First;
    var body := Rule(chain, tag, exprs).body;
    FirstAt(body, 0, 1);
    FirstAt(body, 1, 2);
    FirstAt(body, 3, 4);
    TextsDiffer(2, chain, at);
  }

  lemma ChainPolicy(name: string, hook: nat, policy: nat, at: string, want: nat)
    requires IsChain(name) && IsChain(at) && hook < U32 && policy < U32
    ensures PolicyOf(Chain(name, hook, policy), at, want) == if name == at && hook == want then Some(policy) else None
  {
    hide Ascii, First, Param, BeBytes;
    var body := Chain(name, hook, policy).body;
    FirstAt(body, 0, 1);
    FirstAt(body, 1, 3);
    FirstAt(body, 2, 4);
    WordAt([Word(1, hook), Word(2, 0)], 0, 1, hook);
    WordAt(body, 3, 5, policy);
    TextsDiffer(3, name, at);
  }

  lemma DecidedStep(m: Msg, rest: seq<Msg>, chain: string, p: Packet, under: Rates)
    ensures var v := Says(m, chain, p, under);
      Decided([m] + rest, chain, p, under) == if v.Some? then v else Decided(rest, chain, p, under)
  {
    hide Says;
    assert ([m] + rest)[1..] == rest;
  }

  lemma {:induction false} DecidedApart(a: seq<Msg>, b: seq<Msg>, chain: string, p: Packet, under: Rates)
    ensures var v := Decided(a, chain, p, under);
      Decided(a + b, chain, p, under) == if v.Some? then v else Decided(b, chain, p, under)
  {
    hide Says;
    if a == [] {
      assert a + b == b;
    } else {
      DecidedApart(a[1..], b, chain, p, under);
      assert (a + b)[1..] == a[1..] + b;
    }
  }

  /** What the rules of one chain decide when all they can do is accept. */
  predicate Accepting(log: seq<Msg>, chain: string, p: Packet, under: Rates, yes: bool) {
    Decided(log, chain, p, under) == if yes then Some(ACCEPT) else None
  }

  lemma AcceptingEither(a: seq<Msg>, b: seq<Msg>, chain: string, p: Packet, under: Rates, yes: bool, too: bool)
    requires Accepting(a, chain, p, under, yes) && Accepting(b, chain, p, under, too)
    ensures Accepting(a + b, chain, p, under, yes || too)
  {
    hide Decided;
    DecidedApart(a, b, chain, p, under);
  }

  lemma AcceptingRule(chain: string, tag: string, exprs: seq<Attr>, at: string, p: Packet, under: Rates, yes: bool)
    requires IsChain(chain) && IsChain(at)
    requires chain == at ==> Eval(exprs, [], p, under) == if yes then Some(ACCEPT) else None
    ensures Accepting([Rule(chain, tag, exprs)], at, p, under, chain == at && yes)
  {
    hide Eval, Rule, Says;
    RuleSays(chain, tag, exprs, at, p, under);
    var m := Rule(chain, tag, exprs);
    DecidedStep(m, [], at, p, under);
    assert [m] + [] == [m];
  }

  lemma AcceptingPort(chain: string, tag: string, proto: Byte, port: nat, p: Packet, under: Rates)
    requires IsChain(chain) && port < 0x1_0000
    ensures Accepting([PortRule(chain, tag, proto, port)], chain, p, under, To(p, proto, port))
  {
    hide Eval, Rule, Accepting, Meta, Cmp, PayloadOf, BeBytes, Count0, Verdict, To;
    PortSays(proto, port, p, under);
    AcceptingRule(chain, tag,
      [Meta(16), Cmp(0, [proto]), PayloadOf(2, 2, 2), Cmp(0, BeBytes(port, 2)), Count0(), Verdict(ACCEPT)],
      chain, p, under, To(p, proto, port));
  }

  lemma StandingLetsIn(p: Packet, under: Rates)
    ensures Accepting(StandingRules(), "input", p, under,
      Known(p) || IsLo(p.inName) || To(p, TCP, 22) || p.proto == ICMP6 || (p.proto == ICMP && under(20, 1, 50)) ||
      To(p, UDP, 68))
  {
    hide Eval, Rule, PortRule, Accepting, Meta, Cmp, Limit, IfName, AnyState, Count0, Verdict, NewSsh, Known, IsLo, To;
    hide Begun;
    var known := AnyState(ESTABLISHED + RELATED) + [Count0(), Verdict(ACCEPT)];
    KnownSays(p, under);
    AcceptingRule("input", "established", known, "input", p, under, Known(p));
    var lo := [Meta(6), Cmp(0, IfName("lo")), Count0(), Verdict(ACCEPT)];
    LoSays(6, p, under);
    AcceptingRule("input", "loopback", lo, "input", p, under, IsLo(p.inName));
    var begun := To(p, TCP, 22) && Begun(p) && under(30, 60, 30);
    NewSshSays(p, under);
    AcceptingRule("input", "ssh (new, rate limited)", NewSsh(), "input", p, under, begun);
    AcceptingPort("input", "ssh (already open)", TCP, 22, p, under);
    var six := [Meta(16), Cmp(0, [ICMP6]), Count0(), Verdict(ACCEPT)];
    ProtoSays(ICMP6, p, under);
    AcceptingRule("input", "icmpv6", six, "input", p, under, p.proto == ICMP6);
    var ping := [Meta(16), Cmp(0, [ICMP]), Limit(20, 1, 50), Count0(), Verdict(ACCEPT)];
    PingSays(p, under);
    var pinged := p.proto == ICMP && under(20, 1, 50);
    AcceptingRule("input", "ping", ping, "input", p, under, pinged);
    AcceptingPort("input", "dhcp reply", UDP, 68, p, under);
    var a, b, c, d := Rule("input", "established", known), Rule("input", "loopback", lo),
      Rule("input", "ssh (new, rate limited)", NewSsh()), PortRule("input", "ssh (already open)", TCP, 22);
    var e, f, g := Rule("input", "icmpv6", six), Rule("input", "ping", ping), PortRule("input", "dhcp reply", UDP, 68);
    AcceptingEither([a], [b], "input", p, under, Known(p), IsLo(p.inName));
    AcceptingEither([c], [d], "input", p, under, begun, To(p, TCP, 22));
    AcceptingEither([a] + [b], [c] + [d], "input", p, under, Known(p) || IsLo(p.inName), begun || To(p, TCP, 22));
    AcceptingEither([e], [f], "input", p, under, p.proto == ICMP6, pinged);
    AcceptingEither([e] + [f], [g], "input", p, under, p.proto == ICMP6 || pinged, To(p, UDP, 68));
    AcceptingEither([a] + [b] + ([c] + [d]), [e] + [f] + [g], "input", p, under,
      (Known(p) || IsLo(p.inName)) || (begun || To(p, TCP, 22)), (p.proto == ICMP6 || pinged) || To(p, UDP, 68));
    assert StandingRules() == [a] + [b] + ([c] + [d]) + ([e] + [f] + [g]);
  }

  lemma {:induction false} ExtraLetsIn(extra: seq<Extra>, p: Packet, under: Rates)
    requires forall e <- extra :: e.Valid()
    ensures Accepting(ExtraRules(extra), "input", p, under, exists e <- extra :: To(p, e.proto, e.port))
  {
    hide PortRule, To, Extra.Label;
    if extra != [] {
      var (front, e) := (extra[..|extra| - 1], extra[|extra| - 1]);
      assert e in extra && e.Valid();
      ExtraLetsIn(front, p, under);
      AcceptingPort("input", e.Label(), e.proto, e.port, p, under);
      AcceptingEither(ExtraRules(front), [PortRule("input", e.Label(), e.proto, e.port)], "input", p, under,
        exists x <- front :: To(p, x.proto, x.port), To(p, e.proto, e.port));
      assert extra == front + [e];
    }
  }

  /** Where a rule stands, whatever it says. */
  predicate StandsIn(m: Msg, chain: string) { m.kind == RULE_KIND ==> First(m.body, 2) == Some(Text(2, chain)) }

  lemma RuleStands(chain: string, tag: string, exprs: seq<Attr>)
    ensures StandsIn(Rule(chain, tag, exprs), chain)
  {
    hide Ascii, UserData, First;
    FirstAt(Rule(chain, tag, exprs).body, 1, 2);
  }

  /** The rules of one chain, and what is no rule at all, decide nothing in another. */
  lemma {:induction false} Elsewhere(log: seq<Msg>, chain: string, at: string, p: Packet, under: Rates)
    requires IsChain(chain) && IsChain(at)
    requires forall m <- log :: StandsIn(m, chain) && (m.kind != RULE_KIND || chain != at)
    ensures Decided(log, at, p, under) == None
  {
    if log != [] {
      hide Eval, First, Text;
      assert log[0] in log;
      TextsDiffer(2, chain, at);
      Elsewhere(log[1..], chain, at, p, under);
    }
  }

  lemma {:induction false} ExtraStands(extra: seq<Extra>)
    ensures forall m <- ExtraRules(extra) :: StandsIn(m, "input")
  {
    if extra != [] {
      hide StandsIn, Rule, Extra.Label, Meta, Cmp, PayloadOf, BeBytes, Count0, Verdict;
      var e := extra[|extra| - 1];
      ExtraStands(extra[..|extra| - 1]);
      RuleStands("input", e.Label(),
        [Meta(16), Cmp(0, [e.proto]), PayloadOf(2, 2, 2), Cmp(0, BeBytes(e.port, 2)), Count0(), Verdict(ACCEPT)]);
    }
  }

  lemma StandingStands()
    ensures forall m <- StandingRules() :: StandsIn(m, "input")
  {
    hide StandsIn, Rule, Meta, Cmp, PayloadOf, BeBytes, IfName, AnyState, Limit, NewSsh, Count0, Verdict;
    forall tag, exprs { RuleStands("input", tag, exprs); }
  }

  lemma InputStands(extra: seq<Extra>)
    ensures forall m <- InputRules(extra) :: StandsIn(m, "input")
  {
    hide StandsIn, Rule, StandingRules, ExtraRules, Count0;
    StandingStands();
    ExtraStands(extra);
    RuleStands("input", "denied", [Count0()]);
  }

  lemma PortsStand()
    ensures forall m <- PortsOut() :: StandsIn(m, "output")
  {
    hide StandsIn, Rule, Meta, Cmp, PayloadOf, BeBytes, Count0, Verdict;
    forall tag, exprs { RuleStands("output", tag, exprs); }
  }

  lemma OutputStands(strict: bool)
    ensures forall m <- OutputRules(strict) :: StandsIn(m, "output")
  {
    hide StandsIn, Rule, PortsOut, Meta, Cmp, IfName, AnyState, Count0, Verdict;
    PortsStand();
    forall tag, exprs { RuleStands("output", tag, exprs); }
  }

  lemma InputLetsIn(extra: seq<Extra>, p: Packet, under: Rates)
    requires forall e <- extra :: e.Valid()
    ensures Accepting(InputRules(extra), "input", p, under, LetIn(extra, p, under))
  {
    hide Accepting, Rule, StandingRules, ExtraRules, Count0, Eval, Known, IsLo, To;
    var standing := Known(p) || IsLo(p.inName) || To(p, TCP, 22) || p.proto == ICMP6 ||
      (p.proto == ICMP && under(20, 1, 50)) || To(p, UDP, 68);
    var asked := exists e <- extra :: To(p, e.proto, e.port);
    StandingLetsIn(p, under);
    ExtraLetsIn(extra, p, under);
    AcceptingEither(StandingRules(), ExtraRules(extra), "input", p, under, standing, asked);
    OnlyCounts(p, under);
    AcceptingRule("input", "denied", [Count0()], "input", p, under, false);
    AcceptingEither(StandingRules() + ExtraRules(extra), [Rule("input", "denied", [Count0()])], "input", p, under,
      standing || asked, false);
  }

  lemma PortsLetOut(p: Packet, under: Rates)
    ensures Accepting(PortsOut(), "output", p, under,
      To(p, UDP, 53) || To(p, TCP, 53) || To(p, UDP, 67) || To(p, UDP, 123) || To(p, TCP, 80) || To(p, TCP, 443) ||
      To(p, TCP, 22))
  {
    hide Accepting, PortRule, To;
    var a, b, c, d := PortRule("output", "dns", UDP, 53), PortRule("output", "dns (tcp)", TCP, 53),
      PortRule("output", "dhcp", UDP, 67), PortRule("output", "ntp", UDP, 123);
    var e, f, g := PortRule("output", "http", TCP, 80), PortRule("output", "https", TCP, 443),
      PortRule("output", "ssh out", TCP, 22);
    AcceptingPort("output", "dns", UDP, 53, p, under);
    AcceptingPort("output", "dns (tcp)", TCP, 53, p, under);
    AcceptingPort("output", "dhcp", UDP, 67, p, under);
    AcceptingPort("output", "ntp", UDP, 123, p, under);
    AcceptingPort("output", "http", TCP, 80, p, under);
    AcceptingPort("output", "https", TCP, 443, p, under);
    AcceptingPort("output", "ssh out", TCP, 22, p, under);
    AcceptingEither([a], [b], "output", p, under, To(p, UDP, 53), To(p, TCP, 53));
    AcceptingEither([c], [d], "output", p, under, To(p, UDP, 67), To(p, UDP, 123));
    AcceptingEither([e], [f], "output", p, under, To(p, TCP, 80), To(p, TCP, 443));
    var (ab, cd, ef) := (To(p, UDP, 53) || To(p, TCP, 53), To(p, UDP, 67) || To(p, UDP, 123),
      To(p, TCP, 80) || To(p, TCP, 443));
    AcceptingEither([a] + [b], [c] + [d], "output", p, under, ab, cd);
    AcceptingEither([e] + [f], [g], "output", p, under, ef, To(p, TCP, 22));
    AcceptingEither([a] + [b] + ([c] + [d]), [e] + [f] + [g], "output", p, under, ab || cd, ef || To(p, TCP, 22));
    assert PortsOut() == [a] + [b] + ([c] + [d]) + ([e] + [f] + [g]);
  }

  lemma OutputLetsOut(strict: bool, p: Packet, under: Rates)
    ensures Accepting(OutputRules(strict), "output", p, under, strict && LetOut(p))
  {
    hide Accepting, Rule, PortsOut, Eval, Known, IsLo, To, Meta, Cmp, IfName, AnyState, Count0, Verdict;
    OnlyCounts(p, under);
    AcceptingRule("output", "sent", [Count0()], "output", p, under, false);
    AcceptingRule("output", "blocked", [Count0()], "output", p, under, false);
    if strict {
      var known := AnyState(ESTABLISHED + RELATED) + [Count0(), Verdict(ACCEPT)];
      KnownSays(p, under);
      AcceptingRule("output", "established", known, "output", p, under, Known(p));
      var lo := [Meta(7), Cmp(0, IfName("lo")), Count0(), Verdict(ACCEPT)];
      LoSays(7, p, under);
      AcceptingRule("output", "loopback", lo, "output", p, under, IsLo(p.outName));
      var six := [Meta(16), Cmp(0, [ICMP6]), Count0(), Verdict(ACCEPT)];
      ProtoSays(ICMP6, p, under);
      AcceptingRule("output", "icmpv6", six, "output", p, under, p.proto == ICMP6);
      var ping := [Meta(16), Cmp(0, [ICMP]), Count0(), Verdict(ACCEPT)];
      ProtoSays(ICMP, p, under);
      AcceptingRule("output", "ping out", ping, "output", p, under, p.proto == ICMP);
      var a, b := Rule("output", "established", known), Rule("output", "loopback", lo);
      var c, d, e := Rule("output", "icmpv6", six), Rule("output", "ping out", ping),
        Rule("output", "blocked", [Count0()]);
      var ports := To(p, UDP, 53) || To(p, TCP, 53) || To(p, UDP, 67) || To(p, UDP, 123) || To(p, TCP, 80) ||
        To(p, TCP, 443) || To(p, TCP, 22);
      PortsLetOut(p, under);
      AcceptingEither([a], [b], "output", p, under, Known(p), IsLo(p.outName));
      AcceptingEither([a] + [b], PortsOut(), "output", p, under, Known(p) || IsLo(p.outName), ports);
      AcceptingEither([c], [d], "output", p, under, p.proto == ICMP6, p.proto == ICMP);
      AcceptingEither([c] + [d], [e], "output", p, under, p.proto == ICMP6 || p.proto == ICMP, false);
      AcceptingEither([a] + [b] + PortsOut(), [c] + [d] + [e], "output", p, under,
        (Known(p) || IsLo(p.outName)) || ports, p.proto == ICMP6 || p.proto == ICMP);
      assert OutputRules(true) == [a] + [b] + PortsOut() + ([c] + [d] + [e]);
    }
  }

  lemma PolicyStep(m: Msg, rest: seq<Msg>, chain: string, hook: nat)
    ensures var v := PolicyOf(m, chain, hook);
      Policy([m] + rest, chain, hook) == if v.Some? then v else Policy(rest, chain, hook)
  {
    hide PolicyOf;
    assert ([m] + rest)[1..] == rest;
  }

  /** The hooks of the three chains. */
  function HookOf(chain: string): nat { if chain == "input" then 1 else if chain == "forward" then 2 else 3 }

  /** What happens to a packet that no rule decides about. */
  function Otherwise(strict: bool, chain: string): nat { if chain == "output" && !strict then ACCEPT else DROP }

  lemma PolicyIs(strict: bool, replacing: bool, rest: seq<Msg>, chain: string)
    requires IsChain(chain)
    ensures Policy(Chains(strict, replacing) + rest, chain, HookOf(chain)) == Some(Otherwise(strict, chain))
  {
    hide PolicyOf, Policy, Chain, Table, Begin;
    var hook := HookOf(chain);
    var (i, f, o) := (Chain("input", 1, DROP), Chain("forward", 2, DROP),
      Chain("output", 3, if strict then DROP else ACCEPT));
    ChainPolicy("input", 1, DROP, chain, hook);
    ChainPolicy("forward", 2, DROP, chain, hook);
    ChainPolicy("output", 3, if strict then DROP else ACCEPT, chain, hook);
    PolicyStep(o, rest, chain, hook);
    PolicyStep(f, [o] + rest, chain, hook);
    PolicyStep(i, [f] + ([o] + rest), chain, hook);
    var chains := [i] + ([f] + ([o] + rest));
    NoPolicy(Begin(), chain, hook);
    NoPolicy(Table(0, REQUEST + ACK + CREATE), chain, hook);
    NoPolicy(Table(2, REQUEST + ACK), chain, hook);
    var made := [Table(0, REQUEST + ACK + CREATE)] + chains;
    PolicyStep(Table(0, REQUEST + ACK + CREATE), chains, chain, hook);
    var gone := if replacing then [Table(2, REQUEST + ACK)] + made else made;
    PolicyStep(Table(2, REQUEST + ACK), made, chain, hook);
    PolicyStep(Begin(), gone, chain, hook);
    assert Chains(strict, replacing) + rest == [Begin()] + gone;
  }

  lemma NoPolicy(m: Msg, chain: string, hook: nat)
    requires m == Begin() || m == Table(0, REQUEST + ACK + CREATE) || m == Table(2, REQUEST + ACK)
    ensures PolicyOf(m, chain, hook) == None
  {
    hide Param, First;
  }

  /** Which of a chain's packets are let through, whatever its policy. */
  predicate LetThrough(strict: bool, extra: seq<Extra>, chain: string, p: Packet, under: Rates) {
    if chain == "input" then LetIn(extra, p, under) else chain == "output" && strict && LetOut(p)
  }

  lemma RulesDecide(strict: bool, replacing: bool, extra: seq<Extra>, chain: string, p: Packet, under: Rates)
    requires IsChain(chain) && forall e <- extra :: e.Valid()
    ensures Accepting(Ruleset(strict, replacing, extra), chain, p, under, LetThrough(strict, extra, chain, p, under))
  {
    hide Rule, Chains, InputRules, OutputRules, Count0, Eval, LetIn, LetOut, StandsIn, End, Accepting;
    var (ins, outs) := (InputRules(extra), OutputRules(strict));
    var forward := [Rule("forward", "forwarded", [Count0()])];
    var (let, sent) := (chain == "input" && LetIn(extra, p, under), chain == "output" && strict && LetOut(p));
    FramedByNone(strict, replacing, chain, p, under);
    InputIn(extra, chain, p, under);
    OnlyCounts(p, under);
    AcceptingRule("forward", "forwarded", [Count0()], chain, p, under, false);
    OutputIn(strict, chain, p, under);
    AcceptingEither(Chains(strict, replacing), ins, chain, p, under, false, let);
    AcceptingEither(Chains(strict, replacing) + ins, forward, chain, p, under, let, false);
    AcceptingEither(Chains(strict, replacing) + ins + forward, outs, chain, p, under, let, sent);
    AcceptingEither(Chains(strict, replacing) + ins + forward + outs, [End()], chain, p, under, let || sent, false);
  }

  /** The messages around the rules decide nothing. */
  lemma FramedByNone(strict: bool, replacing: bool, chain: string, p: Packet, under: Rates)
    requires IsChain(chain)
    ensures Accepting(Chains(strict, replacing), chain, p, under, false)
    ensures Accepting([End()], chain, p, under, false)
  {
    hide Text, Word, First;
    Elsewhere(Chains(strict, replacing), "input", chain, p, under);
    Elsewhere([End()], "input", chain, p, under);
  }

  lemma InputIn(extra: seq<Extra>, chain: string, p: Packet, under: Rates)
    requires IsChain(chain) && forall e <- extra :: e.Valid()
    ensures Accepting(InputRules(extra), chain, p, under, chain == "input" && LetIn(extra, p, under))
  {
    hide InputRules, LetIn, StandsIn, Decided;
    InputLetsIn(extra, p, under);
    InputStands(extra);
    if chain != "input" { Elsewhere(InputRules(extra), "input", chain, p, under); }
  }

  lemma OutputIn(strict: bool, chain: string, p: Packet, under: Rates)
    requires IsChain(chain)
    ensures Accepting(OutputRules(strict), chain, p, under, chain == "output" && strict && LetOut(p))
  {
    hide OutputRules, LetOut, StandsIn, Decided;
    OutputLetsOut(strict, p, under);
    OutputStands(strict);
    if chain != "output" { Elsewhere(OutputRules(strict), "output", chain, p, under); }
  }

  // ── What the firewall does ─────────────────────────────────────────

  /** What turning the firewall on does to a packet at each of the three hooks. */
  lemma Fates(strict: bool, replacing: bool, extra: seq<Extra>, p: Packet, under: Rates)
    requires forall e <- extra :: e.Valid()
    ensures var sent := Ruleset(strict, replacing, extra);
      && Fate(sent, "input", 1, p, under) == Some(if LetIn(extra, p, under) then ACCEPT else DROP)
      && Fate(sent, "forward", 2, p, under) == Some(DROP)
      && Fate(sent, "output", 3, p, under) == Some(if strict && !LetOut(p) then DROP else ACCEPT)
  {
    hide Chains, InputRules, OutputRules, Rule, End, LetIn, LetOut, Decided, Policy;
    var rest := InputRules(extra) + [Rule("forward", "forwarded", [Count0()])] + OutputRules(strict) + [End()];
    assert Ruleset(strict, replacing, extra) == Chains(strict, replacing) + rest;
    RulesDecide(strict, replacing, extra, "input", p, under);
    RulesDecide(strict, replacing, extra, "forward", p, under);
    RulesDecide(strict, replacing, extra, "output", p, under);
    PolicyIs(strict, replacing, rest, "input");
    PolicyIs(strict, replacing, rest, "forward");
    PolicyIs(strict, replacing, rest, "output");
  }

  /** Without an extra port for it, what comes in unasked and to no service is turned away. */
  lemma Unasked(strict: bool, replacing: bool, extra: seq<Extra>, p: Packet, under: Rates, port: nat)
    requires forall e <- extra :: e.Valid()
    requires To(p, TCP, port) && !Known(p) && !IsLo(p.inName)
    ensures Fate(Ruleset(strict, replacing, extra), "input", 1, p, under) == Some(ACCEPT) <==>
      port == 22 || Extra(TCP, port) in extra
  {
    hide Fate, Ruleset;
    Fates(strict, replacing, extra, p, under);
  }

  /** The limit on new connections by ssh turns nothing away: whatever comes to the port is let in,
      over the limit or under it. */
  lemma SshIsNotLimited(strict: bool, replacing: bool, extra: seq<Extra>, p: Packet, under: Rates)
    requires (forall e <- extra :: e.Valid()) && To(p, TCP, 22)
    ensures Fate(Ruleset(strict, replacing, extra), "input", 1, p, under) == Some(ACCEPT)
  {
    hide Fate, Ruleset, To;
    Fates(strict, replacing, extra, p, under);
  }

  /** A new connection by ssh, over every limit there is, and let in all the same. */
  lemma NewSshOverLimit()
    ensures var p := Packet(TCP, [], [], [0, 0, 0, 22], NEW);
      Begun(p) && !Known(p) && Fate(Ruleset(false, false, []), "input", 1, p, (r, s, b) => false) == Some(ACCEPT)
  {
    hide Fate, Ruleset;
    SshIsNotLimited(false, false, [], Packet(TCP, [], [], [0, 0, 0, 22], NEW), (r, s, b) => false);
  }

  /** The one limit that matters is the one on pings: it decides for a ping that nothing else lets in. */
  lemma LimitDecides(strict: bool, replacing: bool, extra: seq<Extra>, p: Packet, under: Rates, other: Rates)
    requires forall e <- extra :: e.Valid()
    ensures var sent := Ruleset(strict, replacing, extra);
      Fate(sent, "input", 1, p, under) != Fate(sent, "input", 1, p, other) <==>
      && p.proto == ICMP
      && under(20, 1, 50) != other(20, 1, 50)
      && !Known(p) && !IsLo(p.inName) && forall e <- extra :: !To(p, e.proto, e.port)
  {
    hide Fate, Ruleset, Known, IsLo;
    Fates(strict, replacing, extra, p, under);
    Fates(strict, replacing, extra, p, other);
  }
}
