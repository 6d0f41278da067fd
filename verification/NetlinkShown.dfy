/** How long the ruleset is, and what is read of it when the kernel gives it back. */
module NetlinkShown {
  import opened Optional
  import opened Octets
  import opened Numerals
  import opened NetlinkFormat
  import opened NetlinkBatch
  import opened NetlinkRules

  // ── Lists of known length ──────────────────────────────────────────

  lemma Size1(a: Attr)
    ensures |EncodeAll([a])| == |Encode(a)|
  {
    hide Encode, EncodeAll;
    EncodeBack([], a);
    EncodeNone();
    assert [] + [a] == [a];
  }

  lemma Size2(a: Attr, b: Attr)
    ensures |EncodeAll([a, b])| == |Encode(a)| + |Encode(b)|
  {
    hide Encode, EncodeAll;
    Size1(a);
    EncodeBack([a], b);
    assert [a] + [b] == [a, b];
  }

  lemma Size3(a: Attr, b: Attr, c: Attr)
    ensures |EncodeAll([a, b, c])| == |Encode(a)| + |Encode(b)| + |Encode(c)|
  {
    hide Encode, EncodeAll;
    Size2(a, b);
    EncodeBack([a, b], c);
    assert [a, b] + [c] == [a, b, c];
  }

  lemma Size4(a: Attr, b: Attr, c: Attr, d: Attr)
    ensures |EncodeAll([a, b, c, d])| == |Encode(a)| + |Encode(b)| + |Encode(c)| + |Encode(d)|
  {
    hide Encode, EncodeAll;
    Size3(a, b, c);
    EncodeBack([a, b, c], d);
    assert [a, b, c] + [d] == [a, b, c, d];
  }

  lemma Size5(a: Attr, b: Attr, c: Attr, d: Attr, e: Attr)
    ensures |EncodeAll([a, b, c, d, e])| == |Encode(a)| + |Encode(b)| + |Encode(c)| + |Encode(d)| + |Encode(e)|
  {
    hide Encode, EncodeAll;
    Size4(a, b, c, d);
    EncodeBack([a, b, c, d], e);
    assert [a, b, c, d] + [e] == [a, b, c, d, e];
  }

  lemma {:induction false} SizeSum(s: seq<Attr>, t: seq<Attr>)
    ensures |EncodeAll(s + t)| == |EncodeAll(s)| + |EncodeAll(t)|
  {
    hide Encode, EncodeAll;
    if t == [] {
      EncodeNone();
      assert s + t == s;
    } else {
      var n := |t| - 1;
      SizeSum(s, t[..n]);
      EncodeBack(s + t[..n], t[n]);
      EncodeBack(t[..n], t[n]);
      assert t == t[..n] + [t[n]] && s + t == s + t[..n] + [t[n]];
    }
  }

  // ── Expressions: how long they are, that they fit, and that they do not count ──

  /** An attribute of so many bytes that fits its lengths. */
  ghost predicate Sized(a: Attr, n: nat) { |Encode(a)| == n && Fits(a) }

  lemma LeafSized(kind: nat, data: seq<Byte>)
    requires kind < 0x8000 && |data| < 1000
    ensures Sized(Leaf(kind, data), 4 + Align4(|data|))
  {
    assert Payload(Leaf(kind, data)) == data;
  }

  lemma WordSized(kind: nat, v: nat)
    requires kind < 0x8000
    ensures Sized(Word(kind, v), 8)
  {
    LeafSized(kind, BeBytes(v, 4));
  }

  lemma NestSized(kind: nat, kids: seq<Attr>)
    requires kind < 0x8000 && AllFit(kids) && |EncodeAll(kids)| < 2000
    ensures Sized(Nest(kind, kids), 4 + |EncodeAll(kids)|)
  {
    hide EncodeAll, Encode;
    var n := |EncodeAll(kids)|;
    assert Payload(Nest(kind, kids)) == EncodeAll(kids);
    assert n % 4 == 0 && Align4(n) == n;
    assert |Encode(Nest(kind, kids))| == 4 + n;
  }

  /** A name that is not the counter's. */
  predicate OtherName(name: string) {
    0 < |name| < 12 && (name[0] as int % 256 != 99 || (1 < |name| && name[1] as int % 256 != 111))
  }

  lemma ExprSized(name: string, kids: seq<Attr>)
    requires |name| < 12 && AllFit(kids) && |EncodeAll(kids)| < 1000
    ensures Sized(ExprOf(name, kids), 12 + Align4(|name| + 1) + |EncodeAll(kids)|)
  {
    hide EncodeAll, Encode, Fits, Ascii;
    var text, data := Text(EXPR_NAME, name), Nest(EXPR_DATA, kids);
    LeafSized(EXPR_NAME, Ascii(name) + [0]);
    NestSized(EXPR_DATA, kids);
    Size2(text, data);
    NestSized(LIST_ELEM, [text, data]);
  }

  lemma NamedOther(name: string, kids: seq<Attr>)
    requires OtherName(name)
    ensures IsOther(ExprOf(name, kids))
  {
    var s := Ascii(name) + [0];
    assert First([Text(EXPR_NAME, name), Nest(EXPR_DATA, kids)], EXPR_NAME) == Some(Text(EXPR_NAME, name));
    assert s[0] == (name[0] as int % 256) as Byte && COUNTER[0] == 99 && COUNTER[1] == 111;
    assert s[0] != COUNTER[0] || s[1] != COUNTER[1];
  }

  /** An expression other than the counter's, of so many bytes. */
  ghost predicate Plain(a: Attr, n: nat) { Sized(a, n) && IsOther(a) }

  lemma PlainExpr(name: string, kids: seq<Attr>, n: nat)
    requires OtherName(name) && AllFit(kids) && |EncodeAll(kids)| == n < 1000
    ensures Plain(ExprOf(name, kids), 12 + Align4(|name| + 1) + n)
  {
    hide Sized, IsOther, ExprOf, Fits, EncodeAll;
    ExprSized(name, kids);
    NamedOther(name, kids);
  }

  lemma MetaSize(key: nat)
    ensures Plain(Meta(key), 36)
  {
    hide Encode, EncodeAll, Word, Plain, Fits;
    WordSized(2, key);
    WordSized(1, 1);
    Size2(Word(2, key), Word(1, 1));
    PlainExpr("meta", [Word(2, key), Word(1, 1)], 16);
  }

  lemma CtSize()
    ensures Plain(CtState(), 32)
  {
    hide Encode, EncodeAll, Word, Plain, Fits;
    WordSized(2, 0);
    WordSized(1, 1);
    Size2(Word(2, 0), Word(1, 1));
    PlainExpr("ct", [Word(2, 0), Word(1, 1)], 16);
  }

  lemma PayloadSize(from: nat, off: nat, len: nat)
    ensures Plain(PayloadOf(from, off, len), 52)
  {
    hide Encode, EncodeAll, Word, Plain, Fits;
    WordSized(1, 1);
    WordSized(2, from);
    WordSized(3, off);
    WordSized(4, len);
    Size4(Word(1, 1), Word(2, from), Word(3, off), Word(4, len));
    PlainExpr("payload", [Word(1, 1), Word(2, from), Word(3, off), Word(4, len)], 32);
  }

  lemma ValueSized(kind: nat, data: seq<Byte>)
    requires kind < 0x8000 && |data| <= 16
    ensures Sized(Nest(kind, [Leaf(1, data)]), 8 + Align4(|data|))
  {
    hide Encode, EncodeAll, Fits;
    LeafSized(1, data);
    Size1(Leaf(1, data));
    NestSized(kind, [Leaf(1, data)]);
  }

  lemma CmpSize(op: nat, data: seq<Byte>)
    requires |data| <= 16
    ensures Plain(Cmp(op, data), 40 + Align4(|data|))
  {
    hide Encode, EncodeAll, Word, Plain, Fits;
    WordSized(1, 1);
    WordSized(2, op);
    ValueSized(3, data);
    var v := Nest(3, [Leaf(1, data)]);
    Size3(Word(1, 1), Word(2, op), v);
    PlainExpr("cmp", [Word(1, 1), Word(2, op), v], 24 + Align4(|data|));
  }

  lemma MaskSize(mask: nat)
    ensures Plain(Mask(mask), 68)
  {
    hide Encode, EncodeAll, Word, Plain, Fits, Le4;
    WordSized(1, 1);
    WordSized(2, 1);
    WordSized(3, 4);
    ValueSized(4, Le4(mask));
    ValueSized(5, Le4(0));
    var v, w := Nest(4, [Leaf(1, Le4(mask))]), Nest(5, [Leaf(1, Le4(0))]);
    Size5(Word(1, 1), Word(2, 1), Word(3, 4), v, w);
    PlainExpr("bitwise", [Word(1, 1), Word(2, 1), Word(3, 4), v, w], 48);
  }

  lemma LimitSize(rate: nat, secs: nat, burst: nat)
    ensures Plain(Limit(rate, secs, burst), 60)
  {
    hide Encode, EncodeAll, Word, Plain, Fits, BeBytes;
    LeafSized(1, BeBytes(rate, 8));
    LeafSized(2, BeBytes(secs, 8));
    WordSized(3, burst);
    WordSized(4, 0);
    var r, u := Leaf(1, BeBytes(rate, 8)), Leaf(2, BeBytes(secs, 8));
    Size4(r, u, Word(3, burst), Word(4, 0));
    PlainExpr("limit", [r, u, Word(3, burst), Word(4, 0)], 40);
  }

  lemma VerdictSize(code: nat)
    ensures Plain(Verdict(code), 48)
  {
    hide Encode, EncodeAll, Word, Plain, Fits;
    WordSized(1, 0);
    WordSized(1, code);
    Size1(Word(1, code));
    NestSized(2, [Word(1, code)]);
    var inner := Nest(2, [Word(1, code)]);
    Size1(inner);
    NestSized(2, [inner]);
    Size2(Word(1, 0), Nest(2, [inner]));
    PlainExpr("immediate", [Word(1, 0), Nest(2, [inner])], 24);
  }

  lemma CounterSize(c: Counter)
    ensures Sized(CounterExpr(c), 44)
  {
    hide Encode, EncodeAll, Fits, BeBytes;
    var a, b := Leaf(COUNTER_BYTES, BeBytes(c.bytes, 8)), Leaf(COUNTER_PACKETS, BeBytes(c.packets, 8));
    LeafSized(COUNTER_BYTES, BeBytes(c.bytes, 8));
    LeafSized(COUNTER_PACKETS, BeBytes(c.packets, 8));
    LeafSized(EXPR_NAME, COUNTER);
    Size2(a, b);
    NestSized(EXPR_DATA, [a, b]);
    Size2(Leaf(EXPR_NAME, COUNTER), Nest(EXPR_DATA, [a, b]));
    NestSized(LIST_ELEM, [Leaf(EXPR_NAME, COUNTER), Nest(EXPR_DATA, [a, b])]);
  }

  // ── Rules ──────────────────────────────────────────────────────────

  /** Expressions of so many bytes, none of which counts. */
  ghost predicate Quiet(before: seq<Attr>, n: nat) {
    |EncodeAll(before)| == n && forall a | a in before :: Fits(a) && IsOther(a)
  }

  /** Expressions of so many bytes. One of them counts, and it is the firewall's. */
  ghost predicate Tells(exprs: seq<Attr>, n: nat) {
    && |EncodeAll(exprs)| == n && AllFit(exprs)
    && exists i | 0 <= i < |exprs| :: exprs[i] == Count0() && forall j | 0 <= j < i :: IsOther(exprs[j])
  }

  lemma CountTells(before: seq<Attr>, n: nat)
    requires Quiet(before, n)
    ensures Tells(before + [Count0()], n + 44)
  {
    hide Encode, EncodeAll, IsOther, Fits, CounterExpr;
    CounterSize(Counter(0, 0));
    EncodeBack(before, Count0());
    var all := before + [Count0()];
    assert all[|before|] == Count0();
  }

  lemma AcceptTells(before: seq<Attr>, n: nat)
    requires Quiet(before, n)
    ensures Tells(before + [Count0(), Verdict(ACCEPT)], n + 92)
  {
    hide Encode, EncodeAll, IsOther, Fits, CounterExpr, Verdict;
    CountTells(before, n);
    VerdictSize(ACCEPT);
    EncodeBack(before + [Count0()], Verdict(ACCEPT));
    var all := before + [Count0(), Verdict(ACCEPT)];
    assert all == before + [Count0()] + [Verdict(ACCEPT)];
    assert all[|before|] == Count0() && forall j | 0 <= j < |before| :: all[j] in before;
  }

  lemma QuietSum(s: seq<Attr>, m: nat, t: seq<Attr>, n: nat)
    requires Quiet(s, m) && Quiet(t, n)
    ensures Quiet(s + t, m + n)
  {
    hide EncodeAll, IsOther, Fits;
    SizeSum(s, t);
  }

  lemma AnyStateQuiet(bits: nat)
    ensures Quiet(AnyState(bits), 144)
  {
    hide Encode, EncodeAll, IsOther, Fits, CtState, Mask, Cmp, Le4;
    CtSize();
    MaskSize(bits);
    CmpSize(1, Le4(0));
    Size3(CtState(), Mask(bits), Cmp(1, Le4(0)));
  }

  lemma PortQuiet(proto: Byte, port: nat)
    ensures Quiet([Meta(16), Cmp(0, [proto]), PayloadOf(2, 2, 2), Cmp(0, BeBytes(port, 2))], 176)
  {
    hide Encode, EncodeAll, IsOther, Fits, Meta, Cmp, PayloadOf, BeBytes;
    MetaSize(16);
    CmpSize(0, [proto]);
    PayloadSize(2, 2, 2);
    CmpSize(0, BeBytes(port, 2));
    Size4(Meta(16), Cmp(0, [proto]), PayloadOf(2, 2, 2), Cmp(0, BeBytes(port, 2)));
  }

  lemma MetaCmpQuiet(key: nat, data: seq<Byte>)
    requires |data| <= 16
    ensures Quiet([Meta(key), Cmp(0, data)], 76 + Align4(|data|))
  {
    hide Encode, EncodeAll, IsOther, Fits, Meta, Cmp, Align4;
    MetaSize(key);
    CmpSize(0, data);
    Size2(Meta(key), Cmp(0, data));
  }

  lemma LimitQuiet(rate: nat, secs: nat, burst: nat)
    ensures Quiet([Limit(rate, secs, burst)], 60)
  {
    hide Encode, EncodeAll, IsOther, Fits, Limit;
    LimitSize(rate, secs, burst);
    Size1(Limit(rate, secs, burst));
  }

  // ── Messages ───────────────────────────────────────────────────────

  function MsgSize(m: Msg): nat { 20 + |EncodeAll(m.body)| }

  predicate Printable(s: string) { forall i | 0 <= i < |s| :: ' ' <= s[i] <= '~' }

  /** A rule by its chain, its label and its expressions. */
  ghost predicate IsRule(m: Msg, chain: string, tag: string, exprs: seq<Attr>) {
    && m == Rule(chain, tag, exprs) && Printable(chain) && Printable(tag) && |chain| < 8 && |tag| < 48
    && exists n :: n < 1000 && Tells(exprs, n)
  }

  /** A rule whose chain, label and counters can be told from its message. */
  ghost predicate Shown(m: Msg) { exists chain, tag, exprs :: IsRule(m, chain, tag, exprs) }

  /** A message of at most so many bytes that tells its counters if it is a rule. */
  ghost predicate Fine(m: Msg, max: nat) {
    MsgSize(m) <= max && (m.kind == RULE_KIND ==> Shown(m))
  }

  lemma RuleFine(chain: string, tag: string, exprs: seq<Attr>, n: nat, max: nat)
    requires Tells(exprs, n) && n < 1000 && Printable(chain) && Printable(tag) && 4 <= |chain| < 8 && |tag| < 48
    requires 58 + |tag| + n <= max
    ensures Fine(Rule(chain, tag, exprs), max)
  {
    hide EncodeAll, Encode, Tells, Fits, Printable, Ascii, UserData;
    assert AllFit(exprs) && |EncodeAll(exprs)| == n by { TellsSize(exprs, n); }
    LeafSized(1, Ascii("lpzero") + [0]);
    LeafSized(2, Ascii(chain) + [0]);
    LeafSized(7, UserData(tag));
    NestSized(4, exprs);
    Size4(Text(1, "lpzero"), Text(2, chain), Leaf(7, UserData(tag)), Nest(4, exprs));
    assert IsRule(Rule(chain, tag, exprs), chain, tag, exprs);
  }

  lemma TellsSize(exprs: seq<Attr>, n: nat)
    requires Tells(exprs, n)
    ensures AllFit(exprs) && |EncodeAll(exprs)| == n
  {
  }

  lemma PortFine(chain: string, tag: string, proto: Byte, port: nat, max: nat)
    requires Printable(chain) && Printable(tag) && 4 <= |chain| < 8 && |tag| < 48
    requires 326 + |tag| <= max
    ensures Fine(PortRule(chain, tag, proto, port), max)
  {
    hide Fine, Quiet, Tells, Printable, Rule, Meta, Cmp, PayloadOf, BeBytes, Count0, Verdict;
    var before := [Meta(16), Cmp(0, [proto]), PayloadOf(2, 2, 2), Cmp(0, BeBytes(port, 2))];
    PortQuiet(proto, port);
    AcceptTells(before, 176);
    assert before + [Count0(), Verdict(ACCEPT)] ==
      [Meta(16), Cmp(0, [proto]), PayloadOf(2, 2, 2), Cmp(0, BeBytes(port, 2)), Count0(), Verdict(ACCEPT)];
    RuleFine(chain, tag, before + [Count0(), Verdict(ACCEPT)], 268, max);
  }

  lemma EstablishedFine(chain: string)
    requires Printable(chain) && 4 <= |chain| < 8
    ensures Fine(Rule(chain, "established", AnyState(ESTABLISHED + RELATED) + [Count0(), Verdict(ACCEPT)]), 344)
  {
    hide Fine, Quiet, Tells, Rule, AnyState, Count0, Verdict;
    AnyStateQuiet(ESTABLISHED + RELATED);
    AcceptTells(AnyState(ESTABLISHED + RELATED), 144);
    RuleFine(chain, "established", AnyState(ESTABLISHED + RELATED) + [Count0(), Verdict(ACCEPT)], 236, 344);
  }

  lemma MetaCmpFine(chain: string, tag: string, key: nat, data: seq<Byte>, max: nat)
    requires Printable(chain) && Printable(tag) && 4 <= |chain| < 8 && |tag| < 48 && |data| <= 16
    requires 242 + |tag| <= max
    ensures Fine(Rule(chain, tag, [Meta(key), Cmp(0, data), Count0(), Verdict(ACCEPT)]), max)
  {
    hide Fine, Quiet, Tells, Printable, Rule, Meta, Cmp, Count0, Verdict;
    MetaCmpQuiet(key, data);
    AcceptTells([Meta(key), Cmp(0, data)], 76 + Align4(|data|));
    assert [Meta(key), Cmp(0, data), Count0(), Verdict(ACCEPT)] ==
      [Meta(key), Cmp(0, data)] + [Count0(), Verdict(ACCEPT)];
    RuleFine(chain, tag, [Meta(key), Cmp(0, data), Count0(), Verdict(ACCEPT)], 168 + Align4(|data|), max);
  }

  lemma CountFine(chain: string, tag: string, max: nat)
    requires Printable(chain) && Printable(tag) && 4 <= |chain| < 8 && |tag| < 48
    requires 102 + |tag| <= max
    ensures Fine(Rule(chain, tag, [Count0()]), max)
  {
    hide Fine, Tells, Printable, Rule, Count0, EncodeAll;
    assert Quiet([], 0) by { EncodeNone(); }
    CountTells([], 0);
    assert [] + [Count0()] == [Count0()];
    RuleFine(chain, tag, [Count0()], 44, max);
  }

  lemma PingFine()
    ensures Fine(Rule("input", "ping", [Meta(16), Cmp(0, [ICMP]), Limit(20, 1, 50), Count0(), Verdict(ACCEPT)]), 344)
  {
    hide Fine, Quiet, Tells, Rule, Meta, Cmp, Limit, Count0, Verdict;
    MetaCmpQuiet(16, [ICMP]);
    LimitQuiet(20, 1, 50);
    QuietSum([Meta(16), Cmp(0, [ICMP])], 80, [Limit(20, 1, 50)], 60);
    var before := [Meta(16), Cmp(0, [ICMP]), Limit(20, 1, 50)];
    assert before == [Meta(16), Cmp(0, [ICMP])] + [Limit(20, 1, 50)];
    AcceptTells(before, 140);
    var exprs := [Meta(16), Cmp(0, [ICMP]), Limit(20, 1, 50), Count0(), Verdict(ACCEPT)];
    assert exprs == before + [Count0(), Verdict(ACCEPT)];
    RuleFine("input", "ping", exprs, 232, 344);
  }

  lemma SshTells()
    ensures Tells(NewSsh(), 472)
  {
    hide Quiet, Tells, Meta, Cmp, PayloadOf, BeBytes, Limit, AnyState, Count0, Verdict;
    var a, l := [Meta(16), Cmp(0, [TCP]), PayloadOf(2, 2, 2), Cmp(0, BeBytes(22, 2))], Limit(30, 60, 30);
    PortQuiet(TCP, 22);
    AnyStateQuiet(NEW);
    LimitQuiet(30, 60, 30);
    QuietSum(a, 176, AnyState(NEW), 144);
    QuietSum(a + AnyState(NEW), 320, [l], 60);
    AcceptTells(a + AnyState(NEW) + [l], 380);
    SameParts(a + AnyState(NEW), l, Count0(), Verdict(ACCEPT));
  }

  lemma SameParts(s: seq<Attr>, a: Attr, b: Attr, c: Attr)
    ensures s + [a] + [b, c] == s + [a, b, c]
  {
  }

  lemma SshFine()
    ensures Fine(Rule("input", "ssh (new, rate limited)", NewSsh()), 560)
  {
    hide Fine, Tells, Rule, NewSsh;
    SshTells();
    RuleFine("input", "ssh (new, rate limited)", NewSsh(), 472, 560);
  }

  // ── The ruleset ────────────────────────────────────────────────────

  function Total(log: seq<Msg>): nat {
    if log == [] then 0 else Total(log[..|log| - 1]) + MsgSize(log[|log| - 1])
  }

  lemma {:induction false} BytesTotal(log: seq<Msg>)
    ensures |Bytes(log)| == Total(log)
    decreases |log|
  {
    hide EncodeAll, HeadBytes;
    if log != [] { BytesTotal(log[..|log| - 1]); }
  }

  ghost predicate AllFine(log: seq<Msg>, max: nat) { forall m | m in log :: Fine(m, max) }

  lemma {:induction false} TotalSum(s: seq<Msg>, t: seq<Msg>)
    ensures Total(s + t) == Total(s) + Total(t)
    decreases |t|
  {
    hide MsgSize;
    if t == [] {
      assert s + t == s;
    } else {
      var n := |t| - 1;
      TotalSum(s, t[..n]);
      assert (s + t)[..|s| + n] == s + t[..n];
    }
  }

  lemma {:induction false} TotalAtMost(log: seq<Msg>, max: nat)
    requires AllFine(log, max)
    ensures Total(log) <= max * |log|
    decreases |log|
  {
    hide Fine, MsgSize;
    if log != [] {
      var n := |log| - 1;
      assert log[n] in log;
      FineSize(log[n], max);
      TotalAtMost(log[..n], max);
      OneMore(Total(log[..n]), MsgSize(log[n]), max, n);
    }
  }

  lemma OneMore(sum: nat, m: nat, max: nat, n: nat)
    requires sum <= max * n && m <= max
    ensures sum + m <= max * (n + 1)
  {
  }

  lemma FineSize(m: Msg, max: nat)
    requires Fine(m, max)
    ensures MsgSize(m) <= max
  {
  }

  lemma OtherFine(m: Msg, max: nat)
    requires MsgSize(m) <= max && m.kind != RULE_KIND
    ensures Fine(m, max)
  {
  }

  lemma TableFine(kind: nat, flags: nat)
    requires kind != 6
    ensures Fine(Table(kind, flags), 84)
  {
    hide EncodeAll, Encode, Fits, Ascii;
    LeafSized(1, Ascii("lpzero") + [0]);
    Size1(Text(1, "lpzero"));
    OtherFine(Table(kind, flags), 84);
  }

  lemma ChainFine(name: string, hook: nat, policy: nat)
    requires |name| < 8
    ensures Fine(Chain(name, hook, policy), 84)
  {
    hide EncodeAll, Encode, Fits, Ascii, Word;
    LeafSized(1, Ascii("lpzero") + [0]);
    LeafSized(3, Ascii(name) + [0]);
    WordSized(1, hook);
    WordSized(2, 0);
    Size2(Word(1, hook), Word(2, 0));
    NestSized(4, [Word(1, hook), Word(2, 0)]);
    WordSized(5, policy);
    LeafSized(7, Ascii("filter") + [0]);
    Size5(Text(1, "lpzero"), Text(3, name), Nest(4, [Word(1, hook), Word(2, 0)]), Word(5, policy), Text(7, "filter"));
    OtherFine(Chain(name, hook, policy), 84);
  }

  lemma BareFine(m: Msg)
    requires m.body == [] && m.kind != RULE_KIND
    ensures Fine(m, 84)
  {
    EncodeNone();
    OtherFine(m, 84);
  }

  /** Messages of so many bytes at most, each of which is fine. */
  ghost predicate Held(log: seq<Msg>, max: nat) {
    Total(log) <= max && forall m | m in log :: m.kind == RULE_KIND ==> Shown(m)
  }

  lemma AllHeld(log: seq<Msg>, each: nat, max: nat)
    requires AllFine(log, each) && each * |log| <= max
    ensures Held(log, max)
  {
    hide MsgSize, IsRule;
    TotalAtMost(log, each);
  }

  lemma HeldSum(s: seq<Msg>, m: nat, t: seq<Msg>, n: nat)
    requires Held(s, m) && Held(t, n)
    ensures Held(s + t, m + n)
  {
    hide Total, Shown;
    TotalSum(s, t);
  }

  lemma ChainsHeld(strict: bool, replacing: bool)
    ensures Held(Chains(strict, replacing), 504)
  {
    hide Fine, Held, Chain, Table;
    BareFine(Begin());
    TableFine(2, REQUEST + ACK);
    TableFine(0, REQUEST + ACK + CREATE);
    ChainFine("input", 1, DROP);
    ChainFine("forward", 2, DROP);
    ChainFine("output", 3, if strict then DROP else ACCEPT);
    AllHeld(Chains(strict, replacing), 84, 504);
  }

  lemma StandingHeld()
    ensures Held(StandingRules(), 2624)
  {
    hide Fine, Held, Rule, PortRule, NewSsh, Meta, Cmp, Limit, AnyState, Count0, Verdict, IfName;
    EstablishedFine("input");
    MetaCmpFine("input", "loopback", 6, IfName("lo"), 344);
    SshFine();
    PortFine("input", "ssh (already open)", TCP, 22, 344);
    MetaCmpFine("input", "icmpv6", 16, [ICMP6], 344);
    PingFine();
    PortFine("input", "dhcp reply", UDP, 68, 344);
    var all := StandingRules();
    assert all[..2] == [all[0], all[1]] && all[2..3] == [all[2]] && all[3..] == [all[3], all[4], all[5], all[6]];
    AllHeld(all[..2], 344, 688);
    AllHeld(all[2..3], 560, 560);
    AllHeld(all[3..], 344, 1376);
    HeldSum(all[..2], 688, all[2..3], 560);
    HeldSum(all[..2] + all[2..3], 1248, all[3..], 1376);
    assert all == all[..2] + all[2..3] + all[3..];
  }

  function Ten(k: nat): nat { if k == 0 then 1 else 10 * Ten(k - 1) }

  lemma {:induction false} DigitsAtMost(v: nat, k: nat)
    requires k > 0 && v < Ten(k)
    ensures |Digits(v, 10)| <= k && Printable(Digits(v, 10))
  {
    if v >= 10 { DigitsAtMost(Front(v, 10), k - 1); }
  }

  lemma LabelShort(e: Extra)
    requires e.Valid()
    ensures |e.Label()| <= 14 && Printable(e.Label())
  {
    assert Ten(5) == 100000;
    DigitsAtMost(e.port, 5);
  }

  lemma {:induction false} ExtraHeld(extra: seq<Extra>)
    requires forall e | e in extra :: e.Valid()
    ensures Held(ExtraRules(extra), 340 * |extra|) && |ExtraRules(extra)| == |extra|
  {
    hide Fine, Held, Shown, PortRule, Extra.Label, Extra.Valid;
    if extra == [] {
      AllHeld([], 340, 0);
    } else {
      var n := |extra| - 1;
      var e := extra[n];
      assert e in extra;
      ExtraHeld(extra[..n]);
      LabelShort(e);
      PortFine("input", e.Label(), e.proto, e.port, 340);
      AllHeld([PortRule("input", e.Label(), e.proto, e.port)], 340, 340);
      HeldSum(ExtraRules(extra[..n]), 340 * n, [PortRule("input", e.Label(), e.proto, e.port)], 340);
    }
  }

  lemma OutputHeld(strict: bool)
    ensures Held(OutputRules(strict), 344 * 12)
  {
    hide Fine, Held, Rule, PortRule, Meta, Cmp, AnyState, Count0, Verdict, IfName;
    CountFine("output", "sent", 344);
    EstablishedFine("output");
    MetaCmpFine("output", "loopback", 7, IfName("lo"), 344);
    PortFine("output", "dns", UDP, 53, 344);
    PortFine("output", "dns (tcp)", TCP, 53, 344);
    PortFine("output", "dhcp", UDP, 67, 344);
    PortFine("output", "ntp", UDP, 123, 344);
    PortFine("output", "http", TCP, 80, 344);
    PortFine("output", "https", TCP, 443, 344);
    PortFine("output", "ssh out", TCP, 22, 344);
    MetaCmpFine("output", "icmpv6", 16, [ICMP6], 344);
    MetaCmpFine("output", "ping out", 16, [ICMP], 344);
    CountFine("output", "blocked", 344);
    AllHeld(OutputRules(strict), 344, 344 * 12);
  }

  /** However the firewall is turned on, what it sends fits a batch as long as the configuration
      asks for no more ports than it may: no ruleset is ever refused for its length. */
  lemma RulesetFits(strict: bool, replacing: bool, extra: seq<Extra>)
    requires |extra| <= MAX_EXTRA && forall e | e in extra :: e.Valid()
    ensures |Bytes(Ruleset(strict, replacing, extra))| <= BATCH_MAX
    ensures forall m | m in Ruleset(strict, replacing, extra) :: m.kind == RULE_KIND ==> Shown(m)
  {
    hide Fine, Shown, Total, Rule, Chains, StandingRules, ExtraRules, OutputRules, Extra.Valid, Bytes, Held;
    ChainsHeld(strict, replacing);
    InputHeld(extra);
    CountFine("forward", "forwarded", 344);
    var forwarded := [Rule("forward", "forwarded", [Count0()])];
    AllHeld(forwarded, 344, 344);
    OutputHeld(strict);
    BareFine(End());
    AllHeld([End()], 84, 84);
    var (a, b, d) := (Chains(strict, replacing), InputRules(extra), OutputRules(strict));
    HeldSum(a, 504, b, 2968 + 340 * |extra|);
    HeldSum(a + b, 3472 + 340 * |extra|, forwarded, 344);
    HeldSum(a + b + forwarded, 3816 + 340 * |extra|, d, 4128);
    HeldSum(a + b + forwarded + d, 7944 + 340 * |extra|, [End()], 84);
    HeldFits(Ruleset(strict, replacing, extra), 8028 + 340 * |extra|);
  }

  lemma InputHeld(extra: seq<Extra>)
    requires forall e | e in extra :: e.Valid()
    ensures Held(InputRules(extra), 2968 + 340 * |extra|)
  {
    hide Fine, Held, Rule, StandingRules, ExtraRules, Extra.Valid;
    StandingHeld();
    ExtraHeld(extra);
    CountFine("input", "denied", 344);
    var denied := [Rule("input", "denied", [Count0()])];
    AllHeld(denied, 344, 344);
    HeldSum(StandingRules(), 2624, ExtraRules(extra), 340 * |extra|);
    HeldSum(StandingRules() + ExtraRules(extra), 2624 + 340 * |extra|, denied, 344);
  }

  lemma HeldFits(log: seq<Msg>, max: nat)
    requires Held(log, max)
    ensures |Bytes(log)| <= max && forall m | m in log :: m.kind == RULE_KIND ==> Shown(m)
  {
    hide Bytes, Total, Shown;
    BytesTotal(log);
  }

  // ── What is shown of a rule ────────────────────────────────────────

  /** The expressions of a rule as the kernel gives them back, with what it has counted. */
  function Filled(exprs: seq<Attr>, c: Counter): seq<Attr> {
    seq(|exprs|, i requires 0 <= i < |exprs| => if exprs[i] == Count0() then CounterExpr(c) else exprs[i])
  }

  /** A label as it is shown: no more than 47 of its characters. */
  function LabelOf(data: seq<Byte>): seq<Byte>
    requires |data| >= 3 && data[1] > 0
  {
    var n := if data[1] > 48 then 48 else data[1] as nat;
    var text := CStr(data, 2);
    if |text| < n then text else text[..n - 1]
  }

  lemma LabelReads(tag: string)
    requires Printable(tag)
    ensures var data := UserData(tag);
      |data| >= 3 && data[0] == 0 && data[1] > 0 && LabelOf(data) == Ascii(tag)[..if |tag| < 48 then |tag| else 47]
  {
    var data, s := UserData(tag), Ascii(tag);
    var n := if |tag| < 61 then |tag| else 61;
    var text := s[..n];
    assert data[2..2 + n] == text && data[2 + n] == 0;
    assert 0 !in text;
    CStrReads(data, 2, text);
  }

  lemma CountIsNotOther()
    ensures !IsOther(Count0())
  {
    hide First, BeBytes;
    CounterExprCounts(Counter(0, 0));
  }

  /** What the kernel has counted is what is read of a rule's expressions. */
  lemma FilledCounts(exprs: seq<Attr>, n: nat, c: Counter)
    requires Tells(exprs, n) && c.packets < U64 && c.bytes < U64
    ensures AllFit(Filled(exprs, c)) && CountFrom(EncodeAll(Filled(exprs, c)), 0) == Counts(c)
  {
    hide CountFrom, EncodeAll, Encode, IsOther, IsCounter, Fits, CounterExpr;
    CounterSize(c);
    CounterExprCounts(c);
    CountIsNotOther();
    var all := Filled(exprs, c);
    assert AllFit(all);
    var i :| 0 <= i < |exprs| && exprs[i] == Count0() && forall j | 0 <= j < i :: IsOther(exprs[j]);
    assert forall j | 0 <= j < i :: all[j] == exprs[j];
    RuleCounts(all, i, c, EncodeAll(all), 0);
  }

  /** In whatever order the kernel gives the parts of a rule back, its chain, its label and
      what it has counted are what is shown of it. */
  lemma StatusReads(body: seq<Attr>, chain: string, tag: string, exprs: seq<Attr>, n: nat, c: Counter)
    requires AllFit(body) && Tells(exprs, n) && Printable(tag) && c.packets < U64 && c.bytes < U64
    requires First(body, 2) == Some(Text(2, chain)) && First(body, 7) == Some(Leaf(7, UserData(tag)))
    requires First(body, 4) == Some(Nest(4, Filled(exprs, c)))
    ensures var p := EncodeAll(body);
      && FindFrom(p, 0, 2) == Some(Ascii(chain) + [0])
      && (var data := FindFrom(p, 0, 7);
          && data.Some? && |data.value| >= 3 && data.value[0] == 0 && data.value[1] > 0
          && LabelOf(data.value) == Ascii(tag)[..if |tag| < 48 then |tag| else 47])
      && (var e := FindFrom(p, 0, 4); e.Some? && CountFrom(e.value, 0) == Counts(c))
  {
    hide CountFrom, FindFrom, First, EncodeAll, Encode, Fits, Tells, Filled, LabelOf, UserData, Ascii;
    var p := EncodeAll(body);
    assert p[0..] == p;
    FindReads(body, p, 0, 2);
    FindReads(body, p, 0, 7);
    FindReads(body, p, 0, 4);
    LabelReads(tag);
    FilledCounts(exprs, n, c);
  }

  /** A counter whose numbers have one byte. */
  function ShortExpr(): Attr {
    Nest(LIST_ELEM, [Leaf(EXPR_NAME, COUNTER),
                     Nest(EXPR_DATA, [Leaf(COUNTER_BYTES, [0]), Leaf(COUNTER_PACKETS, [0])])])
  }

  /** Reading such a counter goes on behind the end of its numbers. */
  lemma ShortCounter()
    ensures CountFrom(EncodeAll([ShortExpr()]), 0).Cut?
  {
    hide CountFrom, CountOf, First, EncodeAll, Encode, Fits;
    var a, b := Leaf(COUNTER_BYTES, [0 as Byte]), Leaf(COUNTER_PACKETS, [0 as Byte]);
    var d := Nest(EXPR_DATA, [a, b]);
    var short := Nest(LIST_ELEM, [Leaf(EXPR_NAME, COUNTER), d]);
    LeafSized(COUNTER_BYTES, [0]);
    LeafSized(COUNTER_PACKETS, [0]);
    LeafSized(EXPR_NAME, COUNTER);
    Size2(a, b);
    NestSized(EXPR_DATA, [a, b]);
    Size2(Leaf(EXPR_NAME, COUNTER), d);
    NestSized(LIST_ELEM, [Leaf(EXPR_NAME, COUNTER), d]);
    FirstOfTwo(a, b);
    FirstOfTwo(Leaf(EXPR_NAME, COUNTER), d);
    NumbersCount(short, [0], [0]);
    EncodeFront(short, []);
    EncodeNone();
    assert [short] + [] == [short];
    var p := EncodeAll([short]);
    assert p[0..] == Encode(short) + [];
    CountStep(short, [], p, 0);
  }
}
