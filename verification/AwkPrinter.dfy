/** Printing expressions with no more brackets than binding strength needs, and the
    proof that the parser reads every tree back. */
module AwkPrinter {
  import opened AwkGrammar

  /** Trees that the grammar has. */
  ghost predicate Good(n: Node) {
    match n
    case Num(_) => true
    case Str(_) => true
    case Re(_) => true
    case Var(_) => true
    case Field(e) => Good(e)
    case Subscr(_, e) => Good(e)
    case IncDec(lv, _, _) => IsLvalue(lv) && Good(lv)
    case Call(b, args) => ArgsFit(b, args) && forall a | a in args :: Good(a)
    case Bin(op, a, b) => op !in {Plain, Matches, Differs} && Good(a) && Good(b)
    case Neg(e) => Good(e)
    case Not(e) => Good(e)
    case Cat(a, b) => Good(a) && Good(b)
    case Match(op, a, b) => op in {Matches, Differs} && Good(a) && Good(b)
    case In(a, _) => Good(a)
    case And(a, b) => Good(a) && Good(b)
    case Or(a, b) => Good(a) && Good(b)
    case Cond(c, a, b) => Good(c) && Good(a) && Good(b)
    case Assign(op, a, b) => op in {Plain, Add, Subtract, Times, Divide, Mod, Pow} && IsLvalue(a) && Good(a) && Good(b)
  }

  /** The lowest level that reads a tree without brackets. */
  function Level(n: Node): nat {
    match n
    case IncDec(_, _, before) => if before then 0 else 1
    case Bin(op, _, _) =>
      if op == Pow then 2 else if op in {Times, Divide, Mod} then 4 else if op in {Add, Subtract} then 5 else 7
    case Neg(_) => 3
    case Not(_) => 3
    case Cat(_, _) => 6
    case Match(_, _, _) => 8
    case In(_, _) => 9
    case And(_, _) => 10
    case Or(_, _) => 11
    case Cond(_, _, _) => 12
    case Assign(_, _, _) => 13
    case _ => 0
  }

  function OpTok(op: Op): Tok {
    match op
    case Add => Sym('+')
    case Subtract => Sym('-')
    case Times => Sym('*')
    case Divide => Sym('/')
    case Mod => Sym('%')
    case Pow => Sym('^')
    case Lt => Sym('<')
    case Le => TLe
    case Eq => TEq
    case Ne => TNe
    case Ge => TGe
    case Gt => Sym('>')
    case Plain => Sym('=')
    case Matches => Sym('~')
    case Differs => TNoMatch
  }

  function AssignTok(op: Op): Tok { if op.Plain? then Sym('=') else TAssignOp(op) }
  function StepTok(up: bool): Tok { if up then TIncr else TDecr }

  function Bracketed(ts: seq<Tok>): seq<Tok> { [Sym('(')] + ts + [Sym(')')] }

  /** A tree as level `k` can read it. */
  function Print(n: Node, k: nat): seq<Tok>
    decreases n, 1
  {
    if Level(n) > k then Bracketed(Raw(n)) else Raw(n)
  }

  /** Whether a text can stand to the right of another operand: not when it starts with
      a sign, which would be read as an operator, or a step, which the left side could take. */
  predicate CanFollow(ts: seq<Tok>) { StartsConcat(Head(ts)) && !Head(ts).TIncr? && !Head(ts).TDecr? }

  function Raw(n: Node): seq<Tok>
    decreases n, 0
  {
    match n
    case Num(v) => [TNum(v)]
    case Str(s) => [TStr(s)]
    case Re(s) => [TEre(s)]
    case Var(s) => [TName(s)]
    case Field(e) => [Sym('$')] + Print(e, 0)
    case Subscr(s, e) => [TName(s), Sym('[')] + Print(e, 13) + [Sym(']')]
    case IncDec(lv, up, before) =>
      if before then [StepTok(up)] + Print(lv, 0) else Print(lv, 0) + [StepTok(up)]
    case Call(b, args) => [TFunc(b), Sym('(')] + PrintArgs(args) + [Sym(')')]
    case Bin(op, a, b) =>
      if op == Pow then Print(a, 1) + [Sym('^')] + (if b.Neg? then [Sym('-')] + Print(b.of, 2) else Print(b, 2))
      else if Level(n) == 7 then Print(a, 6) + [OpTok(op)] + Print(b, 6)
      else Print(a, Level(n)) + [OpTok(op)] + Print(b, Level(n) - 1)
    case Neg(e) => [Sym('-')] + Print(e, 3)
    case Not(e) => [Sym('!')] + Print(e, 3)
    case Cat(a, b) => Print(a, 6) + (if CanFollow(Print(b, 5)) then Print(b, 5) else Bracketed(Raw(b)))
    case Match(op, a, b) => Print(a, 8) + [OpTok(op)] + Print(b, 7)
    case In(a, s) => Print(a, 9) + [TIn, TName(s)]
    case And(a, b) => Print(a, 10) + [TAnd] + Print(b, 9)
    case Or(a, b) => Print(a, 11) + [TOr] + Print(b, 10)
    case Cond(c, a, b) => Print(c, 11) + [Sym('?')] + Print(a, 12) + [Sym(':')] + Print(b, 12)
    case Assign(op, a, b) => Print(a, 0) + [AssignTok(op)] + Print(b, 13)
  }

  function PrintArgs(args: seq<Node>): seq<Tok>
    decreases args, 0
  {
    if args == [] then []
    else if |args| == 1 then Print(args[0], 13)
    else Print(args[0], 13) + [Sym(',')] + PrintArgs(args[1..])
  }

  // ── What a text starts with, and what ends it ──────────────────────

  predicate StartsPrimary(t: Tok) {
    || t.TNum? || t.TStr? || t.TEre? || t.TName? || t.TFunc? || t.TIncr? || t.TDecr? || t == Sym('$') || t == Sym('(')
  }

  lemma {:induction false} Starts(n: Node, k: nat)
    ensures Print(n, k) != []
    ensures StartsPrimary(Print(n, k)[0]) || (k >= 3 && (Print(n, k)[0] == Sym('-') || Print(n, k)[0] == Sym('!')))
    decreases n
  {
    if Level(n) <= k {
      match n
      case IncDec(lv, up, before) => if !before { Starts(lv, 0); }
      case Bin(op, a, b) => Starts(a, if op == Pow then 1 else if Level(n) == 7 then 6 else Level(n));
      case Cat(a, b) => Starts(a, 6);
      case Match(op, a, b) => Starts(a, 8);
      case In(a, s) => Starts(a, 9);
      case And(a, b) => Starts(a, 10);
      case Or(a, b) => Starts(a, 11);
      case Cond(c, a, b) => Starts(c, 11);
      case Assign(op, a, b) => Starts(a, 0);
      case _ =>
    }
  }

  /** A tree that shows no greater-than outside brackets and arguments when level `k` prints it. */
  predicate Bare(n: Node, k: nat)
    decreases n, 1
  {
    Level(n) > k || RawBare(n)
  }

  predicate RawBare(n: Node)
    decreases n, 0
  {
    match n
    case Field(e) => Bare(e, 0)
    case Subscr(_, e) => Bare(e, 13)
    case IncDec(lv, _, _) => Bare(lv, 0)
    case Bin(op, a, b) =>
      if op == Pow then Bare(a, 1) && if b.Neg? then Bare(b.of, 2) else Bare(b, 2)
      else if Level(n) == 7 then op != Gt && Bare(a, 6) && Bare(b, 6)
      else Bare(a, Level(n)) && Bare(b, Level(n) - 1)
    case Neg(e) => Bare(e, 3)
    case Not(e) => Bare(e, 3)
    case Cat(a, b) => Bare(a, 6) && (CanFollow(Print(b, 5)) ==> Bare(b, 5))
    case Match(_, a, b) => Bare(a, 8) && Bare(b, 7)
    case In(a, _) => Bare(a, 9)
    case And(a, b) => Bare(a, 10) && Bare(b, 9)
    case Or(a, b) => Bare(a, 11) && Bare(b, 10)
    case Cond(c, a, b) => Bare(c, 11) && Bare(a, 12) && Bare(b, 12)
    case Assign(_, a, b) => Bare(a, 0) && Bare(b, 13)
    case _ => true
  }

  /** A token that level `k` would go on with; in a print list a greater-than is none. */
  predicate GoesOn(k: nat, t: Tok, pr: bool) {
    || t == Sym('[')
    || (k >= 1 && (t.TIncr? || t.TDecr?))
    || (k >= 2 && t == Sym('^'))
    || (k >= 4 && LeftOp(4, t).Some?) || (k >= 5 && LeftOp(5, t).Some?)
    || (k >= 6 && StartsConcat(t)) || (k >= 7 && RelOp(t, pr).Some?)
    || (k >= 8 && LeftOp(8, t).Some?) || (k >= 9 && t.TIn?)
    || (k >= 10 && LeftOp(10, t).Some?) || (k >= 11 && LeftOp(11, t).Some?)
    || (k >= 12 && t == Sym('?')) || (k >= 13 && AssignOp(t).Some?)
  }

  /** What follows ends whatever level `k` was reading. */
  predicate Stops(k: nat, rest: seq<Tok>, pr: bool) { rest == [] || !GoesOn(k, rest[0], pr) }

  predicate LeftLevel(k: nat) { k in {4, 5, 6, 8, 9, 10, 11} }

  /** What was read by one level is what the next one reads, if nothing goes on. */
  lemma Lift(k: nat, n: Node, ts: seq<Tok>, rest: seq<Tok>, pr: bool)
    requires 1 <= k <= 13 && Parse(k - 1, ts, pr) == Ok(n, rest) && Stops(k, rest, pr)
    requires k == 3 ==> ts != [] && StartsPrimary(ts[0])
    ensures Parse(k, ts, pr) == Ok(n, rest)
  {
  }

  lemma LoopStops(k: nat, n: Node, rest: seq<Tok>, pr: bool)
    requires LeftLevel(k) && Stops(k, rest, pr)
    ensures Loop(k, n, rest, pr) == Ok(n, rest)
  {
  }

  // ── Every tree is read back ────────────────────────────────────────

  function Brackets(n: Node, k: nat): nat { if Level(n) > k then 1 else 0 }

  lemma Regroup(a: seq<Tok>, t: Tok, b: seq<Tok>, rest: seq<Tok>)
    ensures a + [t] + b + rest == a + ([t] + (b + rest))
    ensures ([t] + (b + rest))[1..] == b + rest
  {
  }

  /** Level `k` reads a tree printed for it, whatever follows that it would not go on with. In a print
      list that is a tree without a greater-than outside brackets. */
  lemma {:induction false} Reads(n: Node, k: nat, rest: seq<Tok>, pr: bool)
    requires pr ==> Bare(n, k)
    requires Good(n) && k <= 13 && Stops(k, rest, pr)
    ensures Parse(k, Print(n, k) + rest, pr) == Ok(n, rest)
    decreases n, Brackets(n, k), k, 3
  {
    hide Parse, Loop, Good, GoesOn, Raw;
    if LeftLevel(k) {
      StopsBelow(k, rest, pr);
      LeftReads(n, k, rest, pr);
      LoopStops(k, n, rest, pr);
    } else if k == 0 && Level(n) > 0 {
      BracketedReads(n, rest, pr);
    } else if Level(n) == k {
      OwnLevelReads(n, rest, pr);
    } else {
      StopsBelow(k, rest, pr);
      Reads(n, k - 1, rest, pr);
      Starts(n, k - 1);
      Lift(k, n, Print(n, k) + rest, rest, pr);
    }
  }

  lemma StopsBelow(k: nat, rest: seq<Tok>, pr: bool)
    requires 1 <= k && Stops(k, rest, pr)
    ensures Stops(k - 1, rest, pr)
  {
  }

  lemma {:induction false} BracketedReads(n: Node, rest: seq<Tok>, pr: bool)
    requires Good(n)
    ensures Parse(0, Bracketed(Raw(n)) + rest, pr) == Ok(n, rest)
    decreases n, 1, 0, 0
  {
    hide Parse, Good, Raw, GoesOn;
    var close := [Sym(')')] + rest;
    CloseEnds(rest, false);
    Reads(n, 13, close, false);
    assert Bracketed(Raw(n)) + rest == [Sym('(')] + (Raw(n) + close);
    BracketStep(n, Raw(n) + close, rest, pr);
  }

  lemma CloseEnds(rest: seq<Tok>, pr: bool)
    ensures Stops(13, [Sym(')')] + rest, pr) && Stops(13, [Sym(']')] + rest, pr) && Stops(13, [Sym(',')] + rest, pr)
  {
  }

  lemma BracketStep(n: Node, ts: seq<Tok>, rest: seq<Tok>, pr: bool)
    requires Parse(13, ts, false) == Ok(n, [Sym(')')] + rest)
    ensures Parse(0, [Sym('(')] + ts, pr) == Ok(n, rest)
  {
    hide Loop, Power, Postfix;
    var all := [Sym('(')] + ts;
    assert all[1..] == ts && ([Sym(')')] + rest)[1..] == rest;
    assert Primary(all, pr) == Ok(n, rest);
  }

  lemma {:induction false} OwnLevelReads(n: Node, rest: seq<Tok>, pr: bool)
    requires pr ==> RawBare(n)
    requires Good(n) && !LeftLevel(Level(n)) && Stops(Level(n), rest, pr)
    ensures Parse(Level(n), Raw(n) + rest, pr) == Ok(n, rest)
    decreases n, 0, Level(n), 2
  {
    hide Parse, GoesOn, Raw;
    match Level(n)
    case 0 => PrimaryReads(n, rest, pr);
    case 1 => PostfixReads(n, rest, pr);
    case 2 => PowerReads(n, rest, pr);
    case 3 => UnaryReads(n, rest, pr);
    case 7 => RelReads(n, rest, pr);
    case 12 => CondReads(n, rest, pr);
    case 13 => AssignReads(n, rest, pr);
  }

  lemma {:induction false} PrimaryReads(n: Node, rest: seq<Tok>, pr: bool)
    requires pr ==> RawBare(n)
    requires Good(n) && Level(n) == 0 && Stops(0, rest, pr)
    ensures Parse(0, Raw(n) + rest, pr) == Ok(n, rest)
    decreases n, 0, 0, 1
  {
    hide Parse, Raw, GoesOn;
    match n
    case Field(_) => FieldReads(n, rest, pr);
    case IncDec(_, _, _) => PreReads(n, rest, pr);
    case Subscr(_, _) => SubscrReads(n, rest, pr);
    case Call(_, _) => CallReads(n, rest, pr);
    case _ => LeafReads(n, rest, pr);
  }

  lemma {:induction false} FieldReads(n: Node, rest: seq<Tok>, pr: bool)
    requires pr ==> RawBare(n)
    requires n.Field? && Good(n) && Stops(0, rest, pr)
    ensures Parse(0, Raw(n) + rest, pr) == Ok(n, rest)
    decreases n, 0, 0, 0
  {
    hide Parse, GoesOn;
    Reads(n.of, 0, rest, pr);
    assert Raw(n) + rest == [Sym('$')] + (Print(n.of, 0) + rest);
    FieldStep(n.of, Print(n.of, 0) + rest, rest, pr);
  }

  lemma {:induction false} PreReads(n: Node, rest: seq<Tok>, pr: bool)
    requires pr ==> RawBare(n)
    requires n.IncDec? && n.before && Good(n) && Stops(0, rest, pr)
    ensures Parse(0, Raw(n) + rest, pr) == Ok(n, rest)
    decreases n, 0, 0, 0
  {
    hide Parse, GoesOn;
    Reads(n.lv, 0, rest, pr);
    assert Raw(n) + rest == [StepTok(n.up)] + (Print(n.lv, 0) + rest);
    PreStep(n.lv, n.up, Print(n.lv, 0) + rest, rest, pr);
  }

  lemma {:induction false} SubscrReads(n: Node, rest: seq<Tok>, pr: bool)
    requires pr ==> RawBare(n)
    requires n.Subscr? && Good(n)
    ensures Parse(0, Raw(n) + rest, pr) == Ok(n, rest)
    decreases n, 0, 0, 0
  {
    hide Parse;
    var close := [Sym(']')] + rest;
    Reads(n.of, 13, close, pr);
    assert Raw(n) + rest == [TName(n.name), Sym('[')] + (Print(n.of, 13) + close);
    SubscrStep(n.name, n.of, Print(n.of, 13) + close, rest, pr);
  }

  lemma {:induction false} CallReads(n: Node, rest: seq<Tok>, pr: bool)
    requires n.Call? && Good(n)
    ensures Parse(0, Raw(n) + rest, pr) == Ok(n, rest)
    decreases n, 0, 0, 0
  {
    hide Parse, ArgList, ArgsFit;
    var close := [Sym(')')] + rest;
    ArgsRead(n.args, rest);
    assert Raw(n) + rest == [TFunc(n.fn), Sym('(')] + (PrintArgs(n.args) + close);
    CallStep(n.fn, n.args, PrintArgs(n.args) + close, rest, pr);
  }

  lemma LeafReads(n: Node, rest: seq<Tok>, pr: bool)
    requires (n.Num? || n.Str? || n.Re? || n.Var?) && Stops(0, rest, pr)
    ensures Parse(0, Raw(n) + rest, pr) == Ok(n, rest)
  {
    hide Parse;
    assert (Raw(n) + rest)[1..] == rest;
    LeafStep(n, Raw(n) + rest, rest, pr);
  }

  lemma LeafStep(n: Node, ts: seq<Tok>, rest: seq<Tok>, pr: bool)
    requires n.Num? || n.Str? || n.Re? || n.Var?
    requires ts != [] && [ts[0]] == Raw(n) && ts[1..] == rest && Stops(0, rest, pr)
    ensures Parse(0, ts, pr) == Ok(n, rest)
  {
    hide Loop;
  }

  lemma FieldStep(e: Node, ts: seq<Tok>, rest: seq<Tok>, pr: bool)
    requires Parse(0, ts, pr) == Ok(e, rest)
    ensures Parse(0, [Sym('$')] + ts, pr) == Ok(Field(e), rest)
  {
    hide Loop;
    assert ([Sym('$')] + ts)[1..] == ts;
  }

  lemma PreStep(e: Node, up: bool, ts: seq<Tok>, rest: seq<Tok>, pr: bool)
    requires Parse(0, ts, pr) == Ok(e, rest) && IsLvalue(e)
    ensures Parse(0, [StepTok(up)] + ts, pr) == Ok(IncDec(e, up, true), rest)
  {
    hide Loop;
    assert ([StepTok(up)] + ts)[1..] == ts;
  }

  lemma SubscrStep(s: string, e: Node, ts: seq<Tok>, rest: seq<Tok>, pr: bool)
    requires Parse(13, ts, pr) == Ok(e, [Sym(']')] + rest)
    ensures Parse(0, [TName(s), Sym('[')] + ts, pr) == Ok(Subscr(s, e), rest)
  {
    hide Loop;
    var all := [TName(s), Sym('[')] + ts;
    assert all[2..] == ts && ([Sym(']')] + rest)[1..] == rest;
    assert Primary(all, pr) == Ok(Subscr(s, e), rest);
  }

  lemma CallStep(b: Builtin, args: seq<Node>, ts: seq<Tok>, rest: seq<Tok>, pr: bool)
    requires ArgList(ts) == ArgsOk(args, [Sym(')')] + rest) && ArgsFit(b, args)
    ensures Parse(0, [TFunc(b), Sym('(')] + ts, pr) == Ok(Call(b, args), rest)
  {
    hide Loop, ArgList, ArgsFit;
    var all := [TFunc(b), Sym('(')] + ts;
    assert all[2..] == ts && ([Sym(')')] + rest)[1..] == rest;
    assert Primary(all, pr) == Ok(Call(b, args), rest);
  }

  lemma {:induction false} ArgsRead(args: seq<Node>, rest: seq<Tok>)
    requires forall a | a in args :: Good(a)
    ensures ArgList(PrintArgs(args) + ([Sym(')')] + rest)) == ArgsOk(args, [Sym(')')] + rest)
    decreases args, 3
  {
    var close := [Sym(')')] + rest;
    if args == [] {
      assert PrintArgs(args) + close == close;
    } else {
      MoreArgsRead(args, rest);
      Starts(args[0], 13);
      assert (PrintArgs(args) + close)[0] == Print(args[0], 13)[0];
    }
  }

  lemma {:induction false} MoreArgsRead(args: seq<Node>, rest: seq<Tok>)
    requires args != [] && forall a | a in args :: Good(a)
    ensures MoreArgs(PrintArgs(args) + ([Sym(')')] + rest)) == ArgsOk(args, [Sym(')')] + rest)
    decreases args, 2
  {
    hide Parse, Good;
    var close := [Sym(')')] + rest;
    if |args| == 1 {
      Reads(args[0], 13, close, false);
    } else {
      var more := PrintArgs(args[1..]);
      Reads(args[0], 13, [Sym(',')] + (more + close), false);
      MoreArgsRead(args[1..], rest);
      Regroup(Print(args[0], 13), Sym(','), more, close);
      assert [args[0]] + args[1..] == args;
    }
  }

  lemma {:induction false} PostfixReads(n: Node, rest: seq<Tok>, pr: bool)
    requires pr ==> RawBare(n)
    requires Good(n) && Level(n) == 1 && Stops(1, rest, pr)
    ensures Parse(1, Raw(n) + rest, pr) == Ok(n, rest)
    decreases n, 0, 1, 0
  {
    var t := StepTok(n.up);
    Reads(n.lv, 0, [t] + rest, pr);
    assert Raw(n) + rest == Print(n.lv, 0) + ([t] + rest);
    assert ([t] + rest)[1..] == rest;
    assert Postfix(n, rest) == Ok(n, rest);
    assert Postfix(n.lv, [t] + rest) == Ok(n, rest);
  }

  lemma {:induction false} PowerReads(n: Node, rest: seq<Tok>, pr: bool)
    requires pr ==> RawBare(n)
    requires n.Bin? && n.op == Pow && Good(n) && Stops(2, rest, pr)
    ensures Parse(2, Raw(n) + rest, pr) == Ok(n, rest)
    decreases n, 0, 2, 0
  {
    hide Parse, Power, GoesOn;
    var exp := if n.b.Neg? then [Sym('-')] + Print(n.b.of, 2) else Print(n.b, 2);
    CaretEnds(exp + rest, pr);
    Reads(n.a, 1, [Sym('^')] + (exp + rest), pr);
    Regroup(Print(n.a, 1), Sym('^'), exp, rest);
    if n.b.Neg? {
      Reads(n.b.of, 2, rest, pr);
      assert exp + rest == [Sym('-')] + (Print(n.b.of, 2) + rest);
      SignedPowerStep(n.a, n.b.of, Print(n.b.of, 2) + rest, rest, pr);
    } else {
      Reads(n.b, 2, rest, pr);
      Starts(n.b, 2);
      PlainPowerStep(n.a, n.b, exp + rest, rest, pr);
    }
    CaretStep(n, Print(n.a, 1) + ([Sym('^')] + (exp + rest)), exp + rest, rest, pr);
  }

  lemma CaretEnds(ts: seq<Tok>, pr: bool)
    ensures Stops(1, [Sym('^')] + ts, pr)
  {
  }

  lemma CaretStep(n: Node, ts: seq<Tok>, us: seq<Tok>, rest: seq<Tok>, pr: bool)
    requires n.Bin? && Parse(1, ts, pr) == Ok(n.a, [Sym('^')] + us) && Power(n.a, us, pr) == Ok(n, rest)
    ensures Parse(2, ts, pr) == Ok(n, rest)
  {
    hide Loop, Primary, Power, Postfix;
    assert ([Sym('^')] + us)[1..] == us;
  }

  lemma SignedPowerStep(a: Node, b: Node, ts: seq<Tok>, rest: seq<Tok>, pr: bool)
    requires Parse(2, ts, pr) == Ok(b, rest)
    ensures Power(a, [Sym('-')] + ts, pr) == Ok(Bin(Pow, a, Neg(b)), rest)
  {
    hide Parse;
    assert ([Sym('-')] + ts)[1..] == ts;
  }

  lemma PlainPowerStep(a: Node, b: Node, ts: seq<Tok>, rest: seq<Tok>, pr: bool)
    requires ts != [] && StartsPrimary(ts[0]) && Parse(2, ts, pr) == Ok(b, rest)
    ensures Power(a, ts, pr) == Ok(Bin(Pow, a, b), rest)
  {
    hide Parse;
  }

  lemma {:induction false} UnaryReads(n: Node, rest: seq<Tok>, pr: bool)
    requires pr ==> RawBare(n)
    requires (n.Neg? || n.Not?) && Good(n) && Stops(3, rest, pr)
    ensures Parse(3, Raw(n) + rest, pr) == Ok(n, rest)
    decreases n, 0, 3, 0
  {
    hide Parse, GoesOn;
    Reads(n.of, 3, rest, pr);
    var sign := if n.Neg? then Sym('-') else Sym('!');
    assert Raw(n) + rest == [sign] + (Print(n.of, 3) + rest);
    UnaryStep(n, sign, Print(n.of, 3) + rest, rest, pr);
  }

  lemma UnaryStep(n: Node, sign: Tok, ts: seq<Tok>, rest: seq<Tok>, pr: bool)
    requires (n.Neg? && sign == Sym('-')) || (n.Not? && sign == Sym('!'))
    requires Parse(3, ts, pr) == Ok(n.of, rest)
    ensures Parse(3, [sign] + ts, pr) == Ok(n, rest)
  {
    hide Loop, Primary, Power, Postfix;
    assert ([sign] + ts)[1..] == ts;
  }

  lemma {:induction false} RelReads(n: Node, rest: seq<Tok>, pr: bool)
    requires pr ==> RawBare(n)
    requires Good(n) && Level(n) == 7 && Stops(7, rest, pr)
    ensures Parse(7, Raw(n) + rest, pr) == Ok(n, rest)
    decreases n, 0, 7, 0
  {
    hide Loop, Primary;
    StopsBelow(7, rest, pr);
    Reads(n.a, 6, [OpTok(n.op)] + (Print(n.b, 6) + rest), pr);
    Regroup(Print(n.a, 6), OpTok(n.op), Print(n.b, 6), rest);
    Reads(n.b, 6, rest, pr);
  }

  lemma {:induction false} CondReads(n: Node, rest: seq<Tok>, pr: bool)
    requires pr ==> RawBare(n)
    requires Good(n) && Level(n) == 12 && Stops(12, rest, pr)
    ensures Parse(12, Raw(n) + rest, pr) == Ok(n, rest)
    decreases n, 0, 12, 0
  {
    hide Parse, Good, GoesOn, Raw, Print, Stops;
    GoodCond(n);
    RawCond(n);
    var c, a, b := Print(n.c, 11), Print(n.a, 12), Print(n.b, 12);
    var tail := [Sym(':')] + (b + rest);
    MarksEnd(a + tail, b + rest, pr);
    Reads(n.c, 11, [Sym('?')] + (a + tail), pr);
    Reads(n.a, 12, tail, pr);
    Reads(n.b, 12, rest, pr);
    assert c + [Sym('?')] + a + [Sym(':')] + b + rest == c + ([Sym('?')] + (a + tail));
    CondStep(n.c, n.a, n.b, c + ([Sym('?')] + (a + tail)), a + tail, b + rest, rest, pr);
  }

  lemma RawCond(n: Node)
    requires n.Cond? && Good(n)
    ensures Raw(n) == Print(n.c, 11) + [Sym('?')] + Print(n.a, 12) + [Sym(':')] + Print(n.b, 12)
  {
    hide Print;
  }

  lemma MarksEnd(ts: seq<Tok>, us: seq<Tok>, pr: bool)
    ensures Stops(11, [Sym('?')] + ts, pr) && Stops(12, [Sym(':')] + us, pr)
  {
  }

  lemma CondStep(c: Node, a: Node, b: Node, ts: seq<Tok>, us: seq<Tok>, vs: seq<Tok>, rest: seq<Tok>, pr: bool)
    requires Parse(11, ts, pr) == Ok(c, [Sym('?')] + us)
    requires Parse(12, us, pr) == Ok(a, [Sym(':')] + vs) && Parse(12, vs, pr) == Ok(b, rest)
    ensures Parse(12, ts, pr) == Ok(Cond(c, a, b), rest)
  {
    hide Loop, Primary;
    assert ([Sym('?')] + us)[1..] == us && ([Sym(':')] + vs)[1..] == vs;
  }

  lemma GoodCond(n: Node)
    requires Good(n) && Level(n) == 12
    ensures Good(n.c) && Good(n.a) && Good(n.b)
  {
  }

  lemma {:induction false} AssignReads(n: Node, rest: seq<Tok>, pr: bool)
    requires pr ==> RawBare(n)
    requires Good(n) && Level(n) == 13 && Stops(13, rest, pr)
    ensures Parse(13, Raw(n) + rest, pr) == Ok(n, rest)
    decreases n, 0, 13, 0
  {
    hide Loop, Primary;
    var t := AssignTok(n.op);
    var tail := [t] + (Print(n.b, 13) + rest);
    assert Level(n.a) == 0;
    Reads(n.a, 12, tail, pr);
    Regroup(Print(n.a, 0), t, Print(n.b, 13), rest);
    Reads(n.b, 13, rest, pr);
  }

  /** At a left-associative level a printed tree is read as the first operand of what follows. */
  lemma {:induction false} LeftReads(n: Node, k: nat, rest: seq<Tok>, pr: bool)
    requires pr ==> Bare(n, k)
    requires LeftLevel(k) && Good(n) && Stops(k - 1, rest, pr)
    ensures Parse(k, Print(n, k) + rest, pr) == Loop(k, n, rest, pr)
    decreases n, Brackets(n, k), k, 1
  {
    hide Good, Raw, Primary;
    if Level(n) == k {
      LeftNodeReads(n, rest, pr);
    } else {
      Reads(n, k - 1, rest, pr);
    }
  }

  lemma {:induction false} LeftNodeReads(n: Node, rest: seq<Tok>, pr: bool)
    requires pr ==> RawBare(n)
    requires LeftLevel(Level(n)) && Good(n) && Stops(Level(n) - 1, rest, pr)
    ensures Parse(Level(n), Raw(n) + rest, pr) == Loop(Level(n), n, rest, pr)
    decreases n, 0, Level(n), 0
  {
    hide Parse, Loop, Good, Raw, GoesOn;
    GoodParts(n);
    if n.Cat? {
      CatNodeReads(n, rest, pr);
    } else if n.In? {
      InNodeReads(n, rest, pr);
    } else {
      BinNodeReads(n, rest, pr);
    }
  }

  lemma {:induction false} CatNodeReads(n: Node, rest: seq<Tok>, pr: bool)
    requires pr ==> RawBare(n)
    requires n.Cat? && Good(n.a) && Good(n.b) && Stops(5, rest, pr)
    ensures Parse(6, Raw(n) + rest, pr) == Loop(6, n, rest, pr)
    decreases n, 0, 0, 0
  {
    hide Parse, Loop, Good;
    var right := if CanFollow(Print(n.b, 5)) then Print(n.b, 5) else Bracketed(Raw(n.b));
    CatReads(n.b, rest, pr);
    LeftReads(n.a, 6, right + rest, pr);
    CatStep(n.a, n.b, right + rest, rest, pr);
    assert Raw(n) + rest == Print(n.a, 6) + (right + rest);
  }

  lemma {:induction false} InNodeReads(n: Node, rest: seq<Tok>, pr: bool)
    requires pr ==> RawBare(n)
    requires n.In? && Good(n.a)
    ensures Parse(9, Raw(n) + rest, pr) == Loop(9, n, rest, pr)
    decreases n, 0, 0, 0
  {
    hide Parse, Loop, Good;
    var tail := [TIn, TName(n.name)] + rest;
    LeftReads(n.a, 9, tail, pr);
    InStep(n.a, n.name, rest, pr);
    assert Raw(n) + rest == Print(n.a, 9) + tail;
  }

  function SplitTok(n: Node): Tok
    requires n.Bin? || n.Match? || n.And? || n.Or?
  {
    if n.And? then TAnd else if n.Or? then TOr else OpTok(n.op)
  }

  lemma {:induction false} BinNodeReads(n: Node, rest: seq<Tok>, pr: bool)
    requires pr ==> RawBare(n)
    requires Level(n) in {4, 5, 8, 10, 11} && Good(n) && Good(n.a) && Good(n.b) && Stops(Level(n) - 1, rest, pr)
    ensures Parse(Level(n), Raw(n) + rest, pr) == Loop(Level(n), n, rest, pr)
    decreases n, 0, 0, 0
  {
    hide Parse, Loop, Good, Raw, GoesOn;
    var k, t := Level(n), SplitTok(n);
    var right := Print(n.b, k - 1);
    SplitEnds(n, right + rest, pr);
    LeftReads(n.a, k, [t] + (right + rest), pr);
    Reads(n.b, k - 1, rest, pr);
    LeftStep(n, t, right + rest, rest, pr);
    RawSplit(n);
    Regroup(Print(n.a, k), t, right, rest);
  }

  /** The operator of a left-associative node ends every level below its own. */
  lemma SplitEnds(n: Node, ts: seq<Tok>, pr: bool)
    requires Level(n) in {4, 5, 8, 10, 11} && Good(n)
    ensures Stops(Level(n) - 1, [SplitTok(n)] + ts, pr)
  {
  }

  lemma RawSplit(n: Node)
    requires Level(n) in {4, 5, 8, 10, 11}
    ensures Raw(n) == Print(n.a, Level(n)) + [SplitTok(n)] + Print(n.b, Level(n) - 1)
  {
  }

  lemma GoodParts(n: Node)
    requires Good(n) && LeftLevel(Level(n))
    ensures Good(n.a) && (!n.In? ==> Good(n.b))
  {
  }

  lemma CatStep(a: Node, b: Node, ts: seq<Tok>, rest: seq<Tok>, pr: bool)
    requires ts != [] && StartsConcat(ts[0]) && Parse(5, ts, pr) == Ok(b, rest)
    ensures Loop(6, a, ts, pr) == Loop(6, Cat(a, b), rest, pr)
  {
    hide Parse;
  }

  lemma InStep(a: Node, s: string, rest: seq<Tok>, pr: bool)
    ensures Loop(9, a, [TIn, TName(s)] + rest, pr) == Loop(9, In(a, s), rest, pr)
  {
    hide Parse;
    assert ([TIn, TName(s)] + rest)[2..] == rest;
  }

  lemma LeftStep(n: Node, t: Tok, ts: seq<Tok>, rest: seq<Tok>, pr: bool)
    requires Good(n) && Level(n) in {4, 5, 8, 10, 11}
    requires t == SplitTok(n)
    requires Parse(Level(n) - 1, ts, pr) == Ok(n.b, rest)
    ensures Loop(Level(n), n.a, [t] + ts, pr) == Loop(Level(n), n, rest, pr)
  {
    hide Parse;
    var k := Level(n);
    assert ([t] + ts)[1..] == ts;
    assert LeftOp(k, t).Some? && LeftNode(k, LeftOp(k, t).value, n.a, n.b) == n;
  }

  /** The right side of a concatenation is read by the level below. */
  lemma {:induction false} CatReads(b: Node, rest: seq<Tok>, pr: bool)
    requires pr && CanFollow(Print(b, 5)) ==> Bare(b, 5)
    requires Good(b) && Stops(5, rest, pr)
    ensures var right := if CanFollow(Print(b, 5)) then Print(b, 5) else Bracketed(Raw(b));
      && right != [] && CanFollow(right) && Parse(5, right + rest, pr) == Ok(b, rest)
    decreases b, 1, 14, 0
  {
    hide Parse, Good, Raw;
    if CanFollow(Print(b, 5)) {
      Reads(b, 5, rest, pr);
    } else {
      var ts := Bracketed(Raw(b)) + rest;
      BracketedReads(b, rest, pr);
      for k := 1 to 6
        invariant Parse(k - 1, ts, pr) == Ok(b, rest)
      {
        StopsUpTo(k, rest, pr);
        Lift(k, b, ts, rest, pr);
      }
    }
  }

  lemma StopsUpTo(k: nat, rest: seq<Tok>, pr: bool)
    requires k <= 5 && Stops(5, rest, pr)
    ensures Stops(k, rest, pr)
  {
  }

  /** Printing with only the brackets that are needed, then parsing, is the identity:
      all tokens are used and the same tree comes back. */
  lemma ReadsBack(n: Node)
    requires Good(n)
    ensures Parse(13, Print(n, 13), false) == Ok(n, [])
  {
    Reads(n, 13, [], false);
    assert Print(n, 13) + [] == Print(n, 13);
  }

  /** In a print list an expression is read up to a greater-than, which is left to redirect. */
  lemma RedirectionStops(n: Node, tail: seq<Tok>)
    requires Good(n) && Bare(n, 13)
    ensures Parse(13, Print(n, 13) + ([Sym('>')] + tail), true) == Ok(n, [Sym('>')] + tail)
  {
    assert ([Sym('>')] + tail)[0] == Sym('>');
    Reads(n, 13, [Sym('>')] + tail, true);
  }

  /** Inside brackets every expression is read whole there, a greater-than being a comparison. */
  lemma BracketsCompare(n: Node, tail: seq<Tok>)
    requires Good(n)
    ensures Parse(13, Bracketed(Raw(n)) + ([Sym('>')] + tail), true) == Ok(n, [Sym('>')] + tail)
  {
    hide Parse, Good, Raw;
    var rest := [Sym('>')] + tail;
    var ts := Bracketed(Raw(n)) + rest;
    assert rest[0] == Sym('>');
    BracketedReads(n, rest, true);
    for k := 1 to 14
      invariant Parse(k - 1, ts, true) == Ok(n, rest)
    {
      Lift(k, n, ts, rest, true);
    }
  }
}
