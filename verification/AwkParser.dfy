/** The recursive-descent parser over its global state: the current token and whether a
    print list is being read. Each procedure is proved to read what its level reads. */
module AwkParser {
  import opened Optional
  import opened AwkGrammar

  class Parser {
    const toks: seq<Tok>
    var pos: nat
    var inPrint: bool

    ghost predicate Valid()
      reads `pos
    {
      pos <= |toks|
    }

    ghost function Rest(): (r: seq<Tok>)
      reads `pos
      requires Valid()
      ensures |r| == |toks| - pos
    {
      toks[pos..]
    }

    /** How a procedure came out: its tree and the tokens it left, or a syntax error, which
        ends the program. The print flag is as the caller had it. */
    ghost predicate Gave(n: Option<Node>, r: Result, pr: bool)
      reads this
    {
      && Valid()
      && (n.Some? ==> r == Ok(n.value, Rest()) && inPrint == pr)
      && (n.None? ==> r.Err?)
    }

    constructor (toks: seq<Tok>)
      ensures Valid() && this.toks == toks && Rest() == toks && !inPrint
    {
      this.toks := toks;
      pos := 0;
      inPrint := false;
    }

    method Now() returns (t: Tok)
      requires Valid()
      ensures t == Head(Rest())
    {
      t := if pos < |toks| then toks[pos] else TEof;
    }

    method Lex()
      requires Valid()
      modifies `pos
      ensures Valid() && Rest() == if old(Rest()) == [] then [] else old(Rest())[1..]
      ensures old(Rest()) != [] ==> |toks| - pos < |toks| - old(pos)
    {
      if pos < |toks| { pos := pos + 1; }
    }

    /** The next token has to be `t`. */
    method Wants(t: Tok) returns (ok: bool)
      requires Valid() && t != TEof
      modifies `pos
      ensures Valid() && ok == (Head(old(Rest())) == t)
      ensures ok ==> old(Rest()) != [] && Rest() == old(Rest())[1..]
    {
      var now := Now();
      ok := now == t;
      if ok { Lex(); }
    }

    method ReadArgs() returns (args: Option<seq<Node>>)
      requires Valid() && !inPrint
      modifies `pos, `inPrint
      ensures Valid() && (args.None? ==> ArgList(old(Rest())).ArgsErr?)
      ensures args.Some? ==> ArgList(old(Rest())) == ArgsOk(args.value, Rest()) && !inPrint
      decreases |toks| - pos, 15
    {
      hide Parse, MoreArgs, Behind;
      var t := Now();
      if t == Sym(')') { return Some([]); }
      ghost var all := Rest();
      var got: seq<Node> := [];
      BehindNone(MoreArgs(all));
      while true
        invariant Valid() && !inPrint && |Rest()| <= |all|
        invariant MoreArgs(all) == Behind(got, MoreArgs(Rest()))
        decreases |toks| - pos
      {
        hide Parse, MoreArgs, Behind;
        MoreArgsStep(Rest());
        var e := ReadExpr();
        if e.None? {
          BehindErr(got);
          return None;
        }
        BehindTwice(got, e.value, MoreArgs(if Rest() == [] then [] else Rest()[1..]));
        BehindOne(got, e.value, Rest());
        got := got + [e.value];
        t := Now();
        if t != Sym(',') { return Some(got); }
        Lex();
      }
    }

    method ReadCall(fn: Builtin) returns (n: Option<Node>)
      requires Valid() && Rest() != [] && Rest()[0] == TFunc(fn)
      modifies `pos, `inPrint
      ensures Gave(n, Primary(old(Rest()), old(inPrint)), old(inPrint))
      decreases |toks| - pos, 0
    {
      hide Parse, ArgList, ArgsFit, Primary;
      CallReads(Rest(), fn, inPrint);
      Lex();
      var t := Now();
      if t != Sym('(') {
        if fn.Length? { return Some(Call(fn, [])); }
        return None;
      }
      Lex();
      var saved := inPrint;
      inPrint := false;
      var args := ReadArgs();
      if args.None? { return None; }
      inPrint := saved;
      var closed := Wants(Sym(')'));
      if !closed || !ArgsFit(fn, args.value) { return None; }
      n := Some(Call(fn, args.value));
    }

    method ReadPrimary() returns (n: Option<Node>)
      requires Valid()
      modifies `pos, `inPrint
      ensures Gave(n, Parse(0, old(Rest()), old(inPrint)), old(inPrint))
      decreases |toks| - pos, 1
    {
      hide ArgList, ArgsFit, Loop, Power, Postfix;
      var t := Now();
      ghost var all := Rest();
      assert Parse(0, all, inPrint) == Primary(all, inPrint);
      match t
      case TNum(v) => Lex(); n := Some(Num(v));
      case TStr(s) => Lex(); n := Some(Str(s));
      case TEre(s) => Lex(); n := Some(Re(s));
      case TIncr => n := ReadStep(true);
      case TDecr => n := ReadStep(false);
      case TFunc(fn) => n := ReadCall(fn);
      case TName(s) => n := ReadName(s);
      case Sym(c) =>
        if c == '$' {
          Lex();
          n := ReadPrimary();
          if n.Some? { n := Some(Field(n.value)); }
        } else if c == '(' {
          n := ReadBracket();
        } else {
          n := None;
        }
      case _ => n := None;
    }

    method ReadStep(up: bool) returns (n: Option<Node>)
      requires Valid() && Rest() != [] && Rest()[0] == (if up then TIncr else TDecr)
      modifies `pos, `inPrint
      ensures Gave(n, Primary(old(Rest()), old(inPrint)), old(inPrint))
      decreases |toks| - pos, 0
    {
      hide Parse;
      Lex();
      var lv := ReadPrimary();
      if lv.None? || !IsLvalue(lv.value) { return None; }
      n := Some(IncDec(lv.value, up, true));
    }

    method ReadName(s: string) returns (n: Option<Node>)
      requires Valid() && Rest() != [] && Rest()[0] == TName(s)
      modifies `pos, `inPrint
      ensures Gave(n, Primary(old(Rest()), old(inPrint)), old(inPrint))
      decreases |toks| - pos, 0
    {
      hide Parse, Primary, Parser.Rest;
      NameReads(Rest(), s, inPrint);
      Lex();
      var t := Now();
      if t != Sym('[') { return Some(Var(s)); }
      Lex();
      var index := ReadExpr();
      if index.None? { return None; }
      var closed := Wants(Sym(']'));
      n := if closed then Some(Subscr(s, index.value)) else None;
    }

    method ReadBracket() returns (n: Option<Node>)
      requires Valid() && Rest() != [] && Rest()[0] == Sym('(')
      modifies `pos, `inPrint
      ensures Gave(n, Primary(old(Rest()), old(inPrint)), old(inPrint))
      decreases |toks| - pos, 0
    {
      hide Parse;
      Lex();
      var saved := inPrint;
      inPrint := false;
      n := ReadExpr();
      if n.None? { return; }
      inPrint := saved;
      var closed := Wants(Sym(')'));
      if !closed { n := None; }
    }

    method ReadPostfix() returns (n: Option<Node>)
      requires Valid()
      modifies `pos, `inPrint
      ensures Gave(n, Parse(1, old(Rest()), old(inPrint)), old(inPrint))
      decreases |toks| - pos, 2
    {
      hide Loop, Primary, Power;
      ghost var all, pr := Rest(), inPrint;
      n := ReadPrimary();
      if n.None? { return; }
      assert Parse(1, all, pr) == Postfix(n.value, Rest());
      var t := Now();
      while t.TIncr? || t.TDecr?
        invariant Valid() && n.Some? && inPrint == pr && t == Head(Rest())
        invariant Parse(1, all, pr) == Postfix(n.value, Rest())
        decreases |toks| - pos
      {
        hide Parse;
        if !IsLvalue(n.value) { break; }
        Lex();
        n := Some(IncDec(n.value, t.TIncr?, false));
        t := Now();
      }
    }

    method ReadPower() returns (n: Option<Node>)
      requires Valid()
      modifies `pos, `inPrint
      ensures Gave(n, Parse(2, old(Rest()), old(inPrint)), old(inPrint))
      decreases |toks| - pos, 3
    {
      hide Loop, Primary, Postfix;
      ghost var all, pr := Rest(), inPrint;
      n := ReadPostfix();
      if n.None? { return; }
      var t := Now();
      if t != Sym('^') { return; }
      var base := n.value;
      Lex();
      assert Parse(2, all, pr) == Power(base, Rest(), pr);
      t := Now();
      if t == Sym('-') {
        Lex();
        n := ReadPower();
        if n.Some? { n := Some(Bin(Pow, base, Neg(n.value))); }
      } else {
        n := ReadPower();
        if n.Some? { n := Some(Bin(Pow, base, n.value)); }
      }
    }

    method ReadUnary() returns (n: Option<Node>)
      requires Valid()
      modifies `pos, `inPrint
      ensures Gave(n, Parse(3, old(Rest()), old(inPrint)), old(inPrint))
      decreases |toks| - pos, 4
    {
      hide Loop, Primary, Postfix, Power;
      var t := Now();
      if t == Sym('!') {
        Lex();
        n := ReadUnary();
        if n.Some? { n := Some(Not(n.value)); }
      } else if t == Sym('-') {
        Lex();
        n := ReadUnary();
        if n.Some? { n := Some(Neg(n.value)); }
      } else if t == Sym('+') {
        Lex();
        n := ReadUnary();
      } else {
        n := ReadPower();
      }
    }

    method ReadMul() returns (n: Option<Node>)
      requires Valid()
      modifies `pos, `inPrint
      ensures Gave(n, Parse(4, old(Rest()), old(inPrint)), old(inPrint))
      decreases |toks| - pos, 5
    {
      hide Parse, Loop, Parser.Rest;
      ghost var all, pr := Rest(), inPrint;
      LevelStep(4, all, pr);
      n := ReadUnary();
      if n.None? { return; }
      var t := Now();
      while t == Sym('*') || t == Sym('/') || t == Sym('%')
        invariant Valid() && n.Some? && inPrint == pr && t == Head(Rest()) && |Rest()| < |all|
        invariant Parse(4, all, pr) == Loop(4, n.value, Rest(), pr)
        decreases |toks| - pos
      {
        hide Parse, Loop, Parser.Rest;
        LoopStep(4, n.value, Rest(), pr);
        Lex();
        var b := ReadUnary();
        if b.None? { return None; }
        n := Some(Bin(if t == Sym('*') then Times else if t == Sym('/') then Divide else Mod, n.value, b.value));
        t := Now();
      }
      LoopEnds(4, n.value, Rest(), pr);
    }

    method ReadAdd() returns (n: Option<Node>)
      requires Valid()
      modifies `pos, `inPrint
      ensures Gave(n, Parse(5, old(Rest()), old(inPrint)), old(inPrint))
      decreases |toks| - pos, 6
    {
      hide Parse, Loop, Parser.Rest;
      ghost var all, pr := Rest(), inPrint;
      LevelStep(5, all, pr);
      n := ReadMul();
      if n.None? { return; }
      var t := Now();
      while t == Sym('+') || t == Sym('-')
        invariant Valid() && n.Some? && inPrint == pr && t == Head(Rest()) && |Rest()| < |all|
        invariant Parse(5, all, pr) == Loop(5, n.value, Rest(), pr)
        decreases |toks| - pos
      {
        hide Parse, Loop, Parser.Rest;
        LoopStep(5, n.value, Rest(), pr);
        Lex();
        var b := ReadMul();
        if b.None? { return None; }
        n := Some(Bin(if t == Sym('+') then Add else Subtract, n.value, b.value));
        t := Now();
      }
      LoopEnds(5, n.value, Rest(), pr);
    }

    method ReadConcat() returns (n: Option<Node>)
      requires Valid()
      modifies `pos, `inPrint
      ensures Gave(n, Parse(6, old(Rest()), old(inPrint)), old(inPrint))
      decreases |toks| - pos, 7
    {
      hide Parse, Loop, Parser.Rest;
      ghost var all, pr := Rest(), inPrint;
      LevelStep(6, all, pr);
      n := ReadAdd();
      if n.None? { return; }
      var t := Now();
      while StartsConcat(t)
        invariant Valid() && n.Some? && inPrint == pr && t == Head(Rest()) && |Rest()| < |all|
        invariant Parse(6, all, pr) == Loop(6, n.value, Rest(), pr)
        decreases |toks| - pos
      {
        hide Parse, Loop, Parser.Rest;
        ConcatStep(n.value, Rest(), pr);
        var b := ReadAdd();
        if b.None? { return None; }
        n := Some(Cat(n.value, b.value));
        t := Now();
      }
      LoopEnds(6, n.value, Rest(), pr);
    }

    method ReadRel() returns (n: Option<Node>)
      requires Valid()
      modifies `pos, `inPrint
      ensures Gave(n, Parse(7, old(Rest()), old(inPrint)), old(inPrint))
      decreases |toks| - pos, 8
    {
      hide Loop, Primary, Postfix, Power;
      n := ReadConcat();
      if n.None? { return; }
      var t := Now();
      var op;
      match t {
        case TLe => op := Le;
        case TEq => op := Eq;
        case TNe => op := Ne;
        case TGe => op := Ge;
        case Sym(c) =>
          if c == '<' { op := Lt; } else if c == '>' && !inPrint { op := Gt; } else { return; }
        case _ => return;
      }
      Lex();
      var b := ReadConcat();
      n := if b.Some? then Some(Bin(op, n.value, b.value)) else None;
    }

    method ReadMatch() returns (n: Option<Node>)
      requires Valid()
      modifies `pos, `inPrint
      ensures Gave(n, Parse(8, old(Rest()), old(inPrint)), old(inPrint))
      decreases |toks| - pos, 9
    {
      hide Parse, Loop, Parser.Rest;
      ghost var all, pr := Rest(), inPrint;
      LevelStep(8, all, pr);
      n := ReadRel();
      if n.None? { return; }
      var t := Now();
      while t == Sym('~') || t.TNoMatch?
        invariant Valid() && n.Some? && inPrint == pr && t == Head(Rest()) && |Rest()| < |all|
        invariant Parse(8, all, pr) == Loop(8, n.value, Rest(), pr)
        decreases |toks| - pos
      {
        hide Parse, Loop, Parser.Rest;
        LoopStep(8, n.value, Rest(), pr);
        Lex();
        var b := ReadRel();
        if b.None? { return None; }
        n := Some(Match(if t == Sym('~') then Matches else Differs, n.value, b.value));
        t := Now();
      }
      LoopEnds(8, n.value, Rest(), pr);
    }

    method ReadIn() returns (n: Option<Node>)
      requires Valid()
      modifies `pos, `inPrint
      ensures Gave(n, Parse(9, old(Rest()), old(inPrint)), old(inPrint))
      decreases |toks| - pos, 10
    {
      hide Parse, Loop, Parser.Rest;
      ghost var all, pr := Rest(), inPrint;
      LevelStep(9, all, pr);
      n := ReadMatch();
      if n.None? { return; }
      var t := Now();
      while t.TIn?
        invariant Valid() && n.Some? && inPrint == pr && t == Head(Rest()) && |Rest()| < |all|
        invariant Parse(9, all, pr) == Loop(9, n.value, Rest(), pr)
        decreases |toks| - pos
      {
        hide Parse, Loop, Parser.Rest;
        InLoopStep(n.value, Rest(), pr);
        Lex();
        t := Now();
        if !t.TName? { return None; }
        n := Some(In(n.value, t.name));
        Lex();
        t := Now();
      }
      LoopEnds(9, n.value, Rest(), pr);
    }

    method ReadAnd() returns (n: Option<Node>)
      requires Valid()
      modifies `pos, `inPrint
      ensures Gave(n, Parse(10, old(Rest()), old(inPrint)), old(inPrint))
      decreases |toks| - pos, 11
    {
      hide Parse, Loop, Parser.Rest;
      ghost var all, pr := Rest(), inPrint;
      LevelStep(10, all, pr);
      n := ReadIn();
      if n.None? { return; }
      var t := Now();
      while t.TAnd?
        invariant Valid() && n.Some? && inPrint == pr && t == Head(Rest()) && |Rest()| < |all|
        invariant Parse(10, all, pr) == Loop(10, n.value, Rest(), pr)
        decreases |toks| - pos
      {
        hide Parse, Loop, Parser.Rest;
        LoopStep(10, n.value, Rest(), pr);
        Lex();
        var b := ReadIn();
        if b.None? { return None; }
        n := Some(And(n.value, b.value));
        t := Now();
      }
      LoopEnds(10, n.value, Rest(), pr);
    }

    method ReadOr() returns (n: Option<Node>)
      requires Valid()
      modifies `pos, `inPrint
      ensures Gave(n, Parse(11, old(Rest()), old(inPrint)), old(inPrint))
      decreases |toks| - pos, 12
    {
      hide Parse, Loop, Parser.Rest;
      ghost var all, pr := Rest(), inPrint;
      LevelStep(11, all, pr);
      n := ReadAnd();
      if n.None? { return; }
      var t := Now();
      while t.TOr?
        invariant Valid() && n.Some? && inPrint == pr && t == Head(Rest()) && |Rest()| < |all|
        invariant Parse(11, all, pr) == Loop(11, n.value, Rest(), pr)
        decreases |toks| - pos
      {
        hide Parse, Loop, Parser.Rest;
        LoopStep(11, n.value, Rest(), pr);
        Lex();
        var b := ReadAnd();
        if b.None? { return None; }
        n := Some(Or(n.value, b.value));
        t := Now();
      }
      LoopEnds(11, n.value, Rest(), pr);
    }

    method ReadTernary() returns (n: Option<Node>)
      requires Valid()
      modifies `pos, `inPrint
      ensures Gave(n, Parse(12, old(Rest()), old(inPrint)), old(inPrint))
      decreases |toks| - pos, 13
    {
      hide Parse;
      CondReads(Rest(), inPrint);
      n := ReadOr();
      if n.None? { return; }
      var t := Now();
      if t != Sym('?') { return; }
      var c := n.value;
      Lex();
      var a := ReadTernary();
      if a.None? { return None; }
      var colon := Wants(Sym(':'));
      if !colon { return None; }
      var b := ReadTernary();
      n := if b.Some? then Some(Cond(c, a.value, b.value)) else None;
    }

    method ReadExpr() returns (n: Option<Node>)
      requires Valid()
      modifies `pos, `inPrint
      ensures Gave(n, Parse(13, old(Rest()), old(inPrint)), old(inPrint))
      decreases |toks| - pos, 14
    {
      hide Loop, Primary, Postfix, Power;
      n := ReadTernary();
      if n.None? { return; }
      var t := Now();
      var op;
      match t {
        case Sym(c) => if c == '=' { op := Plain; } else { return; }
        case TAssignOp(o) => op := o;
        case _ => return;
      }
      if !IsLvalue(n.value) { return None; }
      Lex();
      var b := ReadExpr();
      n := if b.Some? then Some(Assign(op, n.value, b.value)) else None;
    }
  }

  // ── One step of each loop ──────────────────────────────────────────

  function Behind(got: seq<Node>, a: Args): Args {
    match a
    case ArgsErr => ArgsErr
    case ArgsOk(args, rest) => ArgsOk(got + args, rest)
  }

  lemma BehindNone(a: Args)
    ensures Behind([], a) == a
  {
    if a.ArgsOk? { assert [] + a.args == a.args; }
  }

  lemma BehindErr(got: seq<Node>)
    ensures Behind(got, ArgsErr) == ArgsErr
  {
  }

  lemma BehindOne(got: seq<Node>, e: Node, rest: seq<Tok>)
    ensures Behind(got, ArgsOk([e], rest)) == ArgsOk(got + [e], rest)
  {
  }

  lemma BehindTwice(got: seq<Node>, e: Node, a: Args)
    ensures Behind(got, Behind([e], a)) == Behind(got + [e], a)
  {
    if a.ArgsOk? { assert got + ([e] + a.args) == got + [e] + a.args; }
  }

  /** What a function name leads to, token by token. */
  lemma NameReads(ts: seq<Tok>, s: string, pr: bool)
    requires ts != [] && ts[0] == TName(s)
    ensures Head(ts[1..]) != Sym('[') ==> Primary(ts, pr) == Ok(Var(s), ts[1..])
    ensures Head(ts[1..]) == Sym('[') ==>
      var r := Expect(Parse(13, ts[1..][1..], pr), Sym(']'));
      Primary(ts, pr) == if r.Ok? then Ok(Subscr(s, r.n), r.rest) else Err
  {
    hide Parse;
    if |ts| >= 2 { assert ts[1..][1..] == ts[2..]; }
  }

  lemma CallReads(ts: seq<Tok>, fn: Builtin, pr: bool)
    requires ts != [] && ts[0] == TFunc(fn)
    ensures var us := ts[1..];
      Primary(ts, pr) ==
        if Head(us) != Sym('(') then if fn.Length? then Ok(Call(fn, []), us) else Err
        else
          match ArgList(us[1..])
          case ArgsErr => Err
          case ArgsOk(args, rest) =>
            if Head(rest) == Sym(')') && ArgsFit(fn, args) then Ok(Call(fn, args), rest[1..]) else Err
  {
    hide Parse, ArgList, ArgsFit;
    if |ts| >= 2 { assert ts[1..][1..] == ts[2..]; }
  }

  lemma MoreArgsStep(ts: seq<Tok>)
    ensures var e := Parse(13, ts, false);
      MoreArgs(ts) ==
        if e.Err? then ArgsErr
        else if Head(e.rest) == Sym(',') then Behind([e.n], MoreArgs(e.rest[1..]))
        else ArgsOk([e.n], e.rest)
  {
    hide Parse;
  }

  lemma CondReads(ts: seq<Tok>, pr: bool)
    ensures var r := Parse(11, ts, pr);
      Parse(12, ts, pr) ==
        if r.Err? || Head(r.rest) != Sym('?') then r
        else
          var a := Parse(12, r.rest[1..], pr);
          if a.Err? || Head(a.rest) != Sym(':') then Err
          else
            var b := Parse(12, a.rest[1..], pr);
            if b.Ok? then Ok(Cond(r.n, a.n, b.n), b.rest) else Err
  {
    hide Loop, Primary, Postfix, Power;
  }

  lemma LevelStep(k: nat, ts: seq<Tok>, pr: bool)
    requires k in {4, 5, 6, 8, 9, 10, 11}
    ensures var r := Parse(k - 1, ts, pr);
      Parse(k, ts, pr) == if r.Ok? then Loop(k, r.n, r.rest, pr) else Err
  {
    hide Loop, Primary, Postfix, Power;
  }

  lemma LoopStep(k: nat, n: Node, ts: seq<Tok>, pr: bool)
    requires k in {4, 5, 8, 10, 11} && ts != [] && LeftOp(k, ts[0]).Some?
    ensures var q := Parse(k - 1, ts[1..], pr);
      Loop(k, n, ts, pr) == if q.Ok? then Loop(k, LeftNode(k, LeftOp(k, ts[0]).value, n, q.n), q.rest, pr) else Err
  {
    hide Parse;
  }

  lemma ConcatStep(n: Node, ts: seq<Tok>, pr: bool)
    requires ts != [] && StartsConcat(ts[0])
    ensures var q := Parse(5, ts, pr);
      Loop(6, n, ts, pr) == if q.Ok? then Loop(6, Cat(n, q.n), q.rest, pr) else Err
  {
    hide Parse;
  }

  lemma InLoopStep(n: Node, ts: seq<Tok>, pr: bool)
    requires ts != [] && ts[0].TIn?
    ensures Loop(9, n, ts, pr) ==
      if Head(ts[1..]).TName? then Loop(9, In(n, ts[1].name), ts[1..][1..], pr) else Err
  {
    hide Parse;
    if |ts| >= 2 { assert ts[1..][1..] == ts[2..]; }
  }

  lemma LoopEnds(k: nat, n: Node, ts: seq<Tok>, pr: bool)
    requires k in {4, 5, 6, 8, 9, 10, 11}
    requires ts != [] ==> LeftOp(k, ts[0]).None? && (k == 6 ==> !StartsConcat(ts[0])) && (k == 9 ==> !ts[0].TIn?)
    ensures Loop(k, n, ts, pr) == Ok(n, ts)
  {
    hide Parse;
  }
}
