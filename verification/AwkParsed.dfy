/** Every text the parser accepts gives a tree that the printer covers, so printing
    normalises any accepted text. */
module AwkParsed {
  import opened AwkGrammar
  import opened AwkPrinter

  /** Tokens the lexer can produce: only six operators have an assigning form. */
  predicate Lexed(ts: seq<Tok>) {
    forall i :: 0 <= i < |ts| ==> (ts[i].TAssignOp? ==> ts[i].op in {Add, Subtract, Times, Divide, Mod, Pow})
  }

  lemma LexedFrom(ts: seq<Tok>, i: nat)
    requires Lexed(ts) && i <= |ts|
    ensures Lexed(ts[i..])
  {
  }

  ghost predicate GoodResult(r: Result) { r.Ok? ==> Good(r.n) && Lexed(r.rest) }
  ghost predicate GoodArgs(r: Args) { r.ArgsOk? ==> (forall a | a in r.args :: Good(a)) && Lexed(r.rest) }

  lemma {:induction false} ParseGood(k: nat, ts: seq<Tok>, pr: bool)
    requires Lexed(ts)
    ensures GoodResult(Parse(k, ts, pr))
    decreases |ts|, k + 1, 0
  {
    hide Loop, Primary, Power, Postfix, Good, Lexed;
    if k == 0 {
      PrimaryGood(ts, pr);
    } else if k == 3 && ts != [] && ts[0] in {Sym('!'), Sym('-'), Sym('+')} {
      LexedFrom(ts, 1);
      ParseGood(3, ts[1..], pr);
      SignGood(Parse(3, ts[1..], pr));
    } else {
      var below := if k >= 13 then 12 else k - 1;
      var r := Parse(below, ts, pr);
      ParseGood(below, ts, pr);
      if r.Err? || k == 3 {
      } else if k == 1 {
        PostfixGood(r.n, r.rest);
      } else if k in {4, 5, 6, 8, 9, 10, 11} {
        LoopGood(k, r.n, r.rest, pr);
      } else if r.rest != [] {
        NodeGood(k, ts, r, pr);
      }
    }
  }

  lemma SignGood(r: Result)
    ensures GoodResult(r) && r.Ok? ==> Good(Not(r.n)) && Good(Neg(r.n))
  {
  }

  /** The levels that take at most one operator. */
  lemma {:induction false} NodeGood(k: nat, ts: seq<Tok>, r: Result, pr: bool)
    requires k in {2, 7, 12} || k >= 13
    requires r == Parse(if k >= 13 then 12 else k - 1, ts, pr) && r.Ok? && r.rest != [] && GoodResult(r)
    ensures GoodResult(Parse(k, ts, pr))
    decreases |ts|, k, 1
  {
    hide Parse, Loop, Primary, Power, Postfix, Good, Lexed;
    if k == 2 {
      RaisedGood(ts, r, pr);
    } else if k == 7 {
      ComparedGood(ts, r, pr);
    } else if k == 12 {
      ChosenGood(ts, r, pr);
    } else {
      AssignedGood(k, ts, r, pr);
    }
  }

  lemma {:induction false} RaisedGood(ts: seq<Tok>, r: Result, pr: bool)
    requires r == Parse(1, ts, pr) && r.Ok? && r.rest != [] && GoodResult(r)
    ensures GoodResult(Parse(2, ts, pr))
    decreases |ts|, 2, 0
  {
    hide Loop, Primary, Power, Postfix, Good, Lexed;
    LexedFrom(r.rest, 1);
    PowerGood(r.n, r.rest[1..], pr);
  }

  lemma {:induction false} ComparedGood(ts: seq<Tok>, r: Result, pr: bool)
    requires r == Parse(6, ts, pr) && r.Ok? && r.rest != [] && GoodResult(r)
    ensures GoodResult(Parse(7, ts, pr))
    decreases |ts|, 7, 0
  {
    hide Loop, Primary, Power, Postfix, Good, Lexed;
    var us := r.rest[1..];
    LexedFrom(r.rest, 1);
    ParseGood(6, us, pr);
    PairGood(r.n, r.rest[0], Parse(6, us, pr), pr);
  }

  lemma {:induction false} ChosenGood(ts: seq<Tok>, r: Result, pr: bool)
    requires r == Parse(11, ts, pr) && r.Ok? && r.rest != [] && GoodResult(r)
    ensures GoodResult(Parse(12, ts, pr))
    decreases |ts|, 12, 0
  {
    hide Loop, Primary, Power, Postfix, Good, Lexed;
    var us := r.rest[1..];
    LexedFrom(r.rest, 1);
    ParseGood(12, us, pr);
    var q := Parse(12, us, pr);
    if q.Ok? && q.rest != [] {
      LexedFrom(q.rest, 1);
      ParseGood(12, q.rest[1..], pr);
      CondGood(r.n, q.n, Parse(12, q.rest[1..], pr));
    }
  }

  lemma {:induction false} AssignedGood(k: nat, ts: seq<Tok>, r: Result, pr: bool)
    requires k >= 13 && r == Parse(12, ts, pr) && r.Ok? && r.rest != [] && GoodResult(r)
    ensures GoodResult(Parse(k, ts, pr))
    decreases |ts|, k, 0
  {
    hide Loop, Primary, Power, Postfix, Good, Lexed;
    LexedFrom(r.rest, 1);
    ParseGood(13, r.rest[1..], pr);
    AssignGood(r.n, r.rest, Parse(13, r.rest[1..], pr));
  }

  lemma PairGood(a: Node, t: Tok, q: Result, pr: bool)
    requires Good(a) && GoodResult(q)
    ensures q.Ok? && RelOp(t, pr).Some? ==> Good(Bin(RelOp(t, pr).value, a, q.n))
  {
  }

  lemma CondGood(c: Node, a: Node, q: Result)
    requires Good(c) && Good(a) && GoodResult(q)
    ensures q.Ok? ==> Good(Cond(c, a, q.n))
  {
  }

  lemma AssignGood(a: Node, ts: seq<Tok>, q: Result)
    requires Good(a) && GoodResult(q) && ts != [] && Lexed(ts)
    ensures q.Ok? && IsLvalue(a) && AssignOp(ts[0]).Some? ==> Good(Assign(AssignOp(ts[0]).value, a, q.n))
  {
  }

  lemma {:induction false} PostfixGood(n: Node, ts: seq<Tok>)
    requires Good(n) && Lexed(ts)
    ensures GoodResult(Postfix(n, ts))
    decreases |ts|
  {
    hide Lexed;
    if ts != [] && (ts[0].TIncr? || ts[0].TDecr?) && IsLvalue(n) {
      LexedFrom(ts, 1);
      PostfixGood(IncDec(n, ts[0].TIncr?, false), ts[1..]);
    }
  }

  lemma {:induction false} PowerGood(base: Node, ts: seq<Tok>, pr: bool)
    requires Good(base) && Lexed(ts)
    ensures GoodResult(Power(base, ts, pr))
    decreases |ts|, 4, 0
  {
    hide Parse, Lexed, Good;
    ParseGood(2, ts, pr);
    PowGood(base, Parse(2, ts, pr));
    if ts != [] {
      LexedFrom(ts, 1);
      ParseGood(2, ts[1..], pr);
      PowGood(base, Parse(2, ts[1..], pr));
    }
  }

  lemma PowGood(a: Node, q: Result)
    requires Good(a) && GoodResult(q)
    ensures q.Ok? ==> Good(Bin(Pow, a, q.n)) && Good(Bin(Pow, a, Neg(q.n)))
  {
  }

  lemma {:induction false} LoopGood(k: nat, n: Node, ts: seq<Tok>, pr: bool)
    requires k in {4, 5, 6, 8, 9, 10, 11} && Good(n) && Lexed(ts)
    ensures GoodResult(Loop(k, n, ts, pr))
    decreases |ts|, k + 1, 1
  {
    hide Parse, Good, Lexed;
    if ts == [] {
    } else if k == 6 {
      ParseGood(5, ts, pr);
      var q := Parse(5, ts, pr);
      if q.Ok? {
        TwoGood(k, Plain, n, q.n);
        if StartsConcat(ts[0]) { LoopGood(6, Cat(n, q.n), q.rest, pr); }
      }
    } else if k == 9 {
      if ts[0].TIn? && |ts| >= 2 && ts[1].TName? {
        LexedFrom(ts, 2);
        InGood(n, ts[1].name);
        LoopGood(9, In(n, ts[1].name), ts[2..], pr);
      }
    } else if LeftOp(k, ts[0]).Some? {
      LexedFrom(ts, 1);
      ParseGood(k - 1, ts[1..], pr);
      var q := Parse(k - 1, ts[1..], pr);
      if q.Ok? {
        TwoGood(k, LeftOp(k, ts[0]).value, n, q.n);
        LoopGood(k, LeftNode(k, LeftOp(k, ts[0]).value, n, q.n), q.rest, pr);
      }
    }
  }

  lemma TwoGood(k: nat, op: Op, a: Node, b: Node)
    requires Good(a) && Good(b)
    ensures Good(Cat(a, b))
    ensures k in {10, 11} || (k == 8 && op in {Matches, Differs}) ==> Good(LeftNode(k, op, a, b))
    ensures k in {4, 5} && op in {Add, Subtract, Times, Divide, Mod} ==> Good(LeftNode(k, op, a, b))
  {
  }

  lemma InGood(a: Node, s: string)
    requires Good(a)
    ensures Good(In(a, s))
  {
  }

  lemma {:induction false} PrimaryGood(ts: seq<Tok>, pr: bool)
    requires Lexed(ts)
    ensures GoodResult(Primary(ts, pr))
    decreases |ts|, 0, 2
  {
    hide Parse, ArgList, Lexed;
    if ts == [] { return; }
    LexedFrom(ts, 1);
    if |ts| >= 2 { LexedFrom(ts, 2); }
    match ts[0]
    case TIncr => ParseGood(0, ts[1..], pr);
    case TDecr => ParseGood(0, ts[1..], pr);
    case TFunc(b) =>
      if |ts| >= 2 {
        ArgsGood(ts[2..]);
        var r := ArgList(ts[2..]);
        if r.ArgsOk? && r.rest != [] { LexedFrom(r.rest, 1); }
      }
    case TName(s) =>
      if |ts| >= 2 { InBrackets(ts[2..], pr); }
    case Sym(c) =>
      ParseGood(0, ts[1..], pr);
      InBrackets(ts[1..], false);
    case _ =>
  }

  lemma {:induction false} InBrackets(ts: seq<Tok>, pr: bool)
    requires Lexed(ts)
    ensures GoodResult(Parse(13, ts, pr))
    ensures var r := Parse(13, ts, pr); r.Ok? && r.rest != [] ==> Lexed(r.rest[1..])
    decreases |ts|, 15, 0
  {
    hide Parse, Lexed, Good;
    ParseGood(13, ts, pr);
    var r := Parse(13, ts, pr);
    if r.Ok? && r.rest != [] { LexedFrom(r.rest, 1); }
  }

  lemma {:induction false} ArgsGood(ts: seq<Tok>)
    requires Lexed(ts)
    ensures GoodArgs(ArgList(ts))
    decreases |ts|, 17, 0
  {
    hide Parse, Lexed, Good, MoreArgs;
    MoreArgsGood(ts);
  }

  lemma {:induction false} MoreArgsGood(ts: seq<Tok>)
    requires Lexed(ts)
    ensures GoodArgs(MoreArgs(ts))
    decreases |ts|, 16, 0
  {
    hide Parse, Lexed, Good;
    InBrackets(ts, false);
    var e := Parse(13, ts, false);
    if e.Ok? && e.rest != [] { MoreArgsGood(e.rest[1..]); }
  }

  /** Reading an accepted text, printing the tree and reading that gives the same tree. */
  lemma PrintNormalises(ts: seq<Tok>, pr: bool)
    requires Lexed(ts) && Parse(13, ts, pr).Ok?
    ensures var n := Parse(13, ts, pr).n; Parse(13, Print(n, 13), false) == Ok(n, [])
  {
    hide Parse, Good, Lexed;
    ParseGood(13, ts, pr);
    ReadsBack(Parse(13, ts, pr).n);
  }
}
