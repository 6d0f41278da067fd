/** The expressions of awk: their tokens, their trees, and what the twelve levels of
    recursive descent read. */
module AwkGrammar {
  import opened Optional

  datatype Builtin =
    | Length | Substr | Index | Split | Sub | Gsub | MatchFn | Sprintf | ToLower | ToUpper | IntFn | System

  /** Tokens as the lexer hands them over. Numbers and names stand for themselves. */
  datatype Tok =
    | TNum(num: int) | TStr(str: string) | TEre(ere: string) | TName(name: string) | TFunc(fn: Builtin)
    | TIncr | TDecr | TLe | TEq | TNe | TGe | TNoMatch | TAnd | TOr | TIn
    | TAssignOp(op: Op)
    | Sym(c: char)
    | TEof

  datatype Op = Add | Subtract | Times | Divide | Mod | Pow | Lt | Le | Eq | Ne | Ge | Gt | Plain | Matches | Differs

  datatype Node =
    | Num(num: int) | Str(str: string) | Re(ere: string)
    | Var(name: string) | Field(of: Node) | Subscr(name: string, of: Node)
    | IncDec(lv: Node, up: bool, before: bool)
    | Call(fn: Builtin, args: seq<Node>)
    | Bin(op: Op, a: Node, b: Node) | Neg(of: Node) | Not(of: Node)
    | Cat(a: Node, b: Node) | Match(op: Op, a: Node, b: Node) | In(a: Node, name: string)
    | And(a: Node, b: Node) | Or(a: Node, b: Node)
    | Cond(c: Node, a: Node, b: Node) | Assign(op: Op, a: Node, b: Node)

  predicate IsLvalue(n: Node) { n.Var? || n.Field? || n.Subscr? }

  // ── Token tables ───────────────────────────────────────────────────

  /** A token that can start an operand written right next to another one. */
  predicate StartsConcat(t: Tok) {
    || t.TNum? || t.TStr? || t.TEre? || t.TName? || t.TFunc? || t.TIncr? || t.TDecr?
    || t == Sym('$') || t == Sym('(') || t == Sym('!')
  }

  /** The operators of the left-associative levels. */
  function LeftOp(k: nat, t: Tok): Option<Op> {
    if k == 4 then
      if t == Sym('*') then Some(Times) else if t == Sym('/') then Some(Divide) else if t == Sym('%') then Some(Mod)
        else None
    else if k == 5 then
      if t == Sym('+') then Some(Add) else if t == Sym('-') then Some(Subtract) else None
    else if k == 8 then
      if t == Sym('~') then Some(Matches) else if t.TNoMatch? then Some(Differs) else None
    else if k == 10 then if t.TAnd? then Some(Plain) else None
    else if k == 11 then if t.TOr? then Some(Plain) else None
    else None
  }

  function LeftNode(k: nat, op: Op, a: Node, b: Node): Node {
    if k == 8 then Match(op, a, b) else if k == 10 then And(a, b) else if k == 11 then Or(a, b) else Bin(op, a, b)
  }

  /** The comparisons; inside a print list a greater-than redirects. */
  function RelOp(t: Tok, inPrint: bool): Option<Op> {
    if t == Sym('<') then Some(Lt) else if t.TLe? then Some(Le) else if t.TEq? then Some(Eq)
      else if t.TNe? then Some(Ne)
    else if t.TGe? then Some(Ge) else if t == Sym('>') && !inPrint then Some(Gt) else None
  }

  function AssignOp(t: Tok): Option<Op> {
    if t == Sym('=') then Some(Plain) else if t.TAssignOp? then Some(t.op) else None
  }

  predicate ArgsFit(b: Builtin, args: seq<Node>) {
    var n := |args|;
    && (match b
        case Length => n <= 1
        case Substr => 2 <= n <= 3
        case Index => n == 2
        case Split => 2 <= n <= 3
        case Sub => 2 <= n <= 3
        case Gsub => 2 <= n <= 3
        case MatchFn => n == 2
        case Sprintf => 1 <= n <= 32
        case _ => n == 1)
    && (b.Split? && n >= 2 ==> args[1].Var?)
    && ((b.Sub? || b.Gsub?) && n == 3 ==> IsLvalue(args[2]))
  }

  // ── What each level reads ──────────────────────────────────────────

  /** A tree and the tokens behind it, or a syntax error. */
  datatype Result = Ok(n: Node, rest: seq<Tok>) | Err
  datatype Args = ArgsOk(args: seq<Node>, rest: seq<Tok>) | ArgsErr

  function Head(ts: seq<Tok>): Tok { if ts == [] then TEof else ts[0] }

  /** The token `t` must come next. */
  function Expect(r: Result, t: Tok): Result {
    if r.Ok? && Head(r.rest) == t && r.rest != [] then Ok(r.n, r.rest[1..]) else Err
  }

  // Levels: 0 primary, 1 postfix, 2 power, 3 unary, 4 multiplicative, 5 additive,
  // 6 concatenation, 7 comparison, 8 match, 9 in, 10 and, 11 or, 12 ternary, 13 expression.

  function Parse(k: nat, ts: seq<Tok>, pr: bool): (r: Result)
    ensures r.Ok? ==> |r.rest| < |ts|
    decreases |ts|, k + 1, 0
  {
    if k == 0 then Primary(ts, pr)
    else if k == 1 then
      var r := Parse(0, ts, pr);
      if r.Ok? then Postfix(r.n, r.rest) else Err
    else if k == 2 then
      var r := Parse(1, ts, pr);
      if r.Ok? && Head(r.rest) == Sym('^') && r.rest != [] then Power(r.n, r.rest[1..], pr) else r
    else if k == 3 then
      if ts != [] && (ts[0] == Sym('!') || ts[0] == Sym('-')) then
        var r := Parse(3, ts[1..], pr);
        if r.Ok? then Ok(if ts[0] == Sym('!') then Not(r.n) else Neg(r.n), r.rest) else Err
      else if ts != [] && ts[0] == Sym('+') then Parse(3, ts[1..], pr)
      else Parse(2, ts, pr)
    else if k == 7 then
      var r := Parse(6, ts, pr);
      if r.Ok? && r.rest != [] && RelOp(Head(r.rest), pr).Some? then
        var op := RelOp(Head(r.rest), pr).value;
        var q := Parse(6, r.rest[1..], pr);
        if q.Ok? then Ok(Bin(op, r.n, q.n), q.rest) else Err
      else r
    else if k == 12 then
      var r := Parse(11, ts, pr);
      if r.Ok? && r.rest != [] && Head(r.rest) == Sym('?') then
        var a := Expect(Parse(12, r.rest[1..], pr), Sym(':'));
        if a.Err? then Err
        else
          var b := Parse(12, a.rest, pr);
          if b.Ok? then Ok(Cond(r.n, a.n, b.n), b.rest) else Err
      else r
    else if k >= 13 then
      var r := Parse(12, ts, pr);
      if r.Ok? && r.rest != [] && AssignOp(Head(r.rest)).Some? then
        if !IsLvalue(r.n) then Err
        else
          var q := Parse(13, r.rest[1..], pr);
          if q.Ok? then Ok(Assign(AssignOp(Head(r.rest)).value, r.n, q.n), q.rest) else Err
      else r
    else
      var r := Parse(k - 1, ts, pr);
      if r.Ok? then Loop(k, r.n, r.rest, pr) else Err
  }

  /** The rest of a left-associative level, once its first operand is read. */
  function Loop(k: nat, n: Node, ts: seq<Tok>, pr: bool): (r: Result)
    requires k >= 4
    ensures r.Ok? ==> |r.rest| <= |ts|
    decreases |ts|, k + 1, 1
  {
    if ts == [] then Ok(n, ts)
    else if k == 6 then
      if StartsConcat(ts[0]) then
        var q := Parse(5, ts, pr);
        if q.Ok? then Loop(6, Cat(n, q.n), q.rest, pr) else Err
      else Ok(n, ts)
    else if k == 9 then
      if ts[0].TIn? then
        if |ts| >= 2 && ts[1].TName? then Loop(9, In(n, ts[1].name), ts[2..], pr) else Err
      else Ok(n, ts)
    else if LeftOp(k, ts[0]).Some? then
      var q := Parse(k - 1, ts[1..], pr);
      if q.Ok? then Loop(k, LeftNode(k, LeftOp(k, ts[0]).value, n, q.n), q.rest, pr) else Err
    else Ok(n, ts)
  }

  /** Increments and decrements behind an lvalue. */
  function Postfix(n: Node, ts: seq<Tok>): (r: Result)
    ensures r.Ok? && |r.rest| <= |ts|
    decreases |ts|
  {
    if ts != [] && (ts[0].TIncr? || ts[0].TDecr?) && IsLvalue(n) then Postfix(IncDec(n, ts[0].TIncr?, false), ts[1..])
    else Ok(n, ts)
  }

  /** What follows a caret: a minus binds to the exponent. */
  function Power(base: Node, ts: seq<Tok>, pr: bool): (r: Result)
    ensures r.Ok? ==> |r.rest| < |ts|
    decreases |ts|, 3, 1
  {
    if ts != [] && ts[0] == Sym('-') then
      var r := Parse(2, ts[1..], pr);
      if r.Ok? then Ok(Bin(Pow, base, Neg(r.n)), r.rest) else Err
    else
      var r := Parse(2, ts, pr);
      if r.Ok? then Ok(Bin(Pow, base, r.n), r.rest) else Err
  }

  function Primary(ts: seq<Tok>, pr: bool): (r: Result)
    ensures r.Ok? ==> |r.rest| < |ts|
    decreases |ts|, 0, 1
  {
    if ts == [] then Err
    else
      match ts[0]
      case TNum(v) => Ok(Num(v), ts[1..])
      case TStr(s) => Ok(Str(s), ts[1..])
      case TEre(s) => Ok(Re(s), ts[1..])
      case TIncr => PreIncDec(Parse(0, ts[1..], pr), true)
      case TDecr => PreIncDec(Parse(0, ts[1..], pr), false)
      case TFunc(b) =>
        if |ts| >= 2 && ts[1] == Sym('(') then
          match ArgList(ts[2..])
          case ArgsErr => Err
          case ArgsOk(args, rest) =>
            if rest != [] && rest[0] == Sym(')') && ArgsFit(b, args) then Ok(Call(b, args), rest[1..]) else Err
        else if b.Length? then Ok(Call(b, []), ts[1..])
        else Err
      case TName(s) =>
        if |ts| >= 2 && ts[1] == Sym('[') then
          var r := Expect(Parse(13, ts[2..], pr), Sym(']'));
          if r.Ok? then Ok(Subscr(s, r.n), r.rest) else Err
        else Ok(Var(s), ts[1..])
      case Sym(c) =>
        if c == '$' then
          var r := Parse(0, ts[1..], pr);
          if r.Ok? then Ok(Field(r.n), r.rest) else Err
        else if c == '(' then Expect(Parse(13, ts[1..], false), Sym(')'))
        else Err
      case _ => Err
  }

  function PreIncDec(r: Result, up: bool): Result {
    if r.Ok? && IsLvalue(r.n) then Ok(IncDec(r.n, up, true), r.rest) else Err
  }

  /** Arguments up to the closing bracket, which stays. */
  function ArgList(ts: seq<Tok>): (r: Args)
    ensures r.ArgsOk? ==> |r.rest| <= |ts|
    decreases |ts|, 15, 0
  {
    if Head(ts) == Sym(')') then ArgsOk([], ts) else MoreArgs(ts)
  }

  function MoreArgs(ts: seq<Tok>): (r: Args)
    ensures r.ArgsOk? ==> |r.rest| <= |ts|
    decreases |ts|, 14, 2
  {
    var e := Parse(13, ts, false);
    if e.Err? then ArgsErr
    else if e.rest != [] && e.rest[0] == Sym(',') then
      match MoreArgs(e.rest[1..])
      case ArgsErr => ArgsErr
      case ArgsOk(args, rest) => ArgsOk([e.n] + args, rest)
    else ArgsOk([e.n], e.rest)
  }
}
