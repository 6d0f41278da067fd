/** The calculator: its 64-bit values, and what each level of its parser reads from the
    characters in front of it. */
module CalcGrammar {
  import opened Numerals
  import opened Optional

  // ── Values ─────────────────────────────────────────────────────────

  const TWO63 := 0x8000_0000_0000_0000
  const TWO64 := 0x1_0000_0000_0000_0000

  predicate Fits(v: int) { -TWO63 <= v < TWO63 }

  /** A value as its 64 bits, and back. */
  function Bits(v: int): (u: nat)
    ensures u < TWO64
  {
    v % TWO64
  }

  function Wrap(v: int): (w: int)
    ensures Fits(w) && (Fits(v) ==> w == v)
  {
    if v % TWO64 < TWO63 then v % TWO64 else v % TWO64 - TWO64
  }

  /** Division towards zero, and its remainder. */
  function Quotient(a: int, b: int): int
    requires b != 0
  {
    if a >= 0 then a / b else -((-a) / b)
  }

  function Remainder(a: int, b: int): int
    requires b != 0
  {
    a - b * Quotient(a, b)
  }

  datatype Op = Pow | Mul | Div | Mod | Add | Sub | Shl | Shr | And | Xor | Or

  /** Bit by bit, on the `n` low bits. */
  function Bitwise(op: Op, a: nat, b: nat, n: nat): nat {
    if n == 0 then 0 else
      var (x, y) := (a % 2, b % 2);
      var bit := match op case And => x * y case Or => (if x + y > 0 then 1 else 0) case _ => (x + y) % 2;
      2 * Bitwise(op, a / 2, b / 2, n - 1) + bit
  }

  function Product(a: int, b: int): int { Wrap(a * b) }
  function Sum(a: int, b: int): int { Wrap(a + b) }
  function Difference(a: int, b: int): int { Wrap(a - b) }

  function Divided(a: int, b: int): int
    requires b != 0
  {
    Wrap(Quotient(a, b))
  }

  function Modulo(a: int, b: int): int
    requires b != 0
  {
    Wrap(Remainder(a, b))
  }

  function PowerOfTwo(n: nat): (p: nat)
    ensures p > 0
  {
    if n == 0 then 1 else 2 * PowerOfTwo(n - 1)
  }

  /** Shifts work on the bits, by the low six bits of the distance. */
  function ShiftLeft(a: int, b: int): int { Wrap(Bits(a) * PowerOfTwo(b % 64)) }
  function ShiftRight(a: int, b: int): int { Wrap(Bits(a) / PowerOfTwo(b % 64)) }
  function Combined(op: Op, a: int, b: int): int { Wrap(Bitwise(op, Bits(a), Bits(b), 64)) }

  function WrapPower(base: int, n: nat): int { if n == 0 then 1 else Wrap(WrapPower(base, n - 1) * base) }

  /** What an operator does to 64-bit values; nothing when it is an error. */
  function Apply(op: Op, a: int, b: int): Option<int> {
    match op
    case Pow => if b < 0 || b > 63 then None else Some(WrapPower(a, b))
    case Mul => Some(Product(a, b))
    case Div => if b == 0 then None else Some(Divided(a, b))
    case Mod => if b == 0 then None else Some(Modulo(a, b))
    case Add => Some(Sum(a, b))
    case Sub => Some(Difference(a, b))
    case Shl => Some(ShiftLeft(a, b))
    case Shr => Some(ShiftRight(a, b))
    case _ => Some(Combined(op, a, b))
  }

  datatype Sign = Minus | Plus | Not

  function ApplySign(sign: Sign, v: int): int {
    match sign
    case Minus => Wrap(-v)
    case Plus => v
    case Not => -v - 1
  }

  // ── Characters ─────────────────────────────────────────────────────

  predicate Blank(c: char) { c == ' ' || c == '\t' }

  function Skip(s: string): (r: string)
    ensures |r| <= |s| && (r == "" || !Blank(r[0]))
  {
    if s != "" && Blank(s[0]) then Skip(s[1..]) else s
  }

  predicate Starts(s: string, t: string) { t <= s }

  /** Underscores between digits count as nothing. */
  predicate IsDigit(base: nat, c: char) { DigitOf(c).Some? && DigitOf(c).value < base }

  /** One more digit at the end of a number. */
  function Shifted(v: int, base: nat, digit: nat): (r: int)
    ensures Fits(r)
  {
    Wrap(v * base + digit)
  }

  function ScanValue(base: nat, s: string, v: int): int {
    if s == "" then v
    else if s[0] == '_' then ScanValue(base, s[1..], v)
    else if IsDigit(base, s[0]) then ScanValue(base, s[1..], Shifted(v, base, DigitOf(s[0]).value))
    else v
  }

  function ScanRest(base: nat, s: string): (r: string)
    ensures |r| <= |s|
  {
    if s != "" && (s[0] == '_' || IsDigit(base, s[0])) then ScanRest(base, s[1..]) else s
  }

  /** The base a number starts with, and the length of its prefix. */
  function BaseOf(s: string): nat {
    if |s| >= 2 && s[0] == '0' && (s[1] == 'x' || s[1] == 'X') then 16
    else if |s| >= 2 && s[0] == '0' && (s[1] == 'b' || s[1] == 'B') then 2
    else 10
  }

  /** The number without the prefix that names its base. */
  function DigitsOf(s: string): (r: string)
    ensures |r| <= |s|
  {
    if BaseOf(s) == 10 then s else s[2..]
  }

  // ── Levels ─────────────────────────────────────────────────────────

  /** A value and the characters behind it, blanks skipped, or an error. */
  datatype Result = Ok(v: int, rest: string) | Err

  function Number(s: string): (r: Result)
    ensures r.Ok? ==> |r.rest| < |s|
  {
    var digits := DigitsOf(s);
    var rest := ScanRest(BaseOf(s), digits);
    if |rest| == |digits| then Err else Ok(ScanValue(BaseOf(s), digits, 0), Skip(rest))
  }

  /** The operator that a left-associative level goes on with. */
  function OpAt(k: nat, s: string): Option<Op> {
    if k == 3 then
      if Starts(s, "**") then None
      else if Starts(s, "*") then Some(Mul) else if Starts(s, "/") then Some(Div) else if Starts(s, "%") then Some(Mod)
      else None
    else if k == 4 then if Starts(s, "+") then Some(Add) else if Starts(s, "-") then Some(Sub) else None
    else if k == 5 then if Starts(s, "<<") then Some(Shl) else if Starts(s, ">>") then Some(Shr) else None
    else if k == 6 then if Starts(s, "&") then Some(And) else None
    else if k == 7 then if Starts(s, "^") && !Starts(s, "^^") then Some(Xor) else None
    else if k == 8 then if Starts(s, "|") then Some(Or) else None
    else None
  }

  function Width(op: Op): nat { if op == Shl || op == Shr || op == Pow then 2 else 1 }

  lemma OpFits(k: nat, s: string)
    ensures OpAt(k, s).Some? ==> Width(OpAt(k, s).value) <= |s|
  {
  }

  function SignAt(s: string): (r: Option<Sign>)
    ensures r.Some? ==> |s| >= 1
  {
    if Starts(s, "-") then Some(Minus) else if Starts(s, "+") then Some(Plus) else if Starts(s, "~") then Some(Not)
      else None
  }

  // 0 atom, 1 power, 2 sign, 3 multiplication, 4 addition, 5 shift, 6 and, 7 xor, 8 or.

  function Parse(k: nat, s: string): (r: Result)
    ensures r.Ok? ==> |r.rest| < |s|
    decreases |s|, k, 0
  {
    var t := Skip(s);
    if k == 0 then
      if Starts(t, "(") then
        var r := Parse(8, t[1..]);
        if r.Ok? && Starts(r.rest, ")") then Ok(r.v, Skip(r.rest[1..])) else Err
      else Number(t)
    else if k == 1 then
      var r := Parse(0, s);
      if r.Ok? && Starts(r.rest, "**") then
        var q := Parse(1, r.rest[2..]);
        if q.Ok? && Apply(Pow, r.v, q.v).Some? then Ok(Apply(Pow, r.v, q.v).value, q.rest) else Err
      else r
    else if k == 2 then
      if SignAt(t).Some? then
        var r := Parse(2, t[1..]);
        if r.Ok? then Ok(ApplySign(SignAt(t).value, r.v), r.rest) else Err
      else Parse(1, t)
    else
      var r := Parse(k - 1, s);
      if r.Ok? then Loop(k, r.v, r.rest) else Err
  }

  /** The rest of a left-associative level, once its first operand is read. */
  function Loop(k: nat, v: int, s: string): (r: Result)
    requires k >= 3
    ensures r.Ok? ==> |r.rest| <= |s|
    decreases |s|, k, 1
  {
    OpFits(k, s);
    match OpAt(k, s)
    case None => Ok(v, s)
    case Some(op) =>
      var q := Parse(k - 1, s[Width(op)..]);
      if q.Ok? && Apply(op, v, q.v).Some? then Loop(k, Apply(op, v, q.v).value, q.rest) else Err
  }

  /** What a line evaluates to: all of it has to be read. */
  function Evaluated(s: string): Option<int> {
    var r := Parse(8, s);
    if r.Ok? && r.rest == "" then Some(r.v) else None
  }
}
