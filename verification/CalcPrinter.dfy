/** Printing expressions with only the brackets that are needed and any blanks between, and
    the proof that evaluating the text gives the value of the tree. */
module CalcPrinter {
  import opened Numerals
  import opened Optional
  import opened CalcBits
  import opened CalcGrammar

  /** Expressions, with the blanks to print: before each token, and before the brackets in
      case some are needed. */
  datatype Expr =
    | Num(gap: string, v: nat, base: nat, open: string, close: string)
    | Signed(gap: string, sign: Sign, e: Expr, open: string, close: string)
    | Bin(op: Op, a: Expr, gap: string, b: Expr, open: string, close: string)

  predicate Blanks(s: string) { forall i | 0 <= i < |s| :: Blank(s[i]) }

  /** Numbers in one of the three bases, and blanks where there are to be blanks. */
  predicate Good(e: Expr) {
    && Blanks(e.gap) && Blanks(e.open) && Blanks(e.close)
    && match e
       case Num(_, _, base, _, _) => base in {2, 10, 16}
       case Signed(_, _, x, _, _) => Good(x)
       case Bin(_, a, _, b, _, _) => Good(a) && Good(b)
  }

  function LevelOf(op: Op): nat {
    match op
    case Pow => 1
    case Mul => 3 case Div => 3 case Mod => 3
    case Add => 4 case Sub => 4
    case Shl => 5 case Shr => 5
    case And => 6
    case Xor => 7
    case Or => 8
  }

  /** The lowest level that reads an expression without brackets. */
  function Level(e: Expr): nat {
    match e
    case Num(_, _, _, _, _) => 0
    case Signed(_, _, _, _, _) => 2
    case Bin(op, _, _, _, _, _) => LevelOf(op)
  }

  function OpText(op: Op): (s: string)
    ensures |s| == Width(op)
  {
    match op
    case Pow => "**"
    case Mul => "*" case Div => "/" case Mod => "%"
    case Add => "+" case Sub => "-"
    case Shl => "<<" case Shr => ">>"
    case And => "&" case Xor => "^" case Or => "|"
  }

  function SignText(sign: Sign): (s: string)
    ensures |s| == 1
  {
    match sign case Minus => "-" case Plus => "+" case Not => "~"
  }

  // ── Numerals ───────────────────────────────────────────────────────

  function Prefix(base: nat): string { if base == 16 then "0x" else if base == 2 then "0b" else "" }

  function Numeral(v: nat, base: nat): string
    requires 2 <= base <= 16
  {
    Prefix(base) + Digits(v, base)
  }

  // ── Text ───────────────────────────────────────────────────────────

  /** The text of an expression as level `k` can read it. */
  function Print(e: Expr, k: nat): string
    requires Good(e)
    decreases e, 1
  {
    if Level(e) > k then e.open + "(" + (Raw(e) + (e.close + ")")) else Raw(e)
  }

  function Raw(e: Expr): string
    requires Good(e)
    decreases e, 0
  {
    match e
    case Num(gap, v, base, _, _) => gap + Numeral(v, base)
    case Signed(gap, sign, x, _, _) => gap + (SignText(sign) + Print(x, 2))
    case Bin(op, a, gap, b, _, _) =>
      if op == Pow then Print(a, 0) + (gap + (OpText(op) + Print(b, 1)))
      else Print(a, LevelOf(op)) + (gap + (OpText(op) + Print(b, LevelOf(op) - 1)))
  }

  // ── Values ─────────────────────────────────────────────────────────

  /** What an operator means: on integers, while everything stays in 64 bits, and bit by bit. */
  function Exact(op: Op, a: int, b: int): Option<int> {
    match op
    case Pow => if b < 0 || b > 63 then None else ExactPower(a, b)
    case Mul => InRange(a * b)
    case Div => if b == 0 then None else InRange(Quotient(a, b))
    case Mod => if b == 0 || !Fits(Quotient(a, b)) then None else InRange(Remainder(a, b))
    case Add => InRange(a + b)
    case Sub => InRange(a - b)
    case _ => Some(OnAllBits(op, a, b))
  }

  function InRange(v: int): Option<int> { if Fits(v) then Some(v) else None }

  function ExactPower(a: int, n: nat): Option<int> {
    if n == 0 then Some(1)
    else
      var r := ExactPower(a, n - 1);
      if r.Some? then InRange(r.value * a) else None
  }

  function ExactSign(sign: Sign, v: int): Option<int> {
    match sign case Minus => InRange(-v) case Plus => Some(v) case Not => Some(-v - 1)
  }

  /** The value of a tree; none if something leaves 64 bits or is an error. */
  function Value(e: Expr): Option<int> {
    match e
    case Num(_, v, _, _, _) => InRange(v)
    case Signed(_, sign, x, _, _) =>
      var r := Value(x);
      if r.Some? then ExactSign(sign, r.value) else None
    case Bin(op, a, _, b, _, _) =>
      var (x, y) := (Value(a), Value(b));
      if x.Some? && y.Some? then Exact(op, x.value, y.value) else None
  }

  lemma ExactApplies(op: Op, a: int, b: int)
    requires Exact(op, a, b).Some?
    ensures Apply(op, a, b) == Exact(op, a, b)
  {
    hide OnAllBits;
    if op == Pow { PowerExact(a, b); }
    if OnBits(op) { ResultOfBits(op, a, b); }
  }

  lemma {:induction false} PowerExact(a: int, n: nat)
    requires ExactPower(a, n).Some?
    ensures Some(WrapPower(a, n)) == ExactPower(a, n)
  {
    if n > 0 { PowerExact(a, n - 1); }
  }

  // ── What ends a text ───────────────────────────────────────────────

  /** Characters that a number would go on with. */
  predicate WordChar(c: char) { '0' <= c <= '9' || 'a' <= c <= 'z' || 'A' <= c <= 'Z' || c == '_' }

  /** What follows is nothing that level `k` would go on with. */
  predicate Stops(k: nat, rest: string) {
    var t := Skip(rest);
    && (rest == "" || !WordChar(rest[0]))
    && (k >= 1 ==> !Starts(t, "**"))
    && (k >= 3 ==> OpAt(3, t).None?) && (k >= 4 ==> OpAt(4, t).None?) && (k >= 5 ==> OpAt(5, t).None?)
    && (k >= 6 ==> OpAt(6, t).None?) && (k >= 7 ==> OpAt(7, t).None?) && (k >= 8 ==> OpAt(8, t).None?)
  }

  lemma {:induction false} SkipsBlanks(gap: string, s: string)
    requires Blanks(gap)
    ensures Skip(gap + s) == Skip(s)
    decreases |gap|
  {
    if gap == "" {
      assert gap + s == s;
    } else {
      SkipsBlanks(gap[1..], s);
      assert (gap + s)[1..] == gap[1..] + s;
    }
  }

  /** How a text starts once blanks are skipped: with a digit, a bracket or a sign. */
  predicate OperandStart(t: string) {
    t != "" && ('0' <= t[0] <= '9' || t[0] == '(' || t[0] == '-' || t[0] == '+' || t[0] == '~')
  }

  lemma NumeralStarts(v: nat, base: nat, rest: string)
    requires base in {2, 10, 16}
    ensures var t := Numeral(v, base) + rest; t != "" && '0' <= t[0] <= '9' && Skip(t) == t
  {
    hide Digits;
    var t := Numeral(v, base) + rest;
    DigitsStart(v, base);
    assert t[0] == (if base == 10 then Digits(v, base)[0] else '0');
  }

  lemma {:induction false} TextStarts(e: Expr, k: nat, rest: string)
    requires Good(e)
    ensures OperandStart(Skip(Print(e, k) + rest))
    decreases e, 1
  {
    if Level(e) > k {
      var inner := "(" + (Raw(e) + (e.close + ")")) + rest;
      assert Print(e, k) + rest == e.open + inner;
      SkipsBlanks(e.open, inner);
      assert inner[0] == '(';
    } else {
      RawStarts(e, rest);
    }
  }

  lemma {:induction false} RawStarts(e: Expr, rest: string)
    requires Good(e)
    ensures OperandStart(Skip(Raw(e) + rest))
    decreases e, 0
  {
    hide Numeral, Print;
    match e
    case Num(gap, v, base, _, _) =>
      var t := Numeral(v, base) + rest;
      assert Raw(e) + rest == gap + t;
      SkipsBlanks(gap, t);
      NumeralStarts(v, base, rest);
    case Signed(gap, sign, x, _, _) =>
      var t := SignText(sign) + Print(x, 2) + rest;
      assert Raw(e) + rest == gap + t;
      SkipsBlanks(gap, t);
      assert t[0] == SignText(sign)[0];
    case Bin(op, a, gap, b, _, _) =>
      var k := if op == Pow then 0 else LevelOf(op);
      var tail := gap + (OpText(op) + Print(b, if op == Pow then 1 else k - 1));
      TextStarts(a, k, tail + rest);
      assert Raw(e) + rest == Print(a, k) + (tail + rest);
  }

  /** Below the signs a text does not start with one. */
  lemma {:induction false} NoSign(e: Expr, k: nat, rest: string)
    requires Good(e) && k <= 1
    ensures SignAt(Skip(Print(e, k) + rest)).None?
    decreases e
  {
    hide Numeral, Skip, Raw, Blanks;
    if Level(e) > k {
      var inner := "(" + (Raw(e) + (e.close + ")")) + rest;
      assert Print(e, k) + rest == e.open + inner;
      SkipsBlanks(e.open, inner);
      NoSignOpen(inner);
    } else if e.Num? {
      var t := Numeral(e.v, e.base) + rest;
      RawNum(e);
      assert Print(e, k) + rest == e.gap + t;
      SkipsBlanks(e.gap, t);
      NumeralStarts(e.v, e.base, rest);
    } else {
      var tail := e.gap + (OpText(e.op) + Print(e.b, 1)) + rest;
      RawPow(e);
      assert Print(e, k) + rest == Print(e.a, 0) + tail;
      NoSign(e.a, 0, tail);
    }
  }

  lemma NoSignOpen(t: string)
    requires t != "" && t[0] == '('
    ensures SignAt(Skip(t)).None?
  {
  }

  lemma RawNum(e: Expr)
    requires e.Num? && Good(e)
    ensures Raw(e) == e.gap + Numeral(e.v, e.base)
  {
    hide Numeral;
  }

  lemma RawPow(e: Expr)
    requires e.Bin? && e.op == Pow && Good(e)
    ensures Raw(e) == Print(e.a, 0) + (e.gap + (OpText(e.op) + Print(e.b, 1)))
  {
    hide Print;
  }

  // ── Numerals are read back ─────────────────────────────────────────

  lemma {:induction false} ScansDigits(v: nat, base: nat, rest: string)
    requires 2 <= base <= 16 && Fits(v)
    ensures ScanValue(base, Digits(v, base) + rest, 0) == ScanValue(base, rest, v)
    ensures ScanRest(base, Digits(v, base) + rest) == ScanRest(base, rest)
    decreases v
  {
    hide Front, Back, ScanValue, ScanRest, Shifted, DigitChar;
    if v < base {
      assert Digits(v, base) + rest == [DigitChar(v)] + rest;
      ScansOne(0, v, base, rest);
      ShiftsIn(0, v, base, v);
    } else {
      var (f, d) := (Front(v, base), Back(v, base));
      var one := [DigitChar(d)] + rest;
      assert Digits(v, base) + rest == Digits(f, base) + one;
      ScansDigits(f, base, one);
      ScansOne(f, d, base, rest);
      FrontAndBack(v, base);
      ShiftsIn(f, d, base, v);
    }
  }

  lemma ShiftsIn(f: nat, d: nat, base: nat, v: nat)
    requires f * base + d == v && Fits(v)
    ensures Shifted(f, base, d) == v
  {
  }

  lemma ScansOne(v: int, d: nat, base: nat, rest: string)
    requires d < base <= 16
    ensures ScanValue(base, [DigitChar(d)] + rest, v) == ScanValue(base, rest, Shifted(v, base, d))
    ensures ScanRest(base, [DigitChar(d)] + rest) == ScanRest(base, rest)
  {
    hide Shifted, DigitChar, DigitOf;
    DigitScans(d, base);
    assert ([DigitChar(d)] + rest)[1..] == rest;
  }

  lemma DigitScans(d: nat, base: nat)
    requires d < base <= 16
    ensures DigitChar(d) != '_' && DigitOf(DigitChar(d)) == Some(d)
  {
  }

  /** A numeral spells its base, and nothing behind it is taken for more digits. */
  lemma NumeralBase(v: nat, base: nat, rest: string)
    requires base in {2, 10, 16} && (rest == "" || !WordChar(rest[0]))
    ensures BaseOf(Numeral(v, base) + rest) == base && DigitsOf(Numeral(v, base) + rest) == Digits(v, base) + rest
  {
    hide Digits, BaseOf;
    if base == 10 {
      DecimalBase(v, rest);
      assert Numeral(v, 10) == Digits(v, 10);
    } else {
      NumeralSplits(v, base, rest);
      PrefixedBase(base, Digits(v, base) + rest);
    }
  }

  lemma NumeralSplits(v: nat, base: nat, rest: string)
    requires base in {2, 16}
    ensures Numeral(v, base) + rest == Prefix(base) + (Digits(v, base) + rest)
    ensures (Numeral(v, base) + rest)[2..] == Digits(v, base) + rest
  {
    hide Digits;
  }

  lemma DecimalBase(v: nat, rest: string)
    requires rest == "" || !WordChar(rest[0])
    ensures BaseOf(Digits(v, 10) + rest) == 10
  {
    if v > 0 {
      LeadingDigit(v, 10);
      assert (Digits(v, 10) + rest)[0] == Digits(v, 10)[0];
    } else {
      assert Digits(v, 10) == [DigitChar(0)];
      if rest != "" { assert (Digits(v, 10) + rest)[1] == rest[0]; }
    }
  }

  lemma PrefixedBase(base: nat, t: string)
    requires base in {2, 16}
    ensures BaseOf(Prefix(base) + t) == base
  {
    var s := Prefix(base) + t;
    assert s[0] == Prefix(base)[0] && s[1] == Prefix(base)[1];
  }

  lemma NumberReads(v: nat, base: nat, rest: string)
    requires base in {2, 10, 16} && Fits(v) && (rest == "" || !WordChar(rest[0]))
    ensures Number(Numeral(v, base) + rest) == Ok(v, Skip(rest))
  {
    hide Skip, Fits, Numeral, BaseOf, DigitsOf, ScanValue, ScanRest, WordChar, Digits;
    NumeralBase(v, base, rest);
    ScansDigits(v, base, rest);
    ScanStops(base, rest, v);
  }

  lemma ScanStops(base: nat, rest: string, v: int)
    requires rest == "" || !WordChar(rest[0])
    ensures ScanValue(base, rest, v) == v && ScanRest(base, rest) == rest
  {
  }

  // ── Every tree is evaluated ────────────────────────────────────────

  function Brackets(e: Expr, k: nat): nat { if Level(e) > k then 1 else 0 }

  /** Level `k` reads an expression printed for it, with its value. */
  lemma {:induction false} Reads(e: Expr, k: nat, rest: string)
    requires Good(e) && Value(e).Some? && k <= 8 && Stops(k, rest)
    ensures Parse(k, Print(e, k) + rest) == Ok(Value(e).value, Skip(rest))
    decreases e, Brackets(e, k), k, 3
  {
    hide Parse, Loop, Good, Value, Stops, Raw, Print, Skip;
    if k >= 3 {
      StopsBelow(k, rest);
      LeftReads(e, k, rest);
      LoopStops(k, Value(e).value, rest);
    } else if k == 0 && Level(e) > 0 {
      BracketedReads(e, rest);
      PrintIs(e, k);
    } else if Level(e) == k {
      PrintIs(e, k);
      if k == 0 {
        NumReads(e, rest);
      } else if k == 1 {
        PowReads(e, rest);
      } else {
        SignedReads(e, rest);
      }
    } else {
      StopsBelow(k, rest);
      Reads(e, k - 1, rest);
      PrintIs(e, k);
      PrintIs(e, k - 1);
      if k == 2 { NoSign(e, 1, rest); }
      Lift(k, Print(e, k) + rest, Value(e).value, rest);
    }
  }

  lemma PrintIs(e: Expr, k: nat)
    requires Good(e)
    ensures Print(e, k) == if Level(e) > k then e.open + "(" + (Raw(e) + (e.close + ")")) else Raw(e)
  {
    hide Raw;
  }

  lemma StopsBelow(k: nat, rest: string)
    requires 1 <= k && Stops(k, rest)
    ensures Stops(k - 1, rest)
  {
    hide Skip, OpAt, Starts;
  }

  lemma LoopStops(k: nat, v: int, rest: string)
    requires 3 <= k <= 8 && Stops(k, rest)
    ensures Loop(k, v, Skip(rest)) == Ok(v, Skip(rest))
  {
    hide Parse, Skip, OpAt, Starts;
  }

  lemma Lift(k: nat, s: string, v: int, rest: string)
    requires 1 <= k <= 2 && Parse(k - 1, s) == Ok(v, Skip(rest)) && Stops(k, rest)
    requires k == 2 ==> SignAt(Skip(s)).None?
    ensures Parse(k, s) == Ok(v, Skip(rest))
  {
    hide Loop, Number, Apply, OpAt, SignAt;
    if k == 2 { PowerSkips(s); }
  }

  /** Blanks in front make no difference. */
  lemma PowerSkips(s: string)
    ensures Parse(1, Skip(s)) == Parse(1, s)
  {
    hide Loop, Number, Apply, Starts;
    assert Skip(Skip(s)) == Skip(s);
    assert Parse(0, Skip(s)) == Parse(0, s);
  }

  lemma {:induction false} BracketedReads(e: Expr, rest: string)
    requires Good(e) && Value(e).Some?
    ensures Parse(0, e.open + "(" + (Raw(e) + (e.close + ")")) + rest) == Ok(Value(e).value, Skip(rest))
    decreases e, 1, 0, 0
  {
    hide Parse, Loop, Good, Value, Stops, Raw, Print, Skip;
    var close := e.close + (")" + rest);
    GoodBlanks(e);
    CloseStops(e.close, rest);
    Reads(e, 8, close);
    PrintIs(e, 8);
    var inner := Raw(e) + close;
    assert e.open + "(" + (Raw(e) + (e.close + ")")) + rest == e.open + ("(" + inner);
    BracketStep(e.open, e.close, inner, Value(e).value, rest);
  }

  lemma GoodBlanks(e: Expr)
    requires Good(e)
    ensures Blanks(e.gap) && Blanks(e.open) && Blanks(e.close)
  {
  }

  lemma CloseStops(gap: string, rest: string)
    requires Blanks(gap)
    ensures Stops(8, gap + (")" + rest))
  {
    var s := gap + (")" + rest);
    SkipsBlanks(gap, ")" + rest);
    assert (")" + rest)[0] == ')';
    assert s[0] == ')' || Blank(s[0]);
  }

  lemma BracketStep(open: string, close: string, inner: string, v: int, rest: string)
    requires Blanks(open) && Blanks(close) && Parse(8, inner) == Ok(v, Skip(close + (")" + rest)))
    ensures Parse(0, open + ("(" + inner)) == Ok(v, Skip(rest))
  {
    hide Loop, Number;
    SkipsBlanks(open, "(" + inner);
    SkipsBlanks(close, ")" + rest);
    assert ("(" + inner)[1..] == inner && (")" + rest)[1..] == rest;
    assert ("(" + inner)[0] == '(' && (")" + rest)[0] == ')';
    assert Starts("(" + inner, "(") && Starts(")" + rest, ")");
  }

  lemma NumReads(e: Expr, rest: string)
    requires e.Num? && Good(e) && Value(e).Some? && Stops(0, rest)
    ensures Parse(0, Raw(e) + rest) == Ok(Value(e).value, Skip(rest))
  {
    hide Parse, Raw, Number, Loop, Numeral, Value, Good, Skip, Blanks;
    NumParts(e);
    var t := Numeral(e.v, e.base) + rest;
    assert Raw(e) + rest == e.gap + t;
    SkipsBlanks(e.gap, t);
    NumberReads(e.v, e.base, rest);
    NumeralStarts(e.v, e.base, rest);
    NumberStep(e.gap + t, t);
  }

  lemma NumParts(e: Expr)
    requires e.Num? && Good(e) && Value(e).Some?
    ensures Blanks(e.gap) && e.base in {2, 10, 16} && Fits(e.v) && Value(e) == Some(e.v)
    ensures Raw(e) == e.gap + Numeral(e.v, e.base)
  {
    hide Numeral, Blanks;
  }

  lemma NumberStep(s: string, t: string)
    requires Skip(s) == t && !Starts(t, "(")
    ensures Parse(0, s) == Number(t)
  {
    hide Number, Loop, Skip;
  }

  lemma {:induction false} SignedReads(e: Expr, rest: string)
    requires e.Signed? && Good(e) && Value(e).Some? && Stops(2, rest)
    ensures Parse(2, Raw(e) + rest) == Ok(Value(e).value, Skip(rest))
    decreases e, 0, 2, 0
  {
    hide Parse, Loop, Stops, Print, Skip, ApplySign;
    Reads(e.e, 2, rest);
    var inner := Print(e.e, 2) + rest;
    assert Raw(e) + rest == e.gap + (SignText(e.sign) + inner);
    SignedStep(e.gap, e.sign, inner, Value(e.e).value, rest);
    SignApplies(e.sign, Value(e.e).value);
  }

  lemma SignApplies(sign: Sign, v: int)
    requires ExactSign(sign, v).Some?
    ensures Some(ApplySign(sign, v)) == ExactSign(sign, v)
  {
  }

  lemma SignedStep(gap: string, sign: Sign, inner: string, v: int, rest: string)
    requires Blanks(gap) && Parse(2, inner) == Ok(v, Skip(rest))
    ensures Parse(2, gap + (SignText(sign) + inner)) == Ok(ApplySign(sign, v), Skip(rest))
  {
    hide Loop, Number, ApplySign;
    var t := SignText(sign) + inner;
    SkipsBlanks(gap, t);
    assert t[0] == SignText(sign)[0] && t[1..] == inner;
    assert SignAt(t) == Some(sign);
  }

  lemma {:induction false} PowReads(e: Expr, rest: string)
    requires e.Bin? && e.op == Pow && Good(e) && Value(e).Some? && Stops(1, rest)
    ensures Parse(1, Raw(e) + rest) == Ok(Value(e).value, Skip(rest))
    decreases e, 0, 1, 0
  {
    hide Parse, Loop, Stops, Print, Skip, Apply, Exact;
    var right := Print(e.b, 1) + rest;
    var tail := e.gap + ("**" + right);
    PowEnds(e.gap, right);
    Reads(e.a, 0, tail);
    Reads(e.b, 1, rest);
    assert Raw(e) + rest == Print(e.a, 0) + tail;
    var x, y := Value(e.a).value, Value(e.b).value;
    ExactApplies(Pow, x, y);
    PowStep(Print(e.a, 0) + tail, right, x, y, rest);
  }

  lemma PowEnds(gap: string, right: string)
    requires Blanks(gap)
    ensures Stops(0, gap + ("**" + right)) && Skip(gap + ("**" + right)) == "**" + right
  {
    SkipsBlanks(gap, "**" + right);
    var s := gap + ("**" + right);
    assert ("**" + right)[0] == '*';
    assert s[0] == '*' || Blank(s[0]);
  }

  lemma PowStep(s: string, right: string, x: int, y: int, rest: string)
    requires Parse(0, s) == Ok(x, "**" + right) && Parse(1, right) == Ok(y, Skip(rest)) && Apply(Pow, x, y).Some?
    ensures Parse(1, s) == Ok(Apply(Pow, x, y).value, Skip(rest))
  {
    hide Loop, Number, Apply;
    assert ("**" + right)[2..] == right && Starts("**" + right, "**");
  }

  /** At a left-associative level a printed expression is the first operand of what follows. */
  lemma {:induction false} LeftReads(e: Expr, k: nat, rest: string)
    requires Good(e) && Value(e).Some? && 3 <= k <= 8 && Stops(k - 1, rest)
    ensures Parse(k, Print(e, k) + rest) == Loop(k, Value(e).value, Skip(rest))
    decreases e, Brackets(e, k), k, 2
  {
    hide Parse, Loop, Good, Value, Stops, Raw, Print, Skip;
    PrintIs(e, k);
    if Level(e) == k {
      BinReads(e, rest);
    } else {
      PrintIs(e, k - 1);
      Reads(e, k - 1, rest);
      FirstOperand(k, Print(e, k) + rest, Value(e).value, rest);
    }
  }

  lemma FirstOperand(k: nat, s: string, v: int, rest: string)
    requires 3 <= k <= 8 && Parse(k - 1, s) == Ok(v, Skip(rest))
    ensures Parse(k, s) == Loop(k, v, Skip(rest))
  {
    hide Loop, Number, Apply, Skip;
  }

  lemma {:induction false} BinReads(e: Expr, rest: string)
    requires e.Bin? && LevelOf(e.op) >= 3 && Good(e) && Value(e).Some? && Stops(LevelOf(e.op) - 1, rest)
    ensures Parse(LevelOf(e.op), Raw(e) + rest) == Loop(LevelOf(e.op), Value(e).value, Skip(rest))
    decreases e, 0, LevelOf(e.op), 1
  {
    hide Parse, Loop, Stops, Print, Skip, Apply, Exact, OpText;
    var k := LevelOf(e.op);
    var right := Print(e.b, k - 1) + rest;
    var tail := e.gap + (OpText(e.op) + right);
    TextStarts(e.b, k - 1, rest);
    OpEnds(e.gap, e.op, right);
    LeftReads(e.a, k, tail);
    Reads(e.b, k - 1, rest);
    assert Raw(e) + rest == Print(e.a, k) + tail;
    var x, y := Value(e.a).value, Value(e.b).value;
    ExactApplies(e.op, x, y);
    OpStep(k, e.op, right, x, y, rest);
  }

  /** The text of an operator ends every level below its own, and is taken for nothing else. */
  lemma OpEnds(gap: string, op: Op, right: string)
    requires Blanks(gap) && op != Pow && OperandStart(Skip(right))
    ensures Stops(LevelOf(op) - 1, gap + (OpText(op) + right))
    ensures Skip(gap + (OpText(op) + right)) == OpText(op) + right
    ensures OpAt(LevelOf(op), OpText(op) + right) == Some(op)
  {
    hide Starts, Skip;
    var u := OpText(op) + right;
    SkipsBlanks(gap, u);
    NextChar(right);
    assert u[0] == OpText(op)[0] && u[1] == if |OpText(op)| == 2 then OpText(op)[1] else right[0];
    Ahead(u);
    NothingToSkip(u);
    GapFirst(gap, u);
  }

  lemma NothingToSkip(u: string)
    requires u != "" && !Blank(u[0])
    ensures Skip(u) == u
  {
  }

  lemma GapFirst(gap: string, u: string)
    requires Blanks(gap) && u != "" && !WordChar(u[0])
    ensures !WordChar((gap + u)[0])
  {
    assert (gap + u)[0] == u[0] || Blank((gap + u)[0]);
  }

  lemma NextChar(right: string)
    requires OperandStart(Skip(right))
    ensures right != "" && right[0] != '*' && right[0] != '^' && right[0] != '<' && right[0] != '>'
  {
  }

  /** What stands ahead, by its first two characters. */
  lemma Ahead(u: string)
    requires |u| >= 2
    ensures Starts(u, "**") == (u[0] == '*' && u[1] == '*') && Starts(u, "<<") == (u[0] == '<' && u[1] == '<')
    ensures Starts(u, ">>") == (u[0] == '>' && u[1] == '>') && Starts(u, "^^") == (u[0] == '^' && u[1] == '^')
    ensures Starts(u, "*") == (u[0] == '*') && Starts(u, "/") == (u[0] == '/') && Starts(u, "%") == (u[0] == '%')
    ensures Starts(u, "+") == (u[0] == '+') && Starts(u, "-") == (u[0] == '-')
    ensures Starts(u, "&") == (u[0] == '&') && Starts(u, "^") == (u[0] == '^') && Starts(u, "|") == (u[0] == '|')
  {
  }

  lemma OpStep(k: nat, op: Op, right: string, x: int, y: int, rest: string)
    requires k == LevelOf(op) && 3 <= k && OpAt(k, OpText(op) + right) == Some(op)
    requires Parse(k - 1, right) == Ok(y, Skip(rest)) && Apply(op, x, y).Some?
    ensures Loop(k, x, OpText(op) + right) == Loop(k, Apply(op, x, y).value, Skip(rest))
  {
    hide Parse, Apply, OpAt, Skip;
    assert (OpText(op) + right)[Width(op)..] == right;
  }

  /** Evaluating the text of a tree gives its value, all of the text being read. */
  lemma EvaluatesToValue(e: Expr, gap: string)
    requires Good(e) && Value(e).Some? && Blanks(gap)
    ensures Evaluated(Print(e, 8) + gap) == Value(e)
  {
    hide Parse, Value, Good, Print;
    SkipsBlanks(gap, "");
    assert gap + "" == gap;
    assert gap == "" || Blank(gap[0]);
    Reads(e, 8, gap);
  }
}
