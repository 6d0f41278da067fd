/** The calculator's parser as it runs: a cursor into the line and an error flag that stays
    set, with parsing going on regardless. */
module CalcParser {
  import opened Numerals
  import opened Optional
  import opened CalcGrammar

  class Parser {
    const s: string
    var p: nat
    var error: bool

    ghost predicate Valid()
      reads this
    {
      p <= |s|
    }

    ghost function Rest(): string
      reads this
      requires Valid()
    {
      s[p..]
    }

    /** How a procedure came out that started at `from`: while there is no error it has read
        what its level reads; one that it adds is one of its level. */
    ghost predicate Gave(r: Result, v: int, from: nat, was: bool)
      reads this
    {
      && Valid() && from <= p && (was ==> error)
      && (!error ==> r == Ok(v, Skip(Rest())))
      && (error && !was ==> r.Err?)
    }

    constructor (s: string)
      ensures Valid() && this.s == s && p == 0 && !error
    {
      this.s := s;
      p, error := 0, false;
    }

    method Fail()
      modifies `error
      ensures error
    {
      error := true;
    }

    method SkipSpace()
      requires Valid()
      modifies `p
      ensures Valid() && old(p) <= p && Rest() == Skip(old(Rest()))
    {
      while p < |s| && Blank(s[p])
        invariant Valid() && old(p) <= p && Skip(Rest()) == Skip(old(Rest()))
        decreases |s| - p
      {
        p := p + 1;
      }
    }

    /** Takes an operator if it is next; blanks in front of it go either way. */
    method Eat(op: string) returns (ate: bool)
      requires Valid() && op != ""
      modifies `p
      ensures Valid() && ate == Starts(Skip(old(Rest())), op)
      ensures Rest() == if ate then Skip(old(Rest()))[|op|..] else Skip(old(Rest()))
      ensures if ate then old(p) < p else old(p) <= p
    {
      SkipSpace();
      ate := p + |op| <= |s| && s[p..p + |op|] == op;
      if ate { p := p + |op|; }
    }

    /** The character ahead, or a NUL behind the end. */
    method Peek(i: nat) returns (c: Option<char>)
      requires Valid()
      ensures c == if i < |Rest()| then Some(Rest()[i]) else None
    {
      c := if p + i < |s| then Some(s[p + i]) else None;
    }

    method Step()
      requires Valid() && |Rest()| >= 1
      modifies `p
      ensures Valid() && p == old(p) + 1 && Rest() == old(Rest())[1..]
    {
      p := p + 1;
    }

    /** Whether these characters are ahead. */
    method Sees(t: string) returns (yes: bool)
      requires Valid()
      ensures yes == Starts(Rest(), t)
    {
      yes := p + |t| <= |s| && s[p..p + |t|] == t;
    }

    method ReadAtom() returns (v: int)
      requires Valid()
      modifies this
      ensures Gave(Parse(0, old(Rest())), v, old(p), old(error)) && Fits(v)
      decreases |s| - p, 0
    {
      SkipSpace();
      SkipTwice(old(Rest()));
      var open := Eat("(");
      if open {
        v := ReadOr();
        var closed := Eat(")");
        if !closed { Fail(); }
      } else {
        v := ReadNumber();
      }
    }

    method ReadNumber() returns (v: int)
      requires Valid()
      modifies this
      ensures Gave(Number(old(Rest())), v, old(p), old(error)) && Fits(v)
    {
      hide Parser.Rest, Number, ScanValue, ScanRest, Skip, Fits;
      NumberIs(Rest());
      var base := ReadBase();
      var start := p;
      v := ReadDigits(base);
      if p == start {
        Fail();
        v := 0;
        ZeroFits();
      }
    }

    /** Takes the prefix that names the base, if there is one. */
    method ReadBase() returns (base: nat)
      requires Valid()
      modifies `p
      ensures Valid() && old(p) <= p && base == BaseOf(old(Rest())) && Rest() == DigitsOf(old(Rest()))
    {
      var c := Peek(0);
      var d := Peek(1);
      base := 10;
      if c == Some('0') && (d == Some('x') || d == Some('X')) {
        base, p := 16, p + 2;
      } else if c == Some('0') && (d == Some('b') || d == Some('B')) {
        base, p := 2, p + 2;
      }
    }

    method ReadDigits(base: nat) returns (v: int)
      requires Valid()
      modifies `p
      ensures Valid() && old(p) <= p && Fits(v)
      ensures v == ScanValue(base, old(Rest()), 0) && Rest() == ScanRest(base, old(Rest()))
      ensures p == old(p) <==> |Rest()| == |old(Rest())|
    {
      hide Shifted, Fits, DigitOf;
      v := 0;
      ZeroFits();
      while p < |s| && (s[p] == '_' || IsDigit(base, s[p]))
        invariant Valid() && old(p) <= p && Fits(v)
        invariant ScanValue(base, old(Rest()), 0) == ScanValue(base, Rest(), v)
        invariant ScanRest(base, old(Rest())) == ScanRest(base, Rest())
        decreases |s| - p
      {
        hide Shifted, Fits, DigitOf;
        Onward();
        if s[p] != '_' { v := Shifted(v, base, DigitOf(s[p]).value); }
        p := p + 1;
      }
    }

    lemma Onward()
      requires p < |s|
      ensures Valid() && |Rest()| > 0 && Rest()[0] == s[p] && Rest()[1..] == s[p + 1..]
    {
    }

    method ReadPower() returns (v: int)
      requires Valid()
      modifies this
      ensures Gave(Parse(1, old(Rest())), v, old(p), old(error)) && Fits(v)
      decreases |s| - p, 1
    {
      hide Parser.Rest, Number, Loop, Apply, Starts, Skip, Wrap, Parse;
      PowerStep(Rest());
      v := ReadAtom();
      SkipTwice(Rest());
      var more := Eat("**");
      if !more { return; }
      var base := v;
      var exp := ReadPower();
      PowerApplies(base, exp);
      if exp < 0 {
        Fail();
        return 0;
      }
      v := 1;
      var n := exp;
      while n > 0
        invariant 0 <= n <= exp && (n == exp || exp <= 63) && Fits(v)
        invariant v == WrapPower(base, exp - n)
        decreases n
      {
        v := Wrap(v * base);
        n := n - 1;
        if n > 62 {
          Fail();
          return 0;
        }
      }
    }

    method ReadSigned() returns (v: int)
      requires Valid()
      modifies this
      ensures Gave(Parse(2, old(Rest())), v, old(p), old(error)) && Fits(v)
      decreases |s| - p, 2
    {
      hide Parser.Rest, Number, Loop, Apply, Starts, Skip, Wrap, Parse;
      SignStep(Rest());
      SkipSpace();
      SkipTwice(old(Rest()));
      var minus := Eat("-");
      if minus {
        v := ReadSigned();
        return Wrap(-v);
      }
      var plus := Eat("+");
      if plus {
        v := ReadSigned();
        return;
      }
      var inv := Eat("~");
      if inv {
        v := ReadSigned();
        return -v - 1;
      }
      v := ReadPower();
    }

    method ReadMul() returns (v: int)
      requires Valid()
      modifies this
      ensures Gave(Parse(3, old(Rest())), v, old(p), old(error)) && Fits(v)
      decreases |s| - p, 3
    {
      hide Parser.Rest, Parse, Loop, Starts, Skip, Fits, Apply, Product, Sum, Difference, Divided, Modulo, ShiftLeft,
           ShiftRight, Combined, WrapPower;
      ghost var all, was := Rest(), error;
      LevelStep(3, all);
      v := ReadSigned();
      while true
        invariant Valid() && old(p) <= p && Fits(v) && (was ==> error)
        invariant !error ==> Parse(3, all) == Loop(3, v, Skip(Rest()))
        invariant error && !was ==> Parse(3, all).Err?
        decreases |s| - p
      {
        hide Parser.Rest, Parse, Loop, Starts, Skip, Fits, Apply, Product, Sum, Difference, Divided, Modulo, ShiftLeft,
             ShiftRight, Combined, WrapPower;
        LoopStep(3, v, Skip(Rest()));
        SkipTwice(Rest());
        SkipSpace();
        var power := Sees("**");
        if power { return; }
        var times := Eat("*");
        if times {
          var b := ReadSigned();
          ValuesFit(v, b);
          Applies(v, b);
          v := Product(v, b);
          continue;
        }
        var over := Eat("/");
        if over {
          var b := ReadSigned();
          ValuesFit(v, b);
          Applies(v, b);
          if b == 0 {
            Fail();
            return 0;
          }
          v := Divided(v, b);
          continue;
        }
        var mod := Eat("%");
        if mod {
          var b := ReadSigned();
          ValuesFit(v, b);
          Applies(v, b);
          if b == 0 {
            Fail();
            return 0;
          }
          v := Modulo(v, b);
          continue;
        }
        return;
      }
    }

    method ReadAdd() returns (v: int)
      requires Valid()
      modifies this
      ensures Gave(Parse(4, old(Rest())), v, old(p), old(error)) && Fits(v)
      decreases |s| - p, 4
    {
      hide Parser.Rest, Parse, Loop, Starts, Skip, Fits, Apply, Product, Sum, Difference, Divided, Modulo, ShiftLeft,
           ShiftRight, Combined, WrapPower;
      ghost var all, was := Rest(), error;
      LevelStep(4, all);
      v := ReadMul();
      while true
        invariant Valid() && old(p) <= p && Fits(v) && (was ==> error)
        invariant !error ==> Parse(4, all) == Loop(4, v, Skip(Rest()))
        invariant error && !was ==> Parse(4, all).Err?
        decreases |s| - p
      {
        hide Parser.Rest, Parse, Loop, Starts, Skip, Fits, Apply, Product, Sum, Difference, Divided, Modulo, ShiftLeft,
             ShiftRight, Combined, WrapPower;
        LoopStep(4, v, Skip(Rest()));
        SkipTwice(Rest());
        SkipSpace();
        var plus := Eat("+");
        if plus {
          var b := ReadMul();
          ValuesFit(v, b);
          Applies(v, b);
          v := Sum(v, b);
          continue;
        }
        var minus := Eat("-");
        if minus {
          var b := ReadMul();
          ValuesFit(v, b);
          Applies(v, b);
          v := Difference(v, b);
          continue;
        }
        return;
      }
    }

    method ReadShift() returns (v: int)
      requires Valid()
      modifies this
      ensures Gave(Parse(5, old(Rest())), v, old(p), old(error)) && Fits(v)
      decreases |s| - p, 5
    {
      hide Parser.Rest, Parse, Loop, Starts, Skip, Fits, Apply, Product, Sum, Difference, Divided, Modulo, ShiftLeft,
           ShiftRight, Combined, WrapPower;
      ghost var all, was := Rest(), error;
      LevelStep(5, all);
      v := ReadAdd();
      while true
        invariant Valid() && old(p) <= p && Fits(v) && (was ==> error)
        invariant !error ==> Parse(5, all) == Loop(5, v, Skip(Rest()))
        invariant error && !was ==> Parse(5, all).Err?
        decreases |s| - p
      {
        hide Parser.Rest, Parse, Loop, Starts, Skip, Fits, Apply, Product, Sum, Difference, Divided, Modulo, ShiftLeft,
             ShiftRight, Combined, WrapPower;
        LoopStep(5, v, Skip(Rest()));
        SkipTwice(Rest());
        var left := Eat("<<");
        if left {
          var b := ReadAdd();
          ValuesFit(v, b);
          Applies(v, b);
          v := ShiftLeft(v, b);
          continue;
        }
        var right := Eat(">>");
        if right {
          var b := ReadAdd();
          ValuesFit(v, b);
          Applies(v, b);
          v := ShiftRight(v, b);
          continue;
        }
        return;
      }
    }

    method ReadAnd() returns (v: int)
      requires Valid()
      modifies this
      ensures Gave(Parse(6, old(Rest())), v, old(p), old(error)) && Fits(v)
      decreases |s| - p, 6
    {
      hide Parser.Rest, Parse, Loop, Starts, Skip, Fits, Apply, Product, Sum, Difference, Divided, Modulo, ShiftLeft,
           ShiftRight, Combined, WrapPower;
      ghost var all, was := Rest(), error;
      LevelStep(6, all);
      v := ReadShift();
      while true
        invariant Valid() && old(p) <= p && Fits(v) && (was ==> error)
        invariant !error ==> Parse(6, all) == Loop(6, v, Skip(Rest()))
        invariant error && !was ==> Parse(6, all).Err?
        decreases |s| - p
      {
        hide Parser.Rest, Parse, Loop, Starts, Skip, Fits, Apply, Product, Sum, Difference, Divided, Modulo, ShiftLeft,
             ShiftRight, Combined, WrapPower;
        LoopStep(6, v, Skip(Rest()));
        SkipTwice(Rest());
        var and := Eat("&");
        if and {
          var b := ReadShift();
          ValuesFit(v, b);
          Applies(v, b);
          v := Combined(And, v, b);
          continue;
        }
        return;
      }
    }

    method ReadXor() returns (v: int)
      requires Valid()
      modifies this
      ensures Gave(Parse(7, old(Rest())), v, old(p), old(error)) && Fits(v)
      decreases |s| - p, 7
    {
      hide Parser.Rest, Parse, Loop, Starts, Skip, Fits, Apply, Product, Sum, Difference, Divided, Modulo, ShiftLeft,
           ShiftRight, Combined, WrapPower;
      ghost var all, was := Rest(), error;
      LevelStep(7, all);
      v := ReadAnd();
      while true
        invariant Valid() && old(p) <= p && Fits(v) && (was ==> error)
        invariant !error ==> Parse(7, all) == Loop(7, v, Skip(Rest()))
        invariant error && !was ==> Parse(7, all).Err?
        decreases |s| - p
      {
        hide Parser.Rest, Parse, Loop, Starts, Skip, Fits, Apply, Product, Sum, Difference, Divided, Modulo, ShiftLeft,
             ShiftRight, Combined, WrapPower;
        LoopStep(7, v, Skip(Rest()));
        SkipTwice(Rest());
        SkipSpace();
        var one := Sees("^");
        var two := Sees("^^");
        if one && !two {
          StartsFit(Rest());
          Step();
          var b := ReadAnd();
          ValuesFit(v, b);
          Applies(v, b);
          v := Combined(Xor, v, b);
          continue;
        }
        return;
      }
    }

    method ReadOr() returns (v: int)
      requires Valid()
      modifies this
      ensures Gave(Parse(8, old(Rest())), v, old(p), old(error)) && Fits(v)
      decreases |s| - p, 8
    {
      hide Parser.Rest, Parse, Loop, Starts, Skip, Fits, Apply, Product, Sum, Difference, Divided, Modulo, ShiftLeft,
           ShiftRight, Combined, WrapPower;
      ghost var all, was := Rest(), error;
      LevelStep(8, all);
      v := ReadXor();
      while true
        invariant Valid() && old(p) <= p && Fits(v) && (was ==> error)
        invariant !error ==> Parse(8, all) == Loop(8, v, Skip(Rest()))
        invariant error && !was ==> Parse(8, all).Err?
        decreases |s| - p
      {
        hide Parser.Rest, Parse, Loop, Starts, Skip, Fits, Apply, Product, Sum, Difference, Divided, Modulo, ShiftLeft,
             ShiftRight, Combined, WrapPower;
        LoopStep(8, v, Skip(Rest()));
        SkipTwice(Rest());
        var or := Eat("|");
        if or {
          var b := ReadXor();
          ValuesFit(v, b);
          Applies(v, b);
          v := Combined(Or, v, b);
          continue;
        }
        return;
      }
    }
  }

  /** The value of a whole line, or an error. */
  method Evaluate(expr: string) returns (r: Option<int>)
    ensures r == Evaluated(expr)
  {
    hide Parse, Skip, Fits, Evaluated;
    var ps := new Parser(expr);
    var v := ps.ReadOr();
    ghost var rest, wrong := ps.Rest(), ps.error;
    ps.SkipSpace();
    WholeLine(expr, wrong, v, rest);
    if !ps.error && ps.p < |ps.s| { ps.Fail(); }
    r := if ps.error then None else Some(v);
  }

  lemma WholeLine(s: string, wrong: bool, v: int, rest: string)
    requires if wrong then Parse(8, s[0..]).Err? else Parse(8, s[0..]) == Ok(v, Skip(rest))
    ensures Evaluated(s) == if wrong || |Skip(rest)| > 0 then None else Some(v)
  {
    hide Parse, Skip;
    assert s[0..] == s;
  }

  lemma SkipTwice(s: string)
    ensures Skip(Skip(s)) == Skip(s)
  {
  }

  lemma StartsFit(s: string)
    ensures Starts(s, "^") ==> |s| >= 1
  {
  }

  lemma ZeroFits()
    ensures Fits(0)
  {
  }

  lemma NumberIs(s: string)
    ensures var digits := DigitsOf(s);
      var rest := ScanRest(BaseOf(s), digits);
      Number(s) == if |rest| == |digits| then Err else Ok(ScanValue(BaseOf(s), digits, 0), Skip(rest))
  {
    hide ScanValue, ScanRest, Skip;
  }

  lemma PowerStep(s: string)
    ensures var r := Parse(0, s);
      Parse(1, s) ==
        if r.Err? || !Starts(r.rest, "**") then r
        else
          var q := Parse(1, r.rest[2..]);
          if q.Ok? && Apply(Pow, r.v, q.v).Some? then Ok(Apply(Pow, r.v, q.v).value, q.rest) else Err
  {
    hide Number, Loop, Apply;
  }

  lemma SignStep(s: string)
    ensures var t := Skip(s);
      Parse(2, s) ==
        if SignAt(t).Some? then
          var r := Parse(2, t[1..]);
          if r.Ok? then Ok(ApplySign(SignAt(t).value, r.v), r.rest) else Err
        else Parse(1, t)
  {
    hide Number, Loop, Apply, ApplySign;
  }

  lemma LevelStep(k: nat, s: string)
    requires 3 <= k <= 8
    ensures var r := Parse(k - 1, s); Parse(k, s) == if r.Ok? then Loop(k, r.v, r.rest) else Err
  {
    hide Loop, Number, Apply;
  }

  lemma LoopStep(k: nat, v: int, s: string)
    requires 3 <= k <= 8
    ensures OpAt(k, s).None? ==> Loop(k, v, s) == Ok(v, s)
    ensures OpAt(k, s).Some? ==> Width(OpAt(k, s).value) <= |s|
    ensures OpAt(k, s).Some? ==>
      var op := OpAt(k, s).value;
      var q := Parse(k - 1, s[Width(op)..]);
      Loop(k, v, s) == if q.Ok? && Apply(op, v, q.v).Some? then Loop(k, Apply(op, v, q.v).value, q.rest) else Err
  {
    hide Parse, Apply;
    OpFits(k, s);
  }

  lemma ValuesFit(a: int, b: int)
    ensures Fits(Product(a, b)) && Fits(Sum(a, b)) && Fits(Difference(a, b)) && Fits(ShiftLeft(a, b)) &&
      Fits(ShiftRight(a, b))
    ensures b != 0 ==> Fits(Divided(a, b)) && Fits(Modulo(a, b))
    ensures forall op :: Fits(Combined(op, a, b))
    ensures Fits(0)
  {
  }

  lemma Applies(a: int, b: int)
    ensures Apply(Mul, a, b) == Some(Product(a, b))
    ensures Apply(Div, a, b) == if b == 0 then None else Some(Divided(a, b))
    ensures Apply(Mod, a, b) == if b == 0 then None else Some(Modulo(a, b))
    ensures Apply(Add, a, b) == Some(Sum(a, b))
    ensures Apply(Sub, a, b) == Some(Difference(a, b))
    ensures Apply(Shl, a, b) == Some(ShiftLeft(a, b))
    ensures Apply(Shr, a, b) == Some(ShiftRight(a, b))
    ensures Apply(And, a, b) == Some(Combined(And, a, b))
    ensures Apply(Xor, a, b) == Some(Combined(Xor, a, b))
    ensures Apply(Or, a, b) == Some(Combined(Or, a, b))
  {
    hide Product, Divided, Modulo, Sum, Difference, ShiftLeft, ShiftRight, Combined;
  }

  lemma PowerApplies(a: int, b: int)
    ensures Apply(Pow, a, b) == if b < 0 || b > 63 then None else Some(WrapPower(a, b))
  {
    hide WrapPower;
  }
}
