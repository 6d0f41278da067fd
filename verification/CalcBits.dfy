/** What the operators of the calculator mean: bit by bit for those on bits, and by quotient,
    remainder and sign for division. */
module CalcBits {
  import opened CalcGrammar

  // ── Bits of a number ───────────────────────────────────────────────

  /** Bit `i` of a number in two's complement, however large it is. */
  predicate Bit(v: int, i: nat)
    decreases i
  {
    if i == 0 then v % 2 == 1 else Bit(v / 2, i - 1)
  }

  /** The number of `n` bits that has these, the last one being the sign. */
  function OfBits(bit: nat -> bool, from: nat, n: nat): int
    requires n > 0
    decreases n
  {
    if n == 1 then if bit(from) then -1 else 0
    else (if bit(from) then 1 else 0) + 2 * OfBits(bit, from + 1, n - 1)
  }

  /** What an operator on bits makes of two of them. */
  predicate Both(op: Op, x: bool, y: bool) {
    match op
    case And => x && y
    case Or => x || y
    case _ => x != y
  }

  predicate OnBits(op: Op) { op in {And, Or, Xor, Shl, Shr} }

  /** Bit `i` of what an operator makes of two numbers. What is shifted in is zero, and
      the distance of a shift counts by its low six bits. */
  predicate ResultBit(op: Op, a: int, b: int, i: nat)
    requires OnBits(op)
  {
    match op
    case Shl => i >= b % 64 && Bit(a, i - b % 64)
    case Shr => i + b % 64 < 64 && Bit(a, i + b % 64)
    case _ => Both(op, Bit(a, i), Bit(b, i))
  }

  /** The value that has exactly these bits. */
  function OnAllBits(op: Op, a: int, b: int): int
    requires OnBits(op)
  {
    OfBits((i: nat) => ResultBit(op, a, b, i), 0, 64)
  }

  // ── Numbers and their bits ─────────────────────────────────────────

  /** A number that `n` bits can hold. */
  predicate InBits(v: int, n: nat)
    requires n > 0
  {
    v < PowerOfTwo(n - 1) && -v <= PowerOfTwo(n - 1)
  }

  lemma {:induction false} OfBitsHas(bit: nat -> bool, from: nat, n: nat, i: nat)
    requires i < n
    ensures Bit(OfBits(bit, from, n), i) == bit(from + i)
    ensures InBits(OfBits(bit, from, n), n)
    decreases n
  {
    if n > 1 {
      var v := OfBits(bit, from + 1, n - 1);
      var low := if bit(from) then 1 else 0;
      Halves(v, low);
      OfBitsHas(bit, from + 1, n - 1, if i == 0 then 0 else i - 1);
    }
  }

  lemma Halves(v: int, low: int)
    requires 0 <= low <= 1
    ensures (low + 2 * v) / 2 == v && (low + 2 * v) % 2 == low
  {
  }

  /** Numbers of `n` bits with the same bits are the same. */
  lemma {:induction false} SameBits(v: int, w: int, n: nat)
    requires n > 0 && InBits(v, n) && InBits(w, n)
    requires forall i: nat | i < n :: Bit(v, i) == Bit(w, i)
    ensures v == w
    decreases n
  {
    assert Bit(v, 0) == Bit(w, 0);
    if n > 1 {
      forall i: nat | i < n - 1
        ensures Bit(v / 2, i) == Bit(w / 2, i)
      {
        assert Bit(v, i + 1) == Bit(w, i + 1);
      }
      SameBits(v / 2, w / 2, n - 1);
    }
  }

  /** Whole multiples of a power of two do not reach the bits below it. */
  lemma {:induction false} SameLowBits(v: int, w: int, m: int, n: nat, i: nat)
    requires v == w + m * PowerOfTwo(n) && i < n
    ensures Bit(v, i) == Bit(w, i)
    decreases i
  {
    var k := m * PowerOfTwo(n - 1);
    assert v == w + 2 * k;
    if i > 0 {
      assert v / 2 == w / 2 + k;
      SameLowBits(v / 2, w / 2, m, n - 1, i - 1);
    }
  }

  lemma PowersOfTwo()
    ensures PowerOfTwo(64) == TWO64 && PowerOfTwo(63) == TWO63
  {
    assert PowerOfTwo(8) == 256;
    assert PowerOfTwo(16) == 0x1_0000;
    assert PowerOfTwo(24) == 0x100_0000;
    assert PowerOfTwo(32) == 0x1_0000_0000;
    assert PowerOfTwo(40) == 0x100_0000_0000;
    assert PowerOfTwo(48) == 0x1_0000_0000_0000;
    assert PowerOfTwo(56) == 0x100_0000_0000_0000;
    assert PowerOfTwo(63) == 0x8000_0000_0000_0000;
  }

  /** Cutting a number to 64 bits leaves those as they are. */
  lemma WrapKeepsBits(v: int, i: nat)
    requires i < 64
    ensures Bit(Wrap(v), i) == Bit(v, i) && Bit(Bits(v), i) == Bit(v, i)
  {
    hide PowerOfTwo;
    PowersOfTwo();
    var m := v / TWO64;
    assert v == Bits(v) + m * TWO64;
    SameLowBits(v, Bits(v), m, 64, i);
    if Wrap(v) != Bits(v) { SameLowBits(v, Wrap(v), m + 1, 64, i); }
  }

  lemma {:induction false} NoHighBits(v: nat, n: nat, i: nat)
    requires v < PowerOfTwo(n) && i >= n
    ensures !Bit(v, i)
    decreases i
  {
    if i > 0 { NoHighBits(v / 2, if n == 0 then 0 else n - 1, i - 1); }
  }

  // ── The operators ──────────────────────────────────────────────────

  lemma {:induction false} BitwiseBits(op: Op, a: nat, b: nat, n: nat, i: nat)
    requires op in {And, Or, Xor} && i < n
    ensures Bit(Bitwise(op, a, b, n), i) == Both(op, Bit(a, i), Bit(b, i))
    decreases n
  {
    var (x, y) := (a % 2, b % 2);
    var rest := Bitwise(op, a / 2, b / 2, n - 1);
    var bit := if op == And then x * y else if op == Or then if x + y > 0 then 1 else 0 else (x + y) % 2;
    assert Bitwise(op, a, b, n) == bit + 2 * rest;
    Halves(rest, bit);
    if i > 0 { BitwiseBits(op, a / 2, b / 2, n - 1, i - 1); }
  }

  lemma {:induction false} TimesPower(u: int, k: nat, i: nat)
    ensures Bit(u * PowerOfTwo(k), i) <==> i >= k && Bit(u, i - k)
    decreases k
  {
    if k > 0 {
      var v := u * PowerOfTwo(k - 1);
      assert u * PowerOfTwo(k) == 2 * v;
      Halves(v, 0);
      if i > 0 { TimesPower(u, k - 1, i - 1); }
    }
  }

  lemma {:induction false} OverPower(u: nat, k: nat, i: nat)
    ensures Bit(u / PowerOfTwo(k), i) == Bit(u, i + k)
    decreases k
  {
    if k > 0 {
      HalfFirst(u, PowerOfTwo(k - 1));
      OverPower(u / 2, k - 1, i);
    }
  }

  lemma HalfFirst(u: nat, p: nat)
    requires p > 0
    ensures u / (2 * p) == u / 2 / p
  {
    var h := u / 2;
    var (q, r) := (h / p, h % p);
    assert h == p * q + r;
    QuotientOf(u, 2 * p, q, 2 * r + u % 2);
  }

  lemma QuotientOf(u: int, d: int, q: int, r: int)
    requires d > 0 && u == d * q + r && 0 <= r < d
    ensures u / d == q && u % d == r
  {
    var (q', r') := (u / d, u % d);
    assert d * (q - q') == d * q - d * q';
    NoMultiple(d, q - q');
  }

  lemma NoMultiple(d: int, x: int)
    requires d > 0 && d * x < d && -d < d * x
    ensures x == 0
  {
    Scaled(d, x);
  }

  lemma Scaled(d: int, x: int)
    requires d > 0
    ensures (x >= 1 ==> d * x >= d) && (x <= -1 ==> d * x <= -d)
  {
    if x >= 1 {
      assert d * x >= d * 1;
    } else if x <= -1 {
      assert d * x <= d * -1;
    }
  }

  /** Every bit of a result is the one that the operator makes of the operands' bits. */
  lemma ResultBits(op: Op, a: int, b: int, i: nat)
    requires OnBits(op) && i < 64
    ensures Apply(op, a, b).Some? && Bit(Apply(op, a, b).value, i) == ResultBit(op, a, b, i)
  {
    hide Bit, PowerOfTwo, Bitwise, Wrap, Bits;
    var k := b % 64;
    var u := Bits(a);
    if op == Shl {
      WrapKeepsBits(u * PowerOfTwo(k), i);
      TimesPower(u, k, i);
      if i >= k { WrapKeepsBits(a, i - k); }
    } else if op == Shr {
      WrapKeepsBits(u / PowerOfTwo(k), i);
      OverPower(u, k, i);
      if i + k < 64 {
        WrapKeepsBits(a, i + k);
      } else {
        PowersOfTwo();
        NoHighBits(u, 64, i + k);
      }
    } else {
      WrapKeepsBits(Bitwise(op, u, Bits(b), 64), i);
      BitwiseBits(op, u, Bits(b), 64, i);
      WrapKeepsBits(a, i);
      WrapKeepsBits(b, i);
    }
  }

  /** So a result is the value made of those bits. */
  lemma ResultOfBits(op: Op, a: int, b: int)
    requires OnBits(op)
    ensures Apply(op, a, b).Some? && Apply(op, a, b).value == OnAllBits(op, a, b) && Fits(OnAllBits(op, a, b))
  {
    hide Bit, PowerOfTwo, Apply, ResultBit, OfBits;
    PowersOfTwo();
    ResultBits(op, a, b, 0);
    var bit := (i: nat) => ResultBit(op, a, b, i);
    OfBitsHas(bit, 0, 64, 0);
    ApplyFits(op, a, b);
    forall i: nat | i < 64
      ensures Bit(Apply(op, a, b).value, i) == Bit(OnAllBits(op, a, b), i)
    {
      ResultBits(op, a, b, i);
      OfBitsHas(bit, 0, 64, i);
    }
    SameBits(Apply(op, a, b).value, OnAllBits(op, a, b), 64);
  }

  lemma ApplyFits(op: Op, a: int, b: int)
    requires OnBits(op)
    ensures Apply(op, a, b).Some? && Fits(Apply(op, a, b).value)
  {
  }

  /** The sign that turns every bit. */
  lemma {:induction false} NotTurnsBits(v: int, i: nat)
    ensures Bit(ApplySign(Not, v), i) == !Bit(v, i)
    decreases i
  {
    if i > 0 {
      assert (-v - 1) / 2 == -(v / 2) - 1;
      NotTurnsBits(v / 2, i - 1);
    }
  }

  // ── Division ───────────────────────────────────────────────────────

  /** `q` and `r` are quotient and remainder of a division towards zero. */
  predicate Divides(a: int, b: int, q: int, r: int) {
    a == b * q + r && Size(r) < Size(b) && (r != 0 ==> (r < 0 <==> a < 0))
  }

  function Size(v: int): nat { if v < 0 then -v else v }

  /** The quotient and the remainder are the ones of a division towards zero, and the only ones. */
  lemma DivisionMeans(a: int, b: int, q: int, r: int)
    requires b != 0
    ensures Divides(a, b, q, r) <==> q == Quotient(a, b) && r == Remainder(a, b)
  {
    DivisionDivides(a, b);
    if Divides(a, b, q, r) { OneDivision(a, b, q, r, Quotient(a, b), Remainder(a, b)); }
  }

  lemma DivisionDivides(a: int, b: int)
    requires b != 0
    ensures Divides(a, b, Quotient(a, b), Remainder(a, b))
  {
    var n := if a >= 0 then a else -a;
    var (q, r) := (n / b, n % b);
    assert n == b * q + r && 0 <= r < Size(b);
    if a < 0 { assert b * -q == -(b * q); }
  }

  lemma OneDivision(a: int, b: int, q: int, r: int, p: int, s: int)
    requires b != 0 && Divides(a, b, q, r) && Divides(a, b, p, s)
    ensures q == p && r == s
  {
    assert b * (q - p) == s - r;
    if q != p {
      assert Size(s - r) < Size(b) by { assert r == 0 || s == 0 || (r < 0 <==> s < 0); }
      Larger(b, q - p);
    }
  }

  lemma Larger(b: int, d: int)
    requires d != 0
    ensures Size(b * d) >= Size(b)
  {
    if d > 0 {
      assert b >= 0 ==> b * d >= b;
      assert b < 0 ==> b * d <= b;
    } else {
      assert b >= 0 ==> b * d <= -b;
      assert b < 0 ==> b * d >= -b;
    }
  }
}
