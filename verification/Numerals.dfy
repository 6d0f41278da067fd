/** Numbers as digits in a base of up to sixteen, lower case and without leading zeros. */
module Numerals {
  import opened Optional

  function DigitChar(d: nat): char
    requires d < 16
  {
    if d < 10 then ('0' as int + d) as char else ('a' as int + d - 10) as char
  }

  /** What a character counts as a digit. */
  function DigitOf(c: char): Option<nat> {
    if '0' <= c <= '9' then Some(c as nat - '0' as nat)
    else if 'a' <= c <= 'f' then Some(c as nat - 'a' as nat + 10)
    else if 'A' <= c <= 'F' then Some(c as nat - 'A' as nat + 10)
    else None
  }

  /** A number without its last digit, and that digit. */
  function Front(v: nat, base: nat): (r: nat)
    requires base >= 2
    ensures v >= base ==> 0 < r < v
  {
    FrontBounds(v, base);
    v / base
  }

  function Back(v: nat, base: nat): (r: nat)
    requires base >= 2
    ensures r < base
  {
    v % base
  }

  lemma FrontBounds(v: nat, base: nat)
    requires base >= 2
    ensures v / base * base + v % base == v && (v >= base ==> 0 < v / base < v)
  {
    var q := v / base;
    assert q * base + v % base == v;
    if q >= 1 { assert q * base >= q * 2; }
  }

  lemma FrontAndBack(v: nat, base: nat)
    requires base >= 2
    ensures Front(v, base) * base + Back(v, base) == v
  {
    FrontBounds(v, base);
  }

  function Digits(v: nat, base: nat): (s: string)
    requires 2 <= base <= 16
    ensures |s| > 0
  {
    if v < base then [DigitChar(v)] else Digits(Front(v, base), base) + [DigitChar(Back(v, base))]
  }

  lemma {:induction false} DigitsStart(v: nat, base: nat)
    requires 2 <= base <= 16
    ensures v < base ==> Digits(v, base)[0] == DigitChar(v)
    ensures base <= 10 ==> '0' <= Digits(v, base)[0] <= '9'
  {
    hide Front, Back;
    if v >= base { DigitsStart(Front(v, base), base); }
  }

  lemma {:induction false} LeadingDigit(v: nat, base: nat)
    requires 2 <= base <= 16 && v > 0
    ensures Digits(v, base)[0] != '0'
    decreases v
  {
    hide Front, Back;
    if v >= base { LeadingDigit(Front(v, base), base); }
  }
}
