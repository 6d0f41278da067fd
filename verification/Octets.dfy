/** Bytes, and the numbers and strings they spell in memory. */
module Octets {
  newtype Byte = x: int | 0 <= x < 256

  const U32 := 0x1_0000_0000
  const U64 := 0x1_0000_0000_0000_0000

  /** The 32-bit number with its most significant byte at `p`. */
  function Be32(m: seq<Byte>, p: nat): (v: int)
    requires p + 4 <= |m|
    ensures 0 <= v < U32
  {
    ((m[p] as int * 256 + m[p + 1] as int) * 256 + m[p + 2] as int) * 256 + m[p + 3] as int
  }

  function Put32(v: int): (s: seq<Byte>)
    requires 0 <= v < U32
    ensures |s| == 4
  {
    var (a, b, c) := (v / 256, v / 256 / 256, v / 256 / 256 / 256);
    [c as Byte, (b % 256) as Byte, (a % 256) as Byte, (v % 256) as Byte]
  }

  lemma Put32Reads(v: int, m: seq<Byte>, p: nat)
    requires 0 <= v < U32 && p + 4 <= |m| && m[p..p + 4] == Put32(v)
    ensures Be32(m, p) == v
  {
    var s := m[p..p + 4];
    var (a, b, c) := (v / 256, v / 256 / 256, v / 256 / 256 / 256);
    assert v == a * 256 + v % 256 && a == b * 256 + a % 256 && b == c * 256 + b % 256;
    assert m[p] == s[0] && m[p + 1] == s[1] && m[p + 2] == s[2] && m[p + 3] == s[3];
  }

  /** The same numbers with the least significant byte first. */
  function Le16(m: seq<Byte>, p: nat): (v: int)
    requires p + 2 <= |m|
    ensures 0 <= v < 0x1_0000
  {
    m[p] as int + m[p + 1] as int * 256
  }

  function Le32(m: seq<Byte>, p: nat): (v: int)
    requires p + 4 <= |m|
    ensures 0 <= v < U32
  {
    m[p] as int + (m[p + 1] as int + (m[p + 2] as int + m[p + 3] as int * 256) * 256) * 256
  }

  /** The string at `p`, up to its NUL. */
  function CStr(m: seq<Byte>, p: nat): (s: seq<Byte>)
    ensures p + |s| <= |m| || s == []
    ensures 0 !in s
    decreases |m| - p
  {
    if p < |m| && m[p] != 0 then [m[p]] + CStr(m, p + 1) else []
  }

  /** A string with its NUL is what is read back, whatever follows. */
  lemma {:induction false} CStrReads(m: seq<Byte>, p: nat, s: seq<Byte>)
    requires 0 !in s && p + |s| < |m| && m[p..p + |s|] == s && m[p + |s|] == 0
    ensures CStr(m, p) == s
    decreases |s|
  {
    if s != [] {
      assert m[p] == s[0] && s[0] in s;
      assert m[p + 1..p + |s|] == s[1..];
      CStrReads(m, p + 1, s[1..]);
    }
  }

  /** Where the string ends, if a NUL ends it. */
  lemma {:induction false} CStrEnds(m: seq<Byte>, p: nat)
    ensures p <= |m| ==> m[p..p + |CStr(m, p)|] == CStr(m, p)
    ensures p + |CStr(m, p)| < |m| ==> m[p + |CStr(m, p)|] == 0
    decreases |m| - p
  {
    if p < |m| && m[p] != 0 {
      CStrEnds(m, p + 1);
    }
  }

  function Align4(n: nat): (r: nat)
    ensures n <= r < n + 4 && r % 4 == 0
  {
    (n + 3) / 4 * 4
  }

  function Zeros(n: nat): (s: seq<Byte>)
    ensures |s| == n && forall i | 0 <= i < n :: s[i] == 0
  {
    seq(n, _ => 0 as Byte)
  }
}
