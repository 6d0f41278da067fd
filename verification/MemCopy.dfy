/** The memory routines of the firmware: fills and copies, eight bytes at a time where the
    alignment allows it. An address is an index into memory. */
module MemCopy {
  import opened Octets

  type Word = s: seq<Byte> | |s| == 8 witness Zeros(8)

  /** A word is read and written at once, at an aligned address. */
  method Load(mem: array<Byte>, at: nat) returns (w: Word)
    requires at % 8 == 0 && at + 8 <= mem.Length
    ensures w == mem[at..at + 8]
  {
    w := mem[at..at + 8];
  }

  method Store(mem: array<Byte>, at: nat, w: Word)
    requires at % 8 == 0 && at + 8 <= mem.Length
    modifies mem
    ensures mem[..] == Placed(old(mem[..]), at, w)
  {
    forall k | 0 <= k < 8 {
      mem[at + k] := w[k];
    }
  }

  /** Memory with `data` put at an address, everything else as it was. */
  function Placed(mem: seq<Byte>, at: nat, data: seq<Byte>): seq<Byte>
    requires at + |data| <= |mem|
  {
    mem[..at] + data + mem[at + |data|..]
  }

  /** Places `lo` to `hi` of a copy are made, and nothing else is changed. */
  ghost predicate Copied(mem: seq<Byte>, was: seq<Byte>, dst: nat, src: nat, lo: nat, hi: nat)
    requires lo <= hi && src + hi <= |was| && dst + hi <= |was|
  {
    && |mem| == |was| && mem[..dst + lo] == was[..dst + lo]
    && mem[dst + lo..dst + hi] == was[src + lo..src + hi] && mem[dst + hi..] == was[dst + hi..]
  }

  lemma CopiedAll(mem: seq<Byte>, was: seq<Byte>, dst: nat, src: nat, n: nat)
    requires src + n <= |was| && dst + n <= |was| && Copied(mem, was, dst, src, 0, n)
    ensures mem == Placed(was, dst, was[src..src + n])
  {
    assert mem == mem[..dst] + mem[dst..dst + n] + mem[dst + n..];
  }

  lemma NothingCopied(was: seq<Byte>, dst: nat, src: nat, at: nat)
    requires src + at <= |was| && dst + at <= |was|
    ensures Copied(was, was, dst, src, at, at)
  {
  }

  /** More at the end. */
  lemma CopiedOn(mem: seq<Byte>, was: seq<Byte>, dst: nat, src: nat, hi: nat, w: seq<Byte>)
    requires src + hi + |w| <= |was| && dst + hi + |w| <= |was| && Copied(mem, was, dst, src, 0, hi)
    requires w == was[src + hi..src + hi + |w|]
    ensures Copied(Placed(mem, dst + hi, w), was, dst, src, 0, hi + |w|)
  {
    var p := Placed(mem, dst + hi, w);
    assert p[..dst + 0] == mem[..dst + 0];
    assert p[dst..dst + (hi + |w|)] == mem[dst..dst + hi] + w;
    assert was[src..src + (hi + |w|)] == was[src..src + hi] + w;
    assert p[dst + (hi + |w|)..] == mem[dst + hi..][|w|..];
  }

  /** One more in front. */
  lemma CopiedBack(mem: seq<Byte>, was: seq<Byte>, dst: nat, src: nat, lo: nat, hi: nat)
    requires lo < hi && src + hi <= |was| && dst + hi <= |was| && Copied(mem, was, dst, src, lo + 1, hi)
    ensures Copied(mem[dst + lo := was[src + lo]], was, dst, src, lo, hi)
  {
    var p := mem[dst + lo := was[src + lo]];
    assert p[..dst + lo] == mem[..dst + (lo + 1)][..dst + lo];
    assert p[dst + lo..dst + hi] == [was[src + lo]] + mem[dst + (lo + 1)..dst + hi];
  }

  /** What has been written lies in front of what is still to be read. */
  lemma Unread(mem: seq<Byte>, was: seq<Byte>, dst: nat, src: nat, hi: nat, k: nat)
    requires src + hi + k <= |was| && dst + hi <= |was| && Copied(mem, was, dst, src, 0, hi)
    requires dst <= src || src + hi + k <= dst
    ensures mem[src + hi..src + hi + k] == was[src + hi..src + hi + k]
  {
    if dst <= src {
      var i := src - dst;
      assert mem[src + hi..src + hi + k] == mem[dst + hi..][i..i + k];
      assert was[src + hi..src + hi + k] == was[dst + hi..][i..i + k];
    } else {
      assert mem[src + hi..src + hi + k] == mem[..dst + 0][src + hi..src + hi + k];
      assert was[src + hi..src + hi + k] == was[..dst + 0][src + hi..src + hi + k];
    }
  }

  /** The same byte everywhere from `lo` to `hi`. */
  ghost predicate Filled(mem: seq<Byte>, was: seq<Byte>, lo: nat, hi: nat, v: Byte) {
    |mem| == |was| && forall k | 0 <= k < |mem| :: mem[k] == if lo <= k < hi then v else was[k]
  }

  /** A word made of one byte, by multiplication. */
  function Spread(v: Byte): nat { 0x0101_0101_0101_0101 * v as nat }

  /** The bytes of a number as they stand in memory. */
  function LeBytes(v: nat, n: nat): (s: seq<Byte>)
    ensures |s| == n
  {
    if n == 0 then [] else [(v % 256) as Byte] + LeBytes(v / 256, n - 1)
  }

  /** `n` ones in base 256, each times the byte. */
  function Ones(n: nat): nat { if n == 0 then 0 else Ones(n - 1) * 256 + 1 }

  lemma {:induction false} SpreadBytes(v: Byte, n: nat)
    ensures LeBytes(Ones(n) * v as nat, n) == seq(n, _ => v)
  {
    if n > 0 {
      var x := v as nat;
      SpreadBytes(v, n - 1);
      assert Ones(n) * x == 256 * (Ones(n - 1) * x) + x;
      assert Ones(n) * x / 256 == Ones(n - 1) * x && Ones(n) * x % 256 == x;
      assert [v] + seq(n - 1, _ => v) == seq(n, _ => v);
    }
  }

  lemma SpreadFills(v: Byte)
    ensures LeBytes(Spread(v), 8) == seq(8, _ => v)
  {
    assert Ones(8) == 0x0101_0101_0101_0101;
    SpreadBytes(v, 8);
  }

  method MemSet(mem: array<Byte>, dst: nat, c: int, n: nat)
    requires dst + n <= mem.Length
    modifies mem
    ensures mem[..] == Placed(old(mem[..]), dst, seq(n, _ => (c % 256) as Byte))
  {
    hide LeBytes, Spread;
    var v := (c % 256) as Byte;
    var d, left := dst, n;
    ghost var was := mem[..];
    while left > 0 && d % 8 != 0
      invariant dst <= d && d + left == dst + n && Filled(mem[..], was, dst, d, v)
      decreases left
    {
      mem[d] := v;
      d, left := d + 1, left - 1;
    }
    var w := LeBytes(Spread(v), 8);
    SpreadFills(v);
    while left >= 8
      invariant dst <= d && d + left == dst + n && (left >= 8 ==> d % 8 == 0) && Filled(mem[..], was, dst, d, v)
      decreases left
    {
      Store(mem, d, w);
      d, left := d + 8, left - 8;
    }
    while left > 0
      invariant dst <= d && d + left == dst + n && Filled(mem[..], was, dst, d, v)
      decreases left
    {
      mem[d] := v;
      d, left := d + 1, left - 1;
    }
    assert mem[..] == Placed(was, dst, seq(n, _ => v));
  }

  predicate Aligned(at: nat) { at % 8 == 0 }

  /** Two places that were equally far from a boundary still are. */
  lemma SameAlignment(dst: nat, src: nat, d: nat, s: nat)
    requires dst % 8 == src % 8 && d - dst == s - src && Aligned(d)
    ensures Aligned(s)
  {
  }

  lemma AlignedOn(d: nat)
    requires Aligned(d)
    ensures Aligned(d + 8)
  {
  }

  /** Front to back, which is right for apart regions and for moving down: what has been
      written lies in front of what is still to be read. */
  method MemCpy(mem: array<Byte>, dst: nat, src: nat, n: nat)
    requires dst + n <= mem.Length && src + n <= mem.Length
    requires dst <= src || src + n <= dst
    modifies mem
    ensures mem[..] == Placed(old(mem[..]), dst, old(mem[src..src + n]))
  {
    hide Copied, Placed;
    ghost var was := mem[..];
    var d, s, left := dst, src, n;
    NothingCopied(was, dst, src, 0);
    if dst % 8 == src % 8 {
      while left > 0 && !Aligned(d)
        invariant d - dst == s - src == n - left && 0 <= left <= n && mem.Length == |was|
        invariant Copied(mem[..], was, dst, src, 0, n - left)
        decreases left
      {
        hide Copied, Placed;
        CopyOne(mem, dst, src, n - left, was);
        d, s, left := d + 1, s + 1, left - 1;
      }
      while left >= 8
        invariant d - dst == s - src == n - left && 0 <= left <= n && mem.Length == |was|
        invariant left >= 8 ==> Aligned(d)
        invariant Copied(mem[..], was, dst, src, 0, n - left)
        decreases left
      {
        hide Copied, Placed, Aligned;
        SameAlignment(dst, src, d, s);
        AlignedOn(d);
        CopyWord(mem, dst, src, n - left, was);
        d, s, left := d + 8, s + 8, left - 8;
      }
    }
    while left > 0
      invariant d - dst == s - src == n - left && 0 <= left <= n && mem.Length == |was|
      invariant Copied(mem[..], was, dst, src, 0, n - left)
      decreases left
    {
      hide Copied, Placed;
      CopyOne(mem, dst, src, n - left, was);
      d, s, left := d + 1, s + 1, left - 1;
    }
    CopiedAll(mem[..], was, dst, src, n);
  }

  method CopyOne(mem: array<Byte>, dst: nat, src: nat, i: nat, ghost was: seq<Byte>)
    requires mem.Length == |was| && dst + i < |was| && src + i < |was| && (dst <= src || src + i < dst)
    requires Copied(mem[..], was, dst, src, 0, i)
    modifies mem
    ensures Copied(mem[..], was, dst, src, 0, i + 1)
  {
    hide Copied;
    ghost var now := mem[..];
    Unread(now, was, dst, src, i, 1);
    assert now[src + i] == now[src + i..src + i + 1][0] == was[src + i..src + i + 1][0];
    CopiedOn(now, was, dst, src, i, [was[src + i]]);
    mem[dst + i] := mem[src + i];
    assert mem[..] == Placed(now, dst + i, [was[src + i]]);
  }

  method CopyWord(mem: array<Byte>, dst: nat, src: nat, i: nat, ghost was: seq<Byte>)
    requires mem.Length == |was| && dst + i + 8 <= |was| && src + i + 8 <= |was| && (dst <= src || src + i + 8 <= dst)
    requires Aligned(dst + i) && Aligned(src + i) && Copied(mem[..], was, dst, src, 0, i)
    modifies mem
    ensures Copied(mem[..], was, dst, src, 0, i + 8)
  {
    hide Copied, Placed;
    ghost var now := mem[..];
    Unread(now, was, dst, src, i, 8);
    var w := Load(mem, src + i);
    assert w == now[src + i..src + i + 8];
    CopiedOn(now, was, dst, src, i, w);
    Store(mem, dst + i, w);
  }

  /** A copy as if all of it were read before any of it is written, however the regions lie. */
  method MemMove(mem: array<Byte>, dst: nat, src: nat, n: nat)
    requires dst + n <= mem.Length && src + n <= mem.Length
    modifies mem
    ensures mem[..] == Placed(old(mem[..]), dst, old(mem[src..src + n]))
  {
    if dst == src || n == 0 { return; }
    if dst < src {
      MemCpy(mem, dst, src, n);
      return;
    }
    ghost var was := mem[..];
    var d, s, left := dst + n, src + n, n;
    NothingCopied(was, dst, src, n);
    while left > 0
      invariant 0 <= left <= n && d == dst + left && s == src + left && mem.Length == |was|
      invariant Copied(mem[..], was, dst, src, left, n)
      decreases left
    {
      ghost var now := mem[..];
      d, s, left := d - 1, s - 1, left - 1;
      assert now[s] == now[..d + 1][s] == was[..d + 1][s];
      CopiedBack(now, was, dst, src, left, n);
      mem[d] := mem[s];
      assert mem[..] == now[d := was[s]];
    }
    CopiedAll(mem[..], was, dst, src, n);
  }
}
