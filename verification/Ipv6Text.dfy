/** Addresses of 128 bits as text: eight groups, the first longest run of zero groups
    collapsed, and a reader that gets the groups back. */
module Ipv6Text {
  import opened Numerals
  import opened Octets
  import opened Optional
  import opened Sequences

  type Groups = g: seq<nat> | |g| == 8 && forall i | 0 <= i < 8 :: g[i] < 0x1_0000 witness seq(8, _ => 0)

  function GroupsOf(b: seq<Byte>): Groups
    requires |b| == 16
  {
    seq(8, i requires 0 <= i < 8 => b[2 * i] as nat * 256 + b[2 * i + 1] as nat)
  }

  // ── Canonical text ─────────────────────────────────────────────────

  function Hex(v: nat): string { Digits(v, 16) }

  /** Groups with colons between them. */
  function Join(g: seq<nat>): string {
    if g == [] then ""
    else if |g| == 1 then Hex(g[0])
    else Join(g[..|g| - 1]) + ":" + Hex(g[|g| - 1])
  }

  predicate ZeroRun(g: seq<nat>, from: nat, to: nat) { from <= to <= |g| && forall i | from <= i < to :: g[i] == 0 }

  /** The run to collapse: none is longer, and none that is as long comes before it. */
  ghost predicate FirstLongest(g: seq<nat>, from: nat, to: nat) {
    && ZeroRun(g, from, to)
    && forall i: nat, j: nat | ZeroRun(g, i, j) :: j - i <= to - from && (j - i == to - from && i < j ==> from <= i)
  }

  /** The text once the run is known; a single zero group is not collapsed. */
  function TextWith(g: seq<nat>, from: nat, to: nat): string
    requires from <= to <= |g|
  {
    if to - from < 2 then Join(g) else Join(g[..from]) + "::" + Join(g[to..])
  }

  // ── Reading it back ────────────────────────────────────────────────

  /** The value of some digits, and of a group of them. */
  function HexValue(s: string, v: nat): Option<nat> {
    if s == "" then Some(v)
    else if DigitOf(s[0]).Some? then HexValue(s[1..], v * 16 + DigitOf(s[0]).value)
    else None
  }

  function UpToColon(s: string): (r: string)
    ensures |r| <= |s| && r <= s && (|r| < |s| ==> s[|r|] == ':')
  {
    if s == "" || s[0] == ':' then "" else [s[0]] + UpToColon(s[1..])
  }

  function ReadGroups(s: string): Option<seq<nat>> {
    if s == "" then Some([]) else ReadMore(s)
  }

  /** Groups separated by single colons. */
  function ReadMore(s: string): Option<seq<nat>> {
    var w := UpToColon(s);
    var v := HexValue(w, 0);
    if w == "" || v.None? then None
    else if |w| == |s| then Some([v.value])
    else
      var rest := ReadMore(s[|w| + 1..]);
      if rest.None? then None else Some([v.value] + rest.value)
  }

  /** Where two colons stand next to each other first. */
  function DoubleAt(s: string): (r: Option<nat>)
    ensures r.Some? ==> r.value + 2 <= |s|
  {
    if |s| < 2 then None
    else if s[0] == ':' && s[1] == ':' then Some(0)
    else
      var r := DoubleAt(s[1..]);
      if r.Some? then Some(r.value + 1) else None
  }

  /** Eight groups, or fewer with two colons for the zero groups left out. */
  function ReadV6(s: string): Option<seq<nat>> {
    var at := DoubleAt(s);
    if at.None? then
      var g := ReadGroups(s);
      if g.Some? && |g.value| == 8 then g else None
    else
      var (a, b) := (ReadGroups(s[..at.value]), ReadGroups(s[at.value + 2..]));
      if a.Some? && b.Some? && |a.value| + |b.value| < 8
      then Some(a.value + seq(8 - |a.value| - |b.value|, _ => 0) + b.value)
      else None
  }

  // ── The text of every address is read back ─────────────────────────

  lemma {:induction false} JoinFront(v: nat, g: seq<nat>)
    requires g != []
    ensures Join([v] + g) == Hex(v) + ":" + Join(g)
    decreases |g|
  {
    hide Digits;
    var n := |g| - 1;
    assert ([v] + g)[..|g|] == [v] + g[..n];
    if n == 0 {
      assert [v] + g[..0] == [v];
    } else {
      JoinFront(v, g[..n]);
      assert Hex(v) + ":" + Join(g[..n]) + ":" + Hex(g[n]) == Hex(v) + ":" + (Join(g[..n]) + ":" + Hex(g[n]));
    }
  }

  predicate AllHex(s: string) { forall i | 0 <= i < |s| :: DigitOf(s[i]).Some? && s[i] != ':' }

  /** A group is lower case and has no leading zeros. */
  lemma {:induction false} HexIsHex(v: nat)
    ensures AllHex(Hex(v)) && forall i | 0 <= i < |Hex(v)| :: !('A' <= Hex(v)[i] <= 'F')
    ensures v > 0 ==> Hex(v)[0] != '0'
    ensures v == 0 ==> Hex(v) == "0"
    decreases v
  {
    hide Front, Back;
    DigitsAre(if v < 16 then v else Back(v, 16));
    if v > 0 { LeadingDigit(v, 16); }
    if v >= 16 {
      HexIsHex(Front(v, 16));
    }
  }

  lemma DigitsAre(d: nat)
    requires d < 16
    ensures DigitOf(DigitChar(d)) == Some(d) && DigitChar(d) != ':' && !('A' <= DigitChar(d) <= 'F')
  {
  }

  lemma {:induction false} HexReads(v: nat, tail: string)
    ensures HexValue(Hex(v) + tail, 0) == HexValue(tail, v)
    decreases v
  {
    hide Front, Back, DigitChar, DigitOf;
    if v < 16 {
      DigitsAre(v);
      assert Hex(v) + tail == [DigitChar(v)] + tail;
      assert ([DigitChar(v)] + tail)[1..] == tail;
    } else {
      var (f, d) := (Front(v, 16), Back(v, 16));
      DigitsAre(d);
      var one := [DigitChar(d)] + tail;
      assert Hex(v) + tail == Hex(f) + one;
      HexReads(f, one);
      assert one[1..] == tail;
      FrontAndBack(v, 16);
    }
  }

  lemma {:induction false} ColonEnds(w: string, tail: string)
    requires AllHex(w) && (tail == "" || tail[0] == ':')
    ensures UpToColon(w + tail) == w
    decreases |w|
  {
    if w == "" {
      assert w + tail == tail;
    } else {
      ColonEnds(w[1..], tail);
      assert (w + tail)[1..] == w[1..] + tail;
    }
  }

  /** Joined groups are read back. */
  lemma {:induction false} GroupsRead(g: seq<nat>)
    ensures ReadGroups(Join(g)) == Some(g)
  {
    if g != [] {
      MoreRead(g);
      JoinStarts(g);
    }
  }

  lemma {:induction false} MoreRead(g: seq<nat>)
    requires g != []
    ensures ReadMore(Join(g)) == Some(g)
    decreases |g|
  {
    hide Digits, HexValue, UpToColon, Join;
    var w := Hex(g[0]);
    HexIsHex(g[0]);
    HexReads(g[0], "");
    assert w + "" == w;
    HexEnds(g[0]);
    if |g| == 1 {
      ColonEnds(w, "");
      JoinOne(g);
      assert [g[0]] == g;
    } else {
      var rest := Join(g[1..]);
      assert [g[0]] + g[1..] == g;
      JoinFront(g[0], g[1..]);
      ColonEnds(w, ":" + rest);
      assert w + ":" + rest == w + (":" + rest);
      assert (w + (":" + rest))[|w| + 1..] == rest;
      MoreRead(g[1..]);
    }
  }

  lemma HexEnds(v: nat)
    ensures HexValue("", v) == Some(v)
  {
  }

  lemma JoinOne(g: seq<nat>)
    requires |g| == 1
    ensures Join(g) == Hex(g[0])
  {
  }

  /** Text in which every colon stands between other characters. */
  predicate Clean(s: string) { forall i | 0 <= i < |s| && s[i] == ':' :: i + 1 < |s| && s[i + 1] != ':' }

  lemma JoinStarts(g: seq<nat>)
    requires g != []
    ensures Join(g) != "" && Join(g)[0] != ':'
  {
    HexIsHex(g[0]);
    if |g| == 1 {
      JoinOne(g);
    } else {
      assert [g[0]] + g[1..] == g;
      JoinFront(g[0], g[1..]);
    }
  }

  lemma {:induction false} JoinIsClean(g: seq<nat>)
    ensures Clean(Join(g))
    decreases |g|
  {
    hide Digits;
    if |g| == 1 {
      HexIsHex(g[0]);
    } else if |g| > 1 {
      var w, rest := Hex(g[0]), Join(g[1..]);
      assert [g[0]] + g[1..] == g;
      JoinFront(g[0], g[1..]);
      JoinIsClean(g[1..]);
      JoinStarts(g[1..]);
      HexIsHex(g[0]);
      var s := w + ":" + rest;
      forall i | 0 <= i < |s| && s[i] == ':'
        ensures i + 1 < |s| && s[i + 1] != ':'
      {
        if i > |w| {
          assert s[i] == rest[i - |w| - 1];
          assert s[i + 1] == rest[i - |w|];
        }
      }
    }
  }

  lemma {:induction false} DoubleFound(s: string, tail: string)
    requires Clean(s)
    ensures DoubleAt(s + "::" + tail) == Some(|s|)
    decreases |s|
  {
    var t := s + "::" + tail;
    if s != "" {
      assert t[1..] == s[1..] + "::" + tail;
      CleanOn(s);
      DoubleFound(s[1..], tail);
      assert t[0] == s[0] && (s[0] == ':' ==> t[1] == s[1]);
    }
  }

  lemma CleanOn(s: string)
    requires Clean(s) && s != ""
    ensures Clean(s[1..])
  {
    forall i | 0 <= i < |s[1..]| && s[1..][i] == ':'
      ensures i + 1 < |s[1..]| && s[1..][i + 1] != ':'
    {
      assert s[i + 1] == ':';
    }
  }

  lemma {:induction false} NoDouble(s: string)
    requires Clean(s)
    ensures DoubleAt(s) == None
    decreases |s|
  {
    if |s| >= 2 {
      CleanOn(s);
      NoDouble(s[1..]);
    }
  }

  /** The canonical text spells the groups: reading it gives them all back, with the
      collapsed ones as zeros. */
  lemma TextReads(g: seq<nat>, from: nat, to: nat)
    requires |g| == 8 && ZeroRun(g, from, to)
    ensures ReadV6(TextWith(g, from, to)) == Some(g)
  {
    hide ReadGroups, Join, DoubleAt, Clean;
    if to - from < 2 {
      JoinIsClean(g);
      NoDouble(Join(g));
      GroupsRead(g);
    } else {
      var (a, b) := (Join(g[..from]), Join(g[to..]));
      var s := a + "::" + b;
      JoinIsClean(g[..from]);
      DoubleFound(a, b);
      GroupsRead(g[..from]);
      GroupsRead(g[to..]);
      assert s[..|a|] == a && s[|a| + 2..] == b;
      assert g[..from] + seq(to - from, _ => 0) + g[to..] == g;
    }
  }

  // ── The printer ────────────────────────────────────────────────────

  /** What is left of a group after `n` of its at most four digits. */
  predicate Below(v: nat, n: nat) {
    if n == 0 then v < 0x1_0000 else if n == 1 then v < 0x1000 else if n == 2 then v < 0x100
      else if n == 3 then v < 0x10
    else v == 0
  }

  /** One group, its digits found last one first. */
  method PutHex16(out: array<char>, at: nat, v: nat) returns (n: nat)
    requires v < 0x1_0000 && at + 4 <= out.Length
    modifies out
    ensures n == |Hex(v)| <= 4 && out[..at + n] == old(out[..at]) + Hex(v)
  {
    if v == 0 {
      out[at] := '0';
      return 1;
    }
    var tmp := new char[4];
    n := 0;
    var left := v;
    while left > 0
      invariant n <= 4 && Below(left, n) && out[..] == old(out[..])
      invariant Hex(v) == (if left > 0 then Hex(left) else "") + Reversed(tmp[..n])
      decreases left
    {
      hide DigitChar;
      ghost var sofar := tmp[..n];
      tmp[n] := DigitChar(left % 16);
      ReversedMore(sofar, DigitChar(left % 16));
      assert tmp[..n + 1] == sofar + [DigitChar(left % 16)];
      HexStep(left, Reversed(sofar));
      left, n := left / 16, n + 1;
    }
    assert Hex(v) == Reversed(tmp[..n]);
    PutReversed(out, at, tmp[..n]);
  }

  method PutReversed(out: array<char>, at: nat, tmp: string)
    requires at + |tmp| <= out.Length
    modifies out
    ensures out[..at + |tmp|] == old(out[..at]) + Reversed(tmp)
  {
    hide Reversed;
    ghost var r := Reversed(tmp);
    for i := 0 to |tmp|
      invariant out[..at + i] == old(out[..at]) + r[..i]
    {
      ReversedAt(tmp, i);
      ghost var sofar := out[..at + i];
      out[at + i] := tmp[|tmp| - 1 - i];
      assert out[..at + i + 1] == sofar + [r[i]];
      assert r[..i + 1] == r[..i] + [r[i]];
    }
    assert r[..|tmp|] == r;
  }

  lemma HexStep(v: nat, tail: string)
    requires v > 0
    ensures Hex(v) + tail == (if v / 16 > 0 then Hex(v / 16) else "") + ([DigitChar(v % 16)] + tail)
  {
    hide DigitChar;
    if v < 16 {
      assert Hex(v) == [DigitChar(v)] && v / 16 == 0 && v % 16 == v;
    } else {
      assert Hex(v) == Hex(v / 16) + [DigitChar(v % 16)];
    }
  }

  /** The first of the longest runs of zero groups; none is (-1, 0). */
  method FindRun(g: Groups) returns (best: int, bestLen: nat)
    ensures if best < 0 then bestLen == 0 && FirstLongest(g, 0, 0)
      else best + bestLen <= 8 && FirstLongest(g, best, best + bestLen)
  {
    best, bestLen := -1, 0;
    var i := 0;
    while i < 8
      invariant 0 <= i <= 8 && BestBefore(g, i, best, bestLen)
      decreases 8 - i
    {
      if g[i] != 0 {
        NoRunHere(g, i, best, bestLen);
        i := i + 1;
        continue;
      }
      var j := i;
      while j < 8 && g[j] == 0
        invariant i <= j <= 8 && forall k | i <= k < j :: g[k] == 0
      {
        j := j + 1;
      }
      RunHere(g, i, j, best, bestLen);
      if j - i > bestLen { bestLen, best := j - i, i; }
      i := j;
    }
  }

  /** The best run among those that end by `i`, which is not inside one. */
  ghost predicate BestBefore(g: Groups, i: nat, best: int, bestLen: nat) {
    && i <= 8 && (i == 0 || i == 8 || g[i - 1] != 0 || g[i] != 0)
    && (best < 0 ==> best == -1 && bestLen == 0)
    && (best >= 0 ==> bestLen > 0 && best + bestLen <= i && ZeroRun(g, best, best + bestLen))
    && forall a: nat, b: nat | ZeroRun(g, a, b) && b <= i ::
         b - a <= bestLen && (b - a == bestLen && a < b ==> best <= a)
  }

  lemma NoRunHere(g: Groups, i: nat, best: int, bestLen: nat)
    requires i < 8 && g[i] != 0 && BestBefore(g, i, best, bestLen)
    ensures BestBefore(g, i + 1, best, bestLen)
  {
  }

  lemma RunHere(g: Groups, i: nat, j: nat, best: int, bestLen: nat)
    requires i < j <= 8 && ZeroRun(g, i, j) && (j < 8 ==> g[j] != 0) && BestBefore(g, i, best, bestLen)
    ensures if j - i > bestLen then BestBefore(g, j, i, j - i) else BestBefore(g, j, best, bestLen)
  {
    forall a: nat, b: nat | ZeroRun(g, a, b) && i < b <= j && a < b
      ensures i <= a
    {
      assert g[b - 1] == 0;
    }
  }

  /** What has been printed before group `i`. */
  function Sofar(g: seq<nat>, best: int, bestLen: nat, i: nat): string
    requires i <= |g| && (best >= 0 ==> best + bestLen <= |g|)
  {
    if best < 0 || i <= best then Join(g[..i])
    else if i <= best + bestLen then Join(g[..best]) + ":"
    else Join(g[..best]) + "::" + Join(g[best + bestLen..i])
  }

  lemma GroupPrinted(g: seq<nat>, best: int, bestLen: nat, i: nat)
    requires i < |g| && (best >= 0 ==> bestLen >= 2 && best + bestLen <= |g|)
    ensures Sofar(g, best, bestLen, i + 1) ==
      if best >= 0 && best <= i < best + bestLen
      then Sofar(g, best, bestLen, i) + if i == best then ":" else ""
      else Sofar(g, best, bestLen, i) + (if i > 0 then ":" else "") + Hex(g[i])
  {
    hide Join, Hex, Sofar;
    SofarIs(g, best, bestLen, i);
    SofarIs(g, best, bestLen, i + 1);
    if best < 0 || i < best {
      JoinBack(g, 0, i);
      assert g[0..i] == g[..i] && g[0..i + 1] == g[..i + 1];
      if i == 0 { assert "" + "" + Hex(g[0]) == Hex(g[0]); }
    } else if i >= best + bestLen {
      JoinBack(g, best + bestLen, i);
      BehindTheRun(Join(g[..best]), Join(g[best + bestLen..i]), Hex(g[i]));
    }
  }

  lemma SofarIs(g: seq<nat>, best: int, bestLen: nat, i: nat)
    requires i <= |g| && (best >= 0 ==> best + bestLen <= |g|)
    ensures best < 0 || i <= best ==> Sofar(g, best, bestLen, i) == Join(g[..i])
    ensures 0 <= best < i <= best + bestLen ==> Sofar(g, best, bestLen, i) == Join(g[..best]) + ":"
    ensures 0 <= best < i && best + bestLen < i ==>
      Sofar(g, best, bestLen, i) == Join(g[..best]) + "::" + Join(g[best + bestLen..i])
  {
    hide Join;
  }

  lemma BehindTheRun(h: string, tail: string, x: string)
    ensures h + "::" + (tail + ":" + x) == h + "::" + tail + ":" + x
    ensures h + "::" + x == h + ":" + ":" + x
  {
  }

  lemma JoinBack(g: seq<nat>, a: nat, i: nat)
    requires a <= i < |g|
    ensures Join(g[a..i + 1]) == if i == a then Hex(g[i]) else Join(g[a..i]) + ":" + Hex(g[i])
    ensures i == a ==> Join(g[a..i]) == ""
  {
    hide Hex;
    assert g[a..i + 1][..i - a] == g[a..i];
    assert g[a..i + 1][i - a] == g[i];
  }

  lemma AllPrinted(g: seq<nat>, best: int, bestLen: nat)
    requires |g| == 8 && (best >= 0 ==> bestLen >= 2 && best + bestLen <= 8)
    ensures TextWith(g, if best < 0 then 0 else best, if best < 0 then 0 else best + bestLen) ==
      Sofar(g, best, bestLen, 8) + if best >= 0 && best + bestLen == 8 then ":" else ""
  {
    assert g[..8] == g;
    if best >= 0 {
      assert g[best + bestLen..8] == g[best + bestLen..];
      assert Join(g[..best]) + ":" + ":" == Join(g[..best]) + "::" + "";
    }
  }

  /** Prints an address, with a NUL behind it, and says how long it is. */
  method FmtV6(b: seq<Byte>, out: array<char>) returns (o: nat)
    requires |b| == 16 && out.Length >= 46
    modifies out
    ensures o < out.Length && out[o] == '\0'
    ensures exists from: nat, to: nat | FirstLongest(GroupsOf(b), from, to) ::
      out[..o] == TextWith(GroupsOf(b), from, to)
    ensures ReadV6(out[..o]).Some? && ReadV6(out[..o]).value == GroupsOf(b)
  {
    hide Join, Sofar, FirstLongest, ReadV6;
    var g := GroupsOf(b);
    var best, bestLen := FindRun(g);
    ghost var from := if best < 0 then 0 else best;
    ghost var to := if best < 0 then 0 else best + bestLen;
    RunIsZero(g, from, to);
    TextReads(g, from, to);
    if bestLen < 2 { best, bestLen := -1, 0; }
    o := 0;
    NothingPrinted(g, best, bestLen);
    for i := 0 to 8
      invariant o <= 5 * i && out[..o] == Sofar(g, best, bestLen, i)
    {
      GroupPrinted(g, best, bestLen, i);
      ghost var sofar := out[..o];
      if best >= 0 && i >= best && i < best + bestLen {
        if i == best {
          out[o] := ':';
          o := o + 1;
          assert out[..o] == sofar + ":";
        }
        continue;
      }
      if i > 0 {
        out[o] := ':';
        o := o + 1;
        assert out[..o] == sofar + ":";
      }
      var n := PutHex16(out, o, g[i]);
      o := o + n;
    }
    AllPrinted(g, best, bestLen);
    ghost var sofar := out[..o];
    if best >= 0 && best + bestLen == 8 {
      out[o] := ':';
      o := o + 1;
      assert out[..o] == sofar + ":";
    }
    ghost var text := out[..o];
    out[o] := '\0';
    assert out[..o] == text;
    assert text == TextWith(g, from, to);
  }

  lemma RunIsZero(g: seq<nat>, from: nat, to: nat)
    requires FirstLongest(g, from, to)
    ensures ZeroRun(g, from, to)
  {
  }

  lemma NothingPrinted(g: seq<nat>, best: int, bestLen: nat)
    requires best >= 0 ==> best + bestLen <= |g|
    ensures Sofar(g, best, bestLen, 0) == ""
  {
    assert g[..0] == [];
  }
}
