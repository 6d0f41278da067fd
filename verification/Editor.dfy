/** The editor's line buffer and its undo history, changed in place. */
module Editor {
  import opened Octets
  import opened EditLines
  import opened EditHistory

  /** A stack of records in a ring, so that the oldest can be dropped. */
  class Ring {
    const v: array<Change>
    var start: nat
    var count: nat

    constructor ()
      ensures Valid() && Contents() == [] && fresh(v)
    {
      v := new Change[UNDO_MAX];
      start, count := 0, 0;
    }

    ghost predicate Valid()
      reads this
    {
      v.Length == UNDO_MAX && start < UNDO_MAX && count <= UNDO_MAX
    }

    /** The records, oldest first. */
    ghost function Contents(): (s: seq<Change>)
      requires Valid()
      reads this, v
      ensures |s| == count
    {
      seq(count, i requires 0 <= i < count reads this, v requires Valid() => v[(start + i) % UNDO_MAX])
    }

    method DropOldest() returns (c: Change)
      requires Valid() && 0 < count
      modifies this
      ensures Valid() && c == old(Contents())[0] && Contents() == old(Contents())[1..]
    {
      c := v[start];
      start, count := (start + 1) % UNDO_MAX, count - 1;
    }

    method Push(c: Change)
      requires Valid() && count < UNDO_MAX
      modifies this, v
      ensures Valid() && Contents() == old(Contents()) + [c]
    {
      v[(start + count) % UNDO_MAX] := c;
      count := count + 1;
    }

    method Pop() returns (c: Change)
      requires Valid() && 0 < count
      modifies this
      ensures Valid() && c == old(Contents())[old(count) - 1] && Contents() == old(Contents())[..old(count) - 1]
    {
      c := v[(start + count - 1) % UNDO_MAX];
      count := count - 1;
    }
  }

  /** The table of lines. */
  class Table {
    const a: array<Line>
    var n: nat

    constructor ()
      ensures Valid() && n == 0 && fresh(a)
    {
      a := new Line[MAX_LINES];
      n := 0;
    }

    ghost predicate Valid()
      reads this
    {
      a.Length == MAX_LINES && n <= MAX_LINES
    }

    ghost function Buf(): seq<Line>
      requires Valid()
      reads this, a
    {
      a[..n]
    }

    /** An empty line in front of line `idx`. */
    method InsertLine(idx: nat) returns (ok: bool)
      requires Valid() && idx <= n
      modifies this, a
      ensures Valid() && (ok <==> old(n) < MAX_LINES)
      ensures Buf() == if ok then old(Buf())[..idx] + [[]] + old(Buf())[idx..] else old(Buf())
    {
      if n >= MAX_LINES { return false; }
      MoveUp(idx, 1);
      ghost var (front, back) := (a[..idx], a[idx + 1..n + 1]);
      a[idx] := [];
      n := n + 1;
      assert a[..n] == front + [[]] + back;
      ok := true;
    }

    /** The lines `at..at+count` joined by newlines. */
    method Capture(at: nat, count: nat) returns (blob: seq<Byte>)
      requires Valid() && at + count <= n
      ensures blob == Joined(Buf()[at..at + count])
    {
      ghost var ls := Buf()[at..at + count];
      hide Joined;
      blob := [];
      JoinedDown(ls, count);
      assert ls[0..] == ls;
      for i := 0 to count
        invariant Joined(ls) == blob + Joined(ls[i..])
      {
        JoinedDown(ls, i);
        blob := blob + a[at + i];
        if i < count - 1 {
          blob := blob + [NL];
        }
      }
    }

    /** The text of a region, its lines joined by newlines. */
    method CaptureRegion(p: Pos, q: Pos) returns (buf: seq<Byte>)
      requires Valid() && Within(Buf(), p) && Within(Buf(), q) && Before(p, q)
      ensures buf == Joined(Region(Buf(), p, q))
    {
      hide Joined, Region;
      ghost var lines := Buf();
      buf := [];
      RegionText(lines, p, q, p.y);
      for i := p.y to q.y + 1
        invariant Joined(Region(lines, p, q)) == buf + RegionFrom(lines, p, q, i)
      {
        RegionText(lines, p, q, i);
        var l := a[i];
        var piece := l[if i == p.y then p.x else 0..if i == q.y then q.x else |l|];
        if i < q.y {
          piece := piece + [NL];
        }
        assert buf + (piece + RegionFrom(lines, p, q, i + 1)) == (buf + piece) + RegionFrom(lines, p, q, i + 1);
        buf := buf + piece;
      }
    }

    /** Makes room for `nadd` lines instead of `nremove` at `at`, moving what follows. */
    method Shift(at: nat, nremove: nat, nadd: nat)
      requires Valid() && at + nremove <= n && n - nremove + nadd <= MAX_LINES
      modifies this, a
      ensures Valid() && n == old(n) - nremove + nadd
      ensures a[..at] == old(a[..at]) && a[at + nadd..n] == old(a[at + nremove..n])
    {
      var delta := nadd - nremove;
      if delta > 0 {
        MoveUp(at + nremove, delta);
      } else if delta < 0 {
        MoveDown(at + nremove, 0 - delta);
      }
      n := n + delta;
    }

    /** The lines from `from` on move up by `d`, the last one first. */
    method MoveUp(from: nat, d: nat)
      requires Valid() && from <= n && n + d <= MAX_LINES
      modifies a
      ensures a[..from] == old(a[..from]) && a[from + d..n + d] == old(a[from..n])
    {
      var i := n - 1;
      while i >= from
        invariant from - 1 <= i < n
        invariant forall k | 0 <= k <= i :: a[k] == old(a[k])
        invariant a[i + 1 + d..n + d] == old(a[i + 1..n])
        decreases i
      {
        ghost var moved := a[i + 1 + d..n + d];
        a[i + d] := a[i];
        assert a[i + d..n + d] == [a[i + d]] + moved;
        assert old(a[i..n]) == [old(a[i])] + old(a[i + 1..n]);
        i := i - 1;
      }
    }

    /** They move down by `d`, the first one first. */
    method MoveDown(from: nat, d: nat)
      requires Valid() && d <= from <= n
      modifies a
      ensures a[..from - d] == old(a[..from - d]) && a[from - d..n - d] == old(a[from..n])
    {
      var i := from;
      while i < n
        invariant from <= i <= n
        invariant forall k | 0 <= k < from - d || i <= k < n :: a[k] == old(a[k])
        invariant a[from - d..i - d] == old(a[from..i])
      {
        ghost var moved := a[from - d..i - d];
        a[i - d] := a[i];
        assert a[from - d..i + 1 - d] == moved + [a[i - d]];
        assert old(a[from..i + 1]) == old(a[from..i]) + [old(a[i])];
        i := i + 1;
      }
    }

    /** The lines in `blob` in place of `nremove` lines at `at`. */
    method Splice(at: int, nremoveIn: nat, blob: seq<Byte>, nadd: nat) returns (ok: bool)
      requires Valid() && nremoveIn <= n
      modifies this, a
      ensures Valid()
      ensures ok <==> 0 <= at <= old(n) && old(n) - Clip(nremoveIn, old(n) - at) + nadd <= MAX_LINES
      ensures Buf() == if ok
        then EditLines.Splice(old(Buf()), at, Clip(nremoveIn, old(n) - at), Parts(blob, 0, nadd)) else old(Buf())
    {
      hide Parts, EditLines.Splice;
      if at < 0 || at > n { return false; }
      var nremove := nremoveIn;
      if nremove > n - at { nremove := n - at; }
      if n - nremove + nadd > MAX_LINES { return false; }
      SplicedIn(Buf(), at, nremove, Parts(blob, 0, nadd));
      PutLines(at, nremove, blob, nadd);
      AtLeastOne();
      ok := true;
    }

    /** A buffer without lines gets an empty one. */
    method AtLeastOne()
      requires Valid()
      modifies this, a
      ensures Valid() && Buf() == if old(Buf()) == [] then [[]] else old(Buf())
    {
      if n == 0 {
        var ok := InsertLine(0);
        assert old(Buf()) == [];
      }
    }

    method PutLines(at: nat, nremove: nat, blob: seq<Byte>, nadd: nat)
      requires Valid() && at + nremove <= n && n - nremove + nadd <= MAX_LINES
      modifies this, a
      ensures Valid() && Buf() == old(Buf())[..at] + Parts(blob, 0, nadd) + old(Buf())[at + nremove..]
    {
      hide Parts;
      Shift(at, nremove, nadd);
      ghost var (front, back) := (a[..at], a[at + nadd..n]);
      Fill(at, blob, nadd);
      assert a[..at] == front && a[at + nadd..n] == back;
      ThreeParts(a[..], at, at + nadd, n);
    }

    /** Cuts `nadd` lines off `blob` into the table. */
    method Fill(at: nat, blob: seq<Byte>, nadd: nat)
      requires Valid() && at + nadd <= n
      modifies a
      ensures forall k | 0 <= k < n && !(at <= k < at + nadd) :: a[k] == old(a[k])
      ensures a[at..at + nadd] == Parts(blob, 0, nadd)
    {
      hide LineEnd;
      ghost var add := Parts(blob, 0, nadd);
      var off := 0;
      for i := 0 to nadd
        invariant 0 <= off && add[i..] == Parts(blob, off, nadd - i)
        invariant forall k | 0 <= k < n && !(at <= k < at + i) :: a[k] == old(a[k])
        invariant a[at..at + i] == add[..i]
      {
        var end := EndOfLine(blob, off);
        assert add[i] == add[i..][0] && add[i + 1..] == add[i..][1..];
        ghost var sofar := a[at..at + i];
        a[at + i] := if off <= |blob| then blob[off..end] else [];
        assert a[at..at + i + 1] == sofar + [add[i]];
        off := end + 1;
      }
    }
  }

  lemma ThreeParts(s: seq<Line>, i: nat, j: nat, n: nat)
    requires i <= j <= n <= |s|
    ensures s[..n] == s[..i] + s[i..j] + s[j..n]
  {
  }

  lemma SplicedIn(buf: seq<Line>, at: nat, n: nat, ls: seq<Line>)
    requires at + n <= |buf|
    ensures var left := buf[..at] + ls + buf[at + n..];
      EditLines.Splice(buf, at, n, ls) == if left == [] then [[]] else left
  {
  }

  /** Where the line at `off` ends. */
  method EndOfLine(blob: seq<Byte>, off: nat) returns (end: nat)
    ensures end == LineEnd(blob, off)
  {
    end := off;
    while end < |blob| && blob[end] != NL
      invariant off <= end && LineEnd(blob, end) == LineEnd(blob, off)
      decreases |blob| - end
    {
      end := end + 1;
    }
  }

  function Clip(x: int, most: int): int { if x > most then most else x }
}
