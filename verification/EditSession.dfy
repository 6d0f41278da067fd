/** Editing with undo and redo: every record still held describes the buffer that
    stands now, whatever was typed, split, joined, cut, pasted, replaced, undone or redone. */
module EditSession {
  import opened Octets
  import opened EditLines
  import opened EditHistory
  import opened EditKeys
  import opened Editor
  import opened Optional

  class Session {
    const text: Table
    const undo: Ring
    const redo: Ring
    var cy: int
    var cx: int
    var histBytes: int
    var typingLine: int
    var markOn: bool
    var my: int
    var mx: int
    var clip: seq<Byte>
    ghost var pasts: seq<seq<Line>>
    ghost var futures: seq<seq<Line>>

    /** An editor on a file that is not there yet: one empty line. */
    constructor ()
      ensures Valid() && Buf() == [[]] && undo.Contents() == [] && redo.Contents() == [] && !markOn
      ensures pasts == [] && futures == []
      ensures fresh(text) && fresh(text.a) && fresh(undo) && fresh(undo.v) && fresh(redo) && fresh(redo.v)
    {
      text := new Table();
      undo := new Ring();
      redo := new Ring();
      cy, cx, histBytes, typingLine, markOn, my, mx, clip := 0, 0, 0, -1, false, 0, 0, [];
      pasts, futures := [], [];
      new;
      var ok := text.InsertLine(0);
    }

    /** Separate objects, each in order. */
    ghost predicate Shape()
      reads this, text, undo, redo
    {
      text.Valid() && undo.Valid() && redo.Valid() && undo != redo && undo.v != redo.v
    }

    /** The byte count is what both stacks hold, and within the budget. */
    ghost predicate Books()
      reads this, text, undo, undo.v, redo, redo.v
    {
      Shape() && histBytes == Held(undo.Contents()) + Held(redo.Contents()) && histBytes <= UNDO_BYTES
    }

    ghost function Buf(): seq<Line>
      requires text.Valid()
      reads text, text.a
    {
      text.Buf()
    }

    function Cursor(): Pos
      reads this
    {
      Pos(cy, cx)
    }

    /** While a run of typing goes on, the top record covers just the line typed on. */
    ghost predicate Typing()
      requires Shape()
      reads this, text, undo, undo.v, redo, redo.v
    {
      0 <= typingLine ==> typingLine < text.n && TopIs(typingLine)
    }

    /** The top record, if there is one, covers just line `y`, and nothing can be redone. */
    ghost predicate TopIs(y: int)
      requires Shape()
      reads this, text, undo, undo.v, redo, redo.v
    {
      && redo.Contents() == []
      && (undo.Contents() != [] ==>
            var c := undo.Contents()[undo.count - 1]; c.at == y && c.nadd == 1 && c.nremove == 1)
    }

    /** The history is true: undoing leads back through the buffers in `pasts`,
        redoing forward through those in `futures`. */
    ghost predicate Valid()
      reads this, text, text.a, undo, undo.v, redo, redo.v
    {
      && Books() && Good(Buf()) && Within(Buf(), Cursor()) && Typing()
      && Chain(undo.Contents(), pasts, Buf()) && Chain(redo.Contents(), futures, Buf())
    }

    /** The whole state. */
    ghost function Now(): Edit
      requires Shape()
      reads this, text, text.a, undo, undo.v, redo, redo.v
    {
      Edit(Buf(), Cursor(), markOn, Pos(my, mx), clip, typingLine, undo.Contents(), redo.Contents())
    }

    /** What `pasts` and `futures` have become when a key has made this record. */
    ghost predicate Keeps(ps: seq<seq<Line>>, fs: seq<seq<Line>>, buf: seq<Line>, c: Option<Change>)
      reads this
    {
      if c.None? then pasts == ps && futures == fs else Remembers(pasts, ps, buf) && futures == []
    }

    // ── The history ──────────────────────────────────────────────────

    method DropOldest(s: Ring)
      requires Books() && (s == undo || s == redo) && 0 < s.count
      modifies this`histBytes, s
      ensures Books() && s.Contents() == old(s.Contents())[1..]
    {
      var c := s.DropOldest();
      histBytes := histBytes - |c.blob|;
    }

    method Clear(s: Ring)
      requires Books() && (s == undo || s == redo)
      modifies this`histBytes, s
      ensures Books() && s.Contents() == []
    {
      while 0 < s.count
        modifies this`histBytes, s
        invariant Books()
        decreases s.count
      {
        DropOldest(s);
      }
    }

    /** Drops oldest records until there is room for `size` more bytes, or none is left. */
    method MakeRoom(s: Ring, other: Ring, size: nat)
      requires Books() && s != other && {s, other} == {undo, redo}
      modifies this`histBytes, undo, redo
      ensures Books() && (s.Contents(), other.Contents()) == Room(old(s.Contents()), old(other.Contents()), size)
    {
      ghost var kept, was := s.Contents(), other.Contents();
      while histBytes + size > UNDO_BYTES && 0 < s.count + other.count
        modifies this`histBytes, undo, redo
        invariant Books()
        invariant Room(s.Contents(), other.Contents(), size) == Room(kept, was, size)
        decreases s.count + other.count
      {
        if 0 < other.count {
          DropOldest(other);
        } else {
          DropOldest(s);
        }
      }
    }

    /** Puts a record on a stack, making room as far as that takes. */
    method StackPush(s: Ring, c: Change) returns (ok: bool)
      requires Books() && (s == undo || s == redo)
      modifies this`histBytes, undo, redo, s.v
      ensures Books()
      ensures var other := if s == undo then redo else undo;
        (s.Contents(), other.Contents(), ok) == Pushed(old(s.Contents()), old(other.Contents()), c)
    {
      hide Ring.Contents, Held, Room, Tail;
      var other := if s == undo then redo else undo;
      if s.count == UNDO_MAX {
        DropOldest(s);
      }
      ghost var kept, was := s.Contents(), other.Contents();
      MakeRoom(s, other, |c.blob|);
      if histBytes + |c.blob| > UNDO_BYTES { return false; }
      RoomShrinks(kept, was, |c.blob|);
      PushOn(s, c);
      ok := true;
    }

    method PushOn(s: Ring, c: Change)
      requires Books() && (s == undo || s == redo) && s.count < UNDO_MAX && histBytes + |c.blob| <= UNDO_BYTES
      modifies this`histBytes, s, s.v
      ensures Books() && s.Contents() == old(s.Contents()) + [c]
      ensures s == undo ==> redo.Contents() == old(redo.Contents())
      ensures s == redo ==> undo.Contents() == old(undo.Contents())
    {
      hide Ring.Contents, Held;
      HeldPush(s.Contents(), c);
      s.Push(c);
      histBytes := histBytes + |c.blob|;
    }

    /** Records the lines `at..at+nold` before `mnew` lines replace them. Whatever was
        undone can no longer be redone. */
    method RecordChange(at: nat, nold: nat, mnew: nat)
      requires Books() && Good(Buf()) && at + nold <= text.n
      modifies this`histBytes, this`typingLine, this`pasts, this`futures, undo, undo.v, redo
      ensures Books() && futures == [] && Now() == Recorded(old(Now()), at, nold, mnew)
      ensures var p := Pushed(old(undo.Contents()), [], Record(Buf(), at, nold, mnew, Cursor()));
        undo.Contents() == p.0 && pasts == SnapsPushed(old(pasts), |p.0|, p.2, Buf())
    {
      hide Ring.Contents, Pushed, Held, SnapsPushed;
      typingLine := -1;
      Clear(redo);
      var blob := text.Capture(at, nold);
      var ok := Keep(undo, Change(at, nold, mnew, blob, cy, cx));
      pasts := SnapsPushed(pasts, |undo.Contents()|, ok, Buf());
      futures := [];
    }

    /** Puts a record on a stack. One too big for it empties it. */
    method Keep(s: Ring, c: Change) returns (ok: bool)
      requires Books() && (s == undo || s == redo)
      modifies this`histBytes, undo, redo, s.v
      ensures Books()
      ensures var other := if s == undo then redo else undo;
        var p := Pushed(old(s.Contents()), old(other.Contents()), c);
        s.Contents() == p.0 && other.Contents() == p.1 && ok == p.2 && (old(other.Contents()) == [] ==> p.1 == [])
    {
      hide Ring.Contents, Pushed, Held, Tail;
      PushOnAlone(undo.Contents(), redo.Contents(), c);
      PushOnAlone(redo.Contents(), undo.Contents(), c);
      ok := StackPush(s, c);
      if !ok {
        Clear(s);
      }
    }

    /** Puts lines in place after `RecordChange`; the record then undoes just that. */
    method Replace(at: nat, nold: nat, blob: seq<Byte>, mnew: nat, ghost u: seq<Change>, ghost snaps: seq<seq<Line>>,
                   ghost p: Pos)
      requires Books() && Good(Buf()) && at + nold <= text.n && 1 <= text.n - nold + mnew <= MAX_LINES
      requires Chain(u, snaps, Buf()) && |u| <= UNDO_MAX && typingLine == -1
      requires redo.Contents() == [] && futures == []
      requires var q := Pushed(u, [], Record(Buf(), at, nold, mnew, p));
        undo.Contents() == q.0 && pasts == SnapsPushed(snaps, |q.0|, q.2, Buf())
      modifies text, text.a
      ensures Books() && Good(Buf()) && Typing() && Buf() == Splice(old(Buf()), at, nold, Parts(blob, 0, mnew))
      ensures Chain(undo.Contents(), pasts, Buf()) && Chain(redo.Contents(), futures, Buf())
    {
      hide Ring.Contents, Pushed, Held, Chain, Parts, SnapsPushed, Record;
      ghost var before := Buf();
      var ok := text.Splice(at, nold, blob, mnew);
      RecordUndoes(before, at, nold, Parts(blob, 0, mnew), p);
      PartsAreClean(blob, 0, mnew);
      NoChain(Buf());
      PushKeepsChains(u, snaps, [], [], Record(before, at, nold, mnew, p), before, Buf());
    }

    /** Everything but the cursor. */
    ghost predicate Kept()
      reads this, text, text.a, undo, undo.v, redo, redo.v
    {
      && Books() && Good(Buf()) && Typing()
      && Chain(undo.Contents(), pasts, Buf()) && Chain(redo.Contents(), futures, Buf())
    }

    /** A change to lines `at..at+nold`: recorded, then made. */
    method Rewrite(at: nat, nold: nat, blob: seq<Byte>, mnew: nat)
      requires Kept() && at + nold <= text.n && 1 <= text.n - nold + mnew <= MAX_LINES
      modifies this`histBytes, this`typingLine, this`pasts, this`futures, text, text.a, undo, undo.v, redo
      ensures Kept() && Now() == Rewritten(old(Now()), at, nold, Parts(blob, 0, mnew))
      ensures Remembers(pasts, old(pasts), old(Buf())) && futures == []
      ensures pasts != [] <==> |Joined(old(Buf())[at..at + nold])| <= UNDO_BYTES
    {
      hide Ring.Contents, Pushed, Held, Good, Chain, Joined, SnapsPushed, Splice, Parts, Remembers;
      ghost var u, snaps, p := undo.Contents(), pasts, Cursor();
      NoFutures(futures, Buf());
      RecordGrows(u, snaps, Buf(), at, nold, Parts(blob, 0, mnew), p);
      RecordChange(at, nold, mnew);
      Replace(at, nold, blob, mnew, u, snaps, p);
    }

    // ── Typing ───────────────────────────────────────────────────────

    /** One record per run of typing on a line, not one per keystroke. */
    method RecordTyping()
      requires Valid()
      modifies this`histBytes, this`typingLine, this`pasts, this`futures, undo, undo.v, redo
      ensures Valid() && Now() == Retyped(old(Now()), Buf()[cy], cx)
      ensures if old(typingLine) == cy then pasts == old(pasts) && futures == old(futures)
              else Remembers(pasts, old(pasts), Buf()) && futures == []
      ensures old(typingLine) != cy ==> (pasts != [] <==> |Buf()[cy]| <= UNDO_BYTES)
    {
      hide Ring.Contents, Pushed, Held, Chain, Good, Joined, Remembers;
      assert Buf()[cy := Buf()[cy]] == Buf();
      if typingLine != cy {
        RecordLine();
        typingLine := cy;
      }
    }

    /** A record of the line the cursor is on, about to be changed in place. */
    method RecordLine()
      requires Valid()
      modifies this`histBytes, this`typingLine, this`pasts, this`futures, undo, undo.v, redo
      ensures Valid() && Now() == Recorded(old(Now()), cy, 1, 1) && futures == []
      ensures TopIs(cy) && Remembers(pasts, old(pasts), Buf())
      ensures pasts != [] <==> |Buf()[cy]| <= UNDO_BYTES
    {
      hide Ring.Contents, Pushed, Held, Chain, SnapsPushed, Good, Clean, Joined, Remembers;
      TypingRecord(undo.Contents(), pasts, Buf(), cy, Cursor());
      NoChain(Buf());
      RecordChange(cy, 1, 1);
    }

    /** Puts other text on a line that the top record covers; the record still stands. */
    method Retype(l: Line, x: nat)
      requires Valid() && TopIs(cy) && NL !in l && x <= |l|
      modifies this`cx, text.a
      ensures Valid() && TopIs(cy) && cx == x && Buf() == old(Buf())[cy := l]
    {
      hide Ring.Contents, Held, Chain;
      ghost var buf := Buf();
      text.a[cy] := l;
      cx := x;
      assert Buf() == buf[cy := l];
      LineEdited(undo.Contents(), pasts, buf, cy, l);
      LineEdited(redo.Contents(), futures, buf, cy, l);
    }

    // ── Undo and redo ────────────────────────────────────────────────

    /** Puts the lines of a record in place of those it stands for; `inv` is the record
        that takes this back. */
    method SwapLines(c: Change) returns (inv: Change)
      requires Shape() && Good(Buf()) && Fits(c, Buf())
      modifies this`cy, this`cx, text, text.a
      ensures Shape() && Good(Buf()) && Buf() == Applied(c, old(Buf())) && Cursor() == Clamped(Buf(), Pos(c.cy, c.cx))
      ensures inv == Record(old(Buf()), c.at, c.nremove, c.nadd, old(Cursor()))
    {
      InverseUndoes(c, Buf(), Cursor());
      var blob := text.Capture(c.at, c.nremove);
      inv := Change(c.at, c.nremove, c.nadd, blob, cy, cx);
      var spliced := text.Splice(c.at, c.nremove, c.blob, c.nadd);
      cy, cx := c.cy, c.cx;
      ClampCursor();
    }

    /** Applies a record and puts its inverse on the other stack. */
    method ApplyChange(c: Change, dest: Ring)
      requires Books() && Good(Buf()) && Fits(c, Buf()) && (dest == undo || dest == redo)
      modifies this`histBytes, this`cy, this`cx, text, text.a, undo, redo, dest.v
      ensures Books() && Good(Buf()) && Buf() == Applied(c, old(Buf())) && Cursor() == Clamped(Buf(), Pos(c.cy, c.cx))
      ensures var inv := Record(old(Buf()), c.at, c.nremove, c.nadd, old(Cursor()));
        var p := if dest == undo then Pushed(old(undo.Contents()), old(redo.Contents()), inv)
                 else Pushed(old(redo.Contents()), old(undo.Contents()), inv);
        dest.Contents() == p.0 && (if dest == undo then redo else undo).Contents() == p.1
    {
      hide Ring.Contents, Pushed, Held, Good, Fits, Applied, Clamped;
      var inv := SwapLines(c);
      var ok := Keep(dest, inv);
    }

    method ClampCursor()
      requires text.Valid() && 1 <= text.n
      modifies this`cy, this`cx
      ensures Cursor() == Clamped(Buf(), old(Cursor()))
    {
      if cy >= text.n { cy := text.n - 1; }
      if cy < 0 { cy := 0; }
      var l := text.a[cy];
      if cx > |l| { cx := |l|; }
      if cx < 0 { cx := 0; }
      if cx > 0 && cx < |l| && Inside(l[cx]) {
        cx := PrevChar(l, cx);
      }
    }

    method PopOff(s: Ring) returns (c: Change)
      requires Books() && (s == undo || s == redo) && 0 < s.count
      modifies this`histBytes, s
      ensures Books() && c == old(s.Contents())[old(s.count) - 1]
      ensures s.Contents() == old(s.Contents())[..old(s.count) - 1]
    {
      hide Ring.Contents, Held;
      ghost var was, n := s.Contents(), s.count - 1;
      HeldPush(was[..n], was[n]);
      assert was == was[..n] + [was[n]];
      c := s.Pop();
      histBytes := histBytes - |c.blob|;
    }

    /** Applies the top record of one stack; its inverse goes on the other. */
    method Transfer(src: Ring, dest: Ring) returns (c: Change)
      requires Books() && Good(Buf()) && {src, dest} == {undo, redo} && src != dest && 0 < src.count
      requires Fits(src.Contents()[src.count - 1], Buf())
      modifies this`histBytes, this`cy, this`cx, text, text.a, undo, redo, dest.v
      ensures c == old(src.Contents())[old(src.count) - 1]
      ensures Books() && Good(Buf()) && Buf() == Applied(c, old(Buf())) && Cursor() == Clamped(Buf(), Pos(c.cy, c.cx))
      ensures var p := Pushed(old(dest.Contents()), old(src.Contents())[..old(src.count) - 1],
                              Record(old(Buf()), c.at, c.nremove, c.nadd, old(Cursor())));
        dest.Contents() == p.0 && src.Contents() == p.1
    {
      hide Ring.Contents, Pushed, Held, Good, Fits, Applied, Clamped;
      c := PopOff(src);
      ApplyChange(c, dest);
    }

    /** Takes back the last change: the buffer is again what stood when its record was
        made, and what stood until now can be redone, if the budget can hold it at all. */
    method Undo()
      requires Valid()
      modifies this, text, text.a, undo, redo, redo.v
      ensures Valid() && Now() == Undone(old(Now()))
      ensures old(undo.count) == 0 ==> pasts == old(pasts) && futures == old(futures)
      ensures 0 < old(undo.count) ==>
        var n := old(undo.count) - 1; var c := old(undo.Contents())[n];
        && Buf() == old(pasts)[n] && Tail(pasts, old(pasts)[..n]) && Remembers(futures, old(futures), old(Buf()))
        && (Takes(old(redo.Contents()), old(undo.Contents())[..n], |Swapped(c, old(Buf()))|) ==>
              pasts == old(pasts)[..n] && futures == old(futures) + [old(Buf())])
        && (futures != [] <==> |Swapped(c, old(Buf()))| <= UNDO_BYTES)
        && (futures != [] ==>
              var r := redo.Contents()[redo.count - 1]; r == Record(old(Buf()), c.at, c.nremove, c.nadd, old(Cursor())))
    {
      if 0 < undo.count {
        UndoLast();
      }
    }

    method StepUndo()
      requires Books() && Good(Buf()) && 0 < undo.count && Fits(undo.Contents()[undo.count - 1], Buf())
      modifies this`histBytes, this`cy, this`cx, this`typingLine, text, text.a, undo, redo, redo.v
      ensures Books() && Good(Buf()) && Now() == Undone(old(Now())) && Within(Buf(), Cursor())
    {
      hide Ring.Contents, Pushed, Held, Good, Fits, Applied, Clamped, Record;
      var c := Transfer(undo, redo);
      typingLine := -1;
    }

    method UndoLast()
      requires Valid() && 0 < undo.count
      modifies this, text, text.a, undo, redo, redo.v
      ensures Valid() && Now() == Undone(old(Now()))
      ensures
        var n := old(undo.count) - 1; var c := old(undo.Contents())[n];
        && Buf() == old(pasts)[n] && Tail(pasts, old(pasts)[..n]) && Remembers(futures, old(futures), old(Buf()))
        && (Takes(old(redo.Contents()), old(undo.Contents())[..n], |Swapped(c, old(Buf()))|) ==>
              pasts == old(pasts)[..n] && futures == old(futures) + [old(Buf())])
        && (futures != [] <==> |Swapped(c, old(Buf()))| <= UNDO_BYTES)
        && (futures != [] ==>
              var r := redo.Contents()[redo.count - 1]; r == Record(old(Buf()), c.at, c.nremove, c.nadd, old(Cursor())))
    {
      hide Ring.Contents, Pushed, Held, Chain, SnapsPushed, Remembers, SnapsLeft, Good, Applied, Clamped, Tail, Swapped,
           Takes, Record;
      ghost var u, r, ps, fs, buf := undo.Contents(), redo.Contents(), pasts, futures, Buf();
      ghost var n := |u| - 1;
      ChainTop(u, ps, buf);
      StepKeepsChains(u[n], r, fs, u[..n], ps[..n], buf, Cursor());
      ghost var inv := Record(buf, u[n].at, u[n].nremove, u[n].nadd, Cursor());
      StepUndo();
      ghost var p := Pushed(r, u[..n], inv);
      pasts, futures := SnapsLeft(ps[..n], |p.1|), SnapsPushed(fs, |p.0|, p.2, buf);
    }

    /** Makes the last change that was taken back again. */
    method Redo()
      requires Valid()
      modifies this, text, text.a, undo, redo, undo.v
      ensures Valid() && Now() == Redone(old(Now()))
      ensures old(redo.count) == 0 ==> pasts == old(pasts) && futures == old(futures)
      ensures 0 < old(redo.count) ==>
        var n := old(redo.count) - 1; var c := old(redo.Contents())[n];
        && Buf() == old(futures)[n] && Tail(futures, old(futures)[..n]) && Remembers(pasts, old(pasts), old(Buf()))
        && (Takes(old(undo.Contents()), old(redo.Contents())[..n], |Swapped(c, old(Buf()))|) ==>
              futures == old(futures)[..n] && pasts == old(pasts) + [old(Buf())])
        && (pasts != [] <==> |Swapped(c, old(Buf()))| <= UNDO_BYTES)
        && (pasts != [] ==>
              var r := undo.Contents()[undo.count - 1]; r == Record(old(Buf()), c.at, c.nremove, c.nadd, old(Cursor())))
    {
      if 0 < redo.count {
        RedoLast();
      }
    }

    method StepRedo()
      requires Books() && Good(Buf()) && 0 < redo.count && Fits(redo.Contents()[redo.count - 1], Buf())
      modifies this`histBytes, this`cy, this`cx, this`typingLine, text, text.a, undo, redo, undo.v
      ensures Books() && Good(Buf()) && Now() == Redone(old(Now())) && Within(Buf(), Cursor())
    {
      hide Ring.Contents, Pushed, Held, Good, Fits, Applied, Clamped, Record;
      var c := Transfer(redo, undo);
      typingLine := -1;
    }

    method RedoLast()
      requires Valid() && 0 < redo.count
      modifies this, text, text.a, undo, redo, undo.v
      ensures Valid() && Now() == Redone(old(Now()))
      ensures
        var n := old(redo.count) - 1; var c := old(redo.Contents())[n];
        && Buf() == old(futures)[n] && Tail(futures, old(futures)[..n]) && Remembers(pasts, old(pasts), old(Buf()))
        && (Takes(old(undo.Contents()), old(redo.Contents())[..n], |Swapped(c, old(Buf()))|) ==>
              futures == old(futures)[..n] && pasts == old(pasts) + [old(Buf())])
        && (pasts != [] <==> |Swapped(c, old(Buf()))| <= UNDO_BYTES)
        && (pasts != [] ==>
              var r := undo.Contents()[undo.count - 1]; r == Record(old(Buf()), c.at, c.nremove, c.nadd, old(Cursor())))
    {
      hide Ring.Contents, Pushed, Held, Chain, SnapsPushed, Remembers, SnapsLeft, Good, Applied, Clamped, Tail, Swapped,
           Takes, Record;
      ghost var u, r, ps, fs, buf := undo.Contents(), redo.Contents(), pasts, futures, Buf();
      ghost var n := |r| - 1;
      ChainTop(r, fs, buf);
      StepKeepsChains(r[n], u, ps, r[..n], fs[..n], buf, Cursor());
      ghost var inv := Record(buf, r[n].at, r[n].nremove, r[n].nadd, Cursor());
      StepRedo();
      ghost var p := Pushed(u, r[..n], inv);
      futures, pasts := SnapsLeft(fs[..n], |p.1|), SnapsPushed(ps, |p.0|, p.2, buf);
    }

    /** Undo followed by redo is the identity on the buffer, and on any cursor that is
        not inside a character. */
    method UndoThenRedo()
      requires Valid() && 0 < undo.count
      requires |Swapped(undo.Contents()[undo.count - 1], Buf())| <= UNDO_BYTES
      modifies this, text, text.a, undo, undo.v, redo, redo.v
      ensures Valid() && Buf() == old(Buf()) && Cursor() == Clamped(Buf(), old(Cursor()))
    {
      Undo();
      Redo();
    }

    // ── Keys that change the text ────────────────────────────────────

    /** A character typed at the cursor, all its bytes. */
    method TypeText(s: seq<Byte>)
      requires Valid() && NL !in s
      modifies this`cx, this`histBytes, this`typingLine, this`pasts, this`futures, text.a, undo, undo.v, redo
      ensures Valid() && Now() == TextTyped(old(Now()), s)
      ensures Keeps(old(pasts), old(futures), old(Buf()), Records(old(Now()), Key.Text(s)))
    {
      hide Ring.Contents, Held, Chain, Remembers, Pushed, Joined;
      ghost var buf, l, x := Buf(), text.a[cy], cx;
      RecordTyping();
      assert l[..x] + s[..0] + l[x..] == l && buf[cy := l] == buf;
      for i := 0 to |s|
        modifies this`cx, text.a
        invariant Valid() && TopIs(cy) && cx == x + i
        invariant Buf() == buf[cy := l[..x] + s[..i] + l[x..]]
      {
        hide Ring.Contents, Held, Chain, Remembers, Pushed, Joined;
        var cur := text.a[cy];
        PutOneMore(l, x, s, i);
        assert cur == l[..x] + s[..i] + l[x..];
        Retype(cur[..cx] + [s[i]] + cur[cx..], cx + 1);
      }
      assert s[..|s|] == s;
    }

    /** Erases the character before the cursor; at the start of a line, the line break. */
    method Backspace()
      requires Valid()
      modifies this`cy, this`cx, this`histBytes, this`typingLine, this`pasts, this`futures, text, text.a, undo, undo.v,
               redo
      ensures Valid() && Now() == ErasedBack(old(Now()))
      ensures !markOn ==> Keeps(old(pasts), old(futures), old(Buf()), Records(old(Now()), Key.Rub(false)))
    {
      hide Ring.Contents, Held, Chain, Remembers, Pushed, Joined, PrevChar, Splice;
      if cx > 0 {
        var l := text.a[cy];
        var start := PrevChar(l, cx);
        RecordTyping();
        Retype(l[..start] + l[cx..], start);
      } else if cy > 0 {
        JoinLines(cy - 1);
      }
    }

    /** Erases the character at the cursor; at the end of a line, the line break. */
    method DeleteForward()
      requires Valid()
      modifies this`cy, this`cx, this`histBytes, this`typingLine, this`pasts, this`futures, text, text.a, undo, undo.v,
               redo
      ensures Valid() && Now() == ErasedAhead(old(Now()))
      ensures !markOn ==> Keeps(old(pasts), old(futures), old(Buf()), Records(old(Now()), Key.Rub(true)))
    {
      hide Ring.Contents, Held, Chain, Remembers, Pushed, Joined, NextChar, Splice;
      var l := text.a[cy];
      if cx < |l| {
        var next := NextChar(l, cx);
        RecordTyping();
        Retype(l[..cx] + l[next..], cx);
      } else {
        JoinLines(cy);
      }
    }

    /** Joins line `at` and the one after it, if there is one. */
    method JoinLines(at: int)
      requires Valid()
      modifies this`cy, this`cx, this`histBytes, this`typingLine, this`pasts, this`futures, text, text.a, undo, undo.v,
               redo
      ensures Valid() && Now() == LinesJoined(old(Now()), at)
      ensures Keeps(old(pasts), old(futures), old(Buf()),
                    if 0 <= at < |old(Buf())| - 1 then Some(Record(old(Buf()), at, 2, 1, old(Cursor()))) else None)
    {
      hide Ring.Contents, Held, Chain, Remembers, Pushed, Joined, Parts;
      if at < 0 || at + 1 >= text.n { return; }
      var blob := text.a[at] + text.a[at + 1];
      var col := |text.a[at]|;
      OneLine(blob);
      Rewrite(at, 2, blob, 1);
      cy, cx := at, col;
    }

    /** Enter: the new line starts with the white space this one starts with. */
    method SplitLine()
      requires Valid()
      modifies this`cy, this`cx, this`histBytes, this`typingLine, this`pasts, this`futures, text, text.a, undo, undo.v,
               redo
      ensures Valid() && Now() == LineSplit(old(Now()))
      ensures Keeps(old(pasts), old(futures), old(Buf()), Records(old(Now()), Key.Enter))
    {
      hide Ring.Contents, Held, Chain, Remembers, Splice, Parts, Pushed, Joined;
      if text.n + 1 > MAX_LINES { return; }
      var cur := text.a[cy];
      var indent := 0;
      while indent < cx && (cur[indent] == 32 || cur[indent] == 9)
        invariant 0 <= indent <= cx && IndentFrom(cur, cx, indent) == Indent(cur, cx)
      {
        indent := indent + 1;
      }
      var blob := cur[..cx] + [NL] + cur[..indent] + cur[cx..];
      TwoLines(cur[..cx], cur[..indent] + cur[cx..]);
      assert blob == cur[..cx] + [NL] + (cur[..indent] + cur[cx..]);
      SplicedTwo(Buf(), cy, cur[..cx], cur[..indent] + cur[cx..]);
      Rewrite(cy, 1, blob, 2);
      cy, cx := cy + 1, indent;
    }

    /** Where the selection begins and ends. */
    function Selected(): (Pos, Pos)
      reads this
    {
      Ordered(Pos(my, mx), Cursor())
    }

    /** Copies the selection, unless there is none or it is too long to hold. */
    method CopySelection() returns (ok: bool)
      requires Valid() && Now().MarkFits()
      modifies this`clip
      ensures Valid() && ok == Taken(old(Now())).Some?
      ensures Now() == if ok then old(Now()).(clip := Taken(old(Now())).value) else old(Now())
    {
      hide Ring.Contents, Held, Chain, Joined, Region, Good;
      if !markOn || Cursor() == Pos(my, mx) { return false; }
      var (p, q) := Selected();
      var buf := text.CaptureRegion(p, q);
      if |buf| + 1 > CLIP_MAX { return false; }
      clip := buf;
      ok := true;
    }

    /** Removes the selection and leaves the cursor where it began. */
    method DeleteSelection()
      requires Valid() && Now().MarkFits()
      modifies this`cy, this`cx, this`markOn, this`histBytes, this`typingLine, this`pasts, this`futures, text, text.a,
               undo, undo.v, redo
      ensures Valid() && Now() == SelectionGone(old(Now()))
      ensures Keeps(old(pasts), old(futures), old(Buf()),
                    if old(Now()).Selects() then Some(SelectionRecord(old(Now()))) else None)
    {
      hide Ring.Contents, Held, Chain, Remembers, Joined, Splice, Good, Pushed;
      if !markOn || Cursor() == Pos(my, mx) { return; }
      var (p, q) := Selected();
      RemoveRegion(p, q);
      markOn := false;
    }

    method RemoveRegion(p: Pos, q: Pos)
      requires Valid() && Within(Buf(), p) && Within(Buf(), q) && Before(p, q)
      modifies this`cy, this`cx, this`histBytes, this`typingLine, this`pasts, this`futures, text, text.a, undo, undo.v,
               redo
      ensures Valid() && Remembers(pasts, old(pasts), old(Buf())) && futures == []
      ensures Now() == Rewritten(old(Now()).(cur := p), p.y, q.y - p.y + 1,
                                 [old(Buf())[p.y][..p.x] + old(Buf())[q.y][q.x..]])
    {
      hide Ring.Contents, Held, Chain, Remembers, Pushed, Joined, Parts, Record;
      var blob := text.a[p.y][..p.x] + text.a[q.y][q.x..];
      OneLine(blob);
      DeletedLine(Buf(), p, q);
      cy, cx := p.y, p.x;
      Rewrite(p.y, q.y - p.y + 1, blob, 1);
    }

    /** Cuts the whole line the cursor is on; its line break goes to the clipboard too. */
    method CutLine()
      requires Valid()
      modifies this`cy, this`cx, this`clip, this`histBytes, this`typingLine, this`pasts, this`futures, text, text.a,
               undo, undo.v, redo
      ensures Valid() && Now() == LineCut(old(Now()))
      ensures Keeps(old(pasts), old(futures), old(Buf()), Some(LineRecord(old(Now()))))
    {
      hide Ring.Contents, Held, Chain, Remembers, Pushed, Joined, Splice, Good;
      var cut := text.a[cy] + [NL];
      if |cut| <= CLIP_MAX {
        clip := cut;
      }
      RemoveLine();
    }

    method RemoveLine()
      requires Valid()
      modifies this`cy, this`cx, this`histBytes, this`typingLine, this`pasts, this`futures, text, text.a, undo, undo.v,
               redo
      ensures Valid() && Now() == LineGone(old(Now()))
      ensures Remembers(pasts, old(pasts), old(Buf())) && futures == []
    {
      hide Ring.Contents, Held, Chain, Remembers, Joined, Parts, Pushed, Rewritten, Good;
      if text.n == 1 {
        OneLine([]);
        Rewrite(0, 1, [], 1);
      } else {
        Rewrite(cy, 1, [], 0);
      }
      HasALine(Buf());
      if cy >= text.n { cy := text.n - 1; }
      cx := 0;
    }

    /** Puts the clipboard in at the cursor and the cursor behind it. */
    method Paste()
      requires Valid()
      modifies this`cy, this`cx, this`histBytes, this`typingLine, this`pasts, this`futures, text, text.a, undo, undo.v,
               redo
      ensures Valid() && Now() == ClipPasted(old(Now()))
      ensures Keeps(old(pasts), old(futures), old(Buf()), Records(old(Now()), Key.Paste))
    {
      hide Ring.Contents, Held, Chain, Remembers, Joined, Parts, Pushed, Breaks, Splice, AfterPaste, Good;
      if clip == [] { return; }
      var breaks, end := ScanClip();
      if text.n + breaks > MAX_LINES { return; }
      InsertClip(breaks, end);
    }

    /** How many line breaks the clipboard holds, and how much follows the last one. */
    method ScanClip() returns (breaks: nat, end: nat)
      ensures breaks == Breaks(clip) && end == LastLine(clip)
    {
      breaks := 0;
      var last := 0;
      for i := 0 to |clip|
        invariant 0 <= last <= i && breaks == Breaks(clip[..i]) && i - last == LastLine(clip[..i])
      {
        assert clip[..i + 1][..i] == clip[..i];
        if clip[i] == NL {
          breaks, last := breaks + 1, i + 1;
        }
      }
      assert clip[..|clip|] == clip;
      end := |clip| - last;
    }

    method InsertClip(breaks: nat, end: nat)
      requires Valid() && clip != [] && text.n + breaks <= MAX_LINES && breaks == Breaks(clip) && end == LastLine(clip)
      modifies this`cy, this`cx, this`histBytes, this`typingLine, this`pasts, this`futures, text, text.a, undo, undo.v,
               redo
      ensures Valid() && Now() == ClipPasted(old(Now()))
      ensures Remembers(pasts, old(pasts), old(Buf())) && futures == []
    {
      hide Ring.Contents, Held, Chain, Remembers, Breaks, LastLine, Parts, Splice, Pushed, Joined;
      var l := text.a[cy];
      PastedEnds(Buf(), Cursor(), clip);
      Rewrite(cy, 1, l[..cx] + clip + l[cx..], 1 + breaks);
      if breaks > 0 {
        cy, cx := cy + breaks, end;
      } else {
        cx := cx + |clip|;
      }
    }

    // ── Replacing ────────────────────────────────────────────────────

    /** One occurrence replaced where the cursor stands, as an undo step of its own. */
    method ReplaceAt(plen: nat, rep: seq<Byte>)
      requires Valid() && cx + plen <= |Buf()[cy]| && NL !in rep
      modifies this`cx, this`histBytes, this`typingLine, this`pasts, this`futures, text.a, undo, undo.v, redo
      ensures Valid() && Now() == OneReplaced(old(Now()), plen, rep)
      ensures Remembers(pasts, old(pasts), old(Buf())) && futures == []
    {
      hide Ring.Contents, Held, Chain, Remembers, Pushed, Joined;
      var l := text.a[cy];
      RecordLine();
      Retype(l[..cx] + rep + l[cx + plen..], cx + |rep|);
    }

    /** Every occurrence from the cursor to the end of the file replaced, as one undo step. */
    method ReplaceRest(pat: seq<Byte>, rep: seq<Byte>)
      requires Valid() && pat != [] && (NL in rep ==> !Finds(Buf(), Cursor(), pat))
      modifies this`cy, this`cx, this`histBytes, this`typingLine, this`pasts, this`futures, text.a, undo, undo.v, redo
      ensures Valid() && Now() == RestReplaced(old(Now()), pat, rep)
      ensures Keeps(old(pasts), old(futures), old(Buf()), Records(old(Now()), Key.ReplaceAll(pat, rep)))
    {
      hide Ring.Contents, Held, Chain, Remembers, LineHits, ReplacedFrom, Good, Pushed, Joined, Clamped, FirstLine,
           LastLineWith, Record;
      var first, last := FindRange(pat);
      if 0 <= first {
        ReplaceLines(first, last, pat, rep);
      }
      HasALine(Buf());
      ClampCursor();
    }

    /** The lines that hold an occurrence, changed as one step. */
    method ReplaceLines(first: nat, last: nat, pat: seq<Byte>, rep: seq<Byte>)
      requires Valid() && pat != [] && NL !in rep && first <= last < text.n
      requires first == FirstLine(Buf(), Cursor(), pat, 0) && last == LastLineWith(Buf(), Cursor(), pat, text.n)
      modifies this`histBytes, this`typingLine, this`pasts, this`futures, text.a, undo, undo.v, redo
      ensures Kept() && Remembers(pasts, old(pasts), old(Buf())) && futures == []
      ensures Now() == Recorded(old(Now()), first, last - first + 1, last - first + 1)
                       .(buf := ReplacedFrom(old(Buf()), Cursor(), pat, rep))
    {
      hide Ring.Contents, Held, Chain, Pushed, ReplacedFrom, ReplacedLine, SnapsPushed, Joined, Clean, LineHits,
           Remembers, FirstLine, LastLineWith, Splice;
      ghost var buf, u, snaps := Buf(), undo.Contents(), pasts;
      var count := last - first + 1;
      OthersKept(buf, Cursor(), pat, rep);
      RecordChange(first, count, count);
      ReplaceRange(first, last, pat, rep);
      LinesReplaced(buf, Cursor(), pat, rep, first, last, Buf());
      RecordGrows(u, snaps, buf, first, count, Buf()[first..last + 1], Cursor());
      NoFutures(futures, Buf());
    }

    /** The first and last line from the cursor on that hold an occurrence, or -1. */
    method FindRange(pat: seq<Byte>) returns (first: int, last: int)
      requires Valid() && pat != []
      ensures first >= 0 <==> Finds(Buf(), Cursor(), pat)
      ensures var (a, b) := (FirstLine(Buf(), Cursor(), pat, 0), LastLineWith(Buf(), Cursor(), pat, text.n));
        if first < 0 then a > b else first == a <= b == last
    {
      hide Ring.Contents, Held, Chain, Occurs, Good;
      first, last := -1, -1;
      ghost var buf, p := Buf(), Cursor();
      for i := cy to text.n
        invariant first == last == -1 || cy <= first <= last < i
        invariant forall k | 0 <= k < i && LineHits(buf, p, pat, k) :: first <= k <= last
        invariant first >= 0 ==> LineHits(buf, p, pat, first) && LineHits(buf, p, pat, last)
      {
        hide Ring.Contents, Held, Chain, Occurs, Good;
        var at := FindFwd(text.a[i], pat, if i == cy then cx else 0);
        assert at >= 0 <==> LineHits(buf, p, pat, i);
        if at >= 0 {
          if first < 0 { first := i; }
          last := i;
        }
      }
    }

    method ReplaceRange(first: nat, last: nat, pat: seq<Byte>, rep: seq<Byte>)
      requires Shape() && Good(Buf()) && Within(Buf(), Cursor()) && cy <= first <= last < text.n && pat != [] &&
        NL !in rep
      modifies text.a
      ensures Good(Buf())
      ensures forall k | 0 <= k < text.n && !(first <= k <= last) :: Buf()[k] == old(Buf())[k]
      ensures forall k | first <= k <= last :: Buf()[k] == ReplacedLine(old(Buf()), Cursor(), pat, rep, k)
    {
      hide Ring.Contents, Replaced;
      ghost var buf := Buf();
      for i := first to last + 1
        invariant Clean(Buf())
        invariant forall k | 0 <= k < text.n && !(first <= k < i) :: Buf()[k] == buf[k]
        invariant forall k | first <= k < i :: Buf()[k] == ReplacedLine(buf, Cursor(), pat, rep, k)
      {
        assert Buf()[i] == buf[i];
        LineStaysClean(buf, Cursor(), pat, rep, i);
        var l := LineReplace(text.a[i], if i == cy then cx else 0, pat, rep);
        text.a[i] := l;
      }
    }

    // ── Whole runs ───────────────────────────────────────────────────

    /** Cutting the selection and pasting it back at once restores the buffer and
        leaves the cursor at the selection's end. */
    method CutAndPaste()
      requires Valid() && Now().MarkFits() && Taken(Now()).Some?
      modifies this, text, text.a, undo, undo.v, redo
      ensures Valid() && Buf() == old(Buf()) && Cursor() == old(Selected().1)
    {
      hide Ring.Contents, Chain, Held, Remembers, SelectionGone, ClipPasted, Taken;
      CutPastesBack(Now());
      var ok := CopySelection();
      DeleteSelection();
      Paste();
    }

    /** Whether the key can be pressed: it reads no mark left behind and puts no newline
        inside a line. */
    method IsReady(k: Key) returns (ok: bool)
      requires Valid()
      ensures ok == Ready(Now(), k)
    {
      hide Ring.Contents, Chain, Held, Good, LineHits;
      if k.ReadsMark() && markOn && !(0 <= my < text.n && 0 <= mx <= |text.a[my]|) { return false; }
      match k
      case Text(bytes) => ok := NL !in bytes;
      case ReplaceOne(plen, rep) => ok := NL !in rep || cx + plen > |text.a[cy]|;
      case ReplaceAll(pat, rep) =>
        if NL !in rep || pat == [] { return true; }
        var first, last := FindRange(pat);
        ok := first < 0;
      case _ => ok := true;
    }

    /** One key: the whole state is what the key makes of it. Every record leads to a buffer that
        one led to before, to the one before the key, or to the one that stood once it had
        removed the selection. While depth and budget allow for what it records nothing is
        forgotten. */
    method Press(k: Key)
      requires Valid() && Ready(Now(), k)
      modifies this, text, text.a, undo, undo.v, redo, redo.v
      ensures Valid() && Now() == Pressed(old(Now()), k)
      ensures forall s | s in pasts || s in futures ::
        s in old(pasts) || s in old(futures) || s == old(Buf()) || s == Freed(old(Now()), k).buf
      ensures !k.Undo? && !k.Redo? && Fitting(old(Now()), k) ==> old(pasts) <= pasts
    {
      hide Ring.Contents, Chain, Held, Good, Remembers, Joined, Takes, Acted, Records, Freed, SelectionRecord,
           PutsNewline,
           Edit.MarkFits;
      NowInOrder();
      FreedWithin(Now(), k);
      FreedReady(Now(), k);
      Free(k);
      var typed := Act(k);
      if !typed { typingLine := -1; }
    }

    lemma AsManySnaps()
      requires Valid()
      ensures |pasts| == |undo.Contents()| && |futures| == |redo.Contents()|
    {
    }

    method Free(k: Key)
      requires Valid() && Ready(Now(), k)
      modifies this`cy, this`cx, this`markOn, this`histBytes, this`typingLine, this`pasts, this`futures, text, text.a,
               undo, undo.v, redo
      ensures Valid() && Now() == Freed(old(Now()), k)
      ensures forall s | s in pasts || s in futures :: s in old(pasts) || s in old(futures) || s == old(Buf())
      ensures Fitting(old(Now()), k) ==> old(pasts) <= pasts
    {
      hide Ring.Contents, Chain, Held, Good, Remembers, Joined, Takes, Records, SelectionGone, SelectionRecord;
      if k.RemovesSelection() {
        ghost var e, ps := Now(), pasts;
        AsManySnaps();
        DeleteSelection();
        AsManySnaps();
        if e.Selects() {
          KnownSnaps(pasts, ps, e.buf);
          SelectionIsOneRecord(e);
          if Takes(e.undo, [], |SelectionRecord(e).blob|) { AllRemembered(pasts, ps, e.buf); }
        }
      }
    }

    /** What a key does once the selection is gone. Typing and rubbing out go on with a run of
        typing. */
    method Act(k: Key) returns (typed: bool)
      requires Valid() && (k.UsesMark() ==> Now().MarkFits()) && !PutsNewline(Now(), k)
      modifies this, text, text.a, undo, undo.v, redo, redo.v
      ensures Valid() && (k.Undo? || k.Redo? ==> old(Now()).InOrder()) && Now() == Acted(old(Now()), k)
      ensures typed == (k.Text? || (k.Rub? && !old(markOn)))
      ensures forall s | s in pasts || s in futures :: s in old(pasts) || s in old(futures) || s == old(Buf())
      ensures var c := Records(old(Now()), k);
        (!k.Undo? && !k.Redo? && (c.Some? ==> Takes(old(undo.Contents()), [], |c.value.blob|))) ==> old(pasts) <= pasts
    {
      hide Ring.Contents, Chain, Held, Good, Remembers, Joined, Edit.InOrder, Records, PutsNewline, Takes;
      ghost var e, ps, fs, buf := Now(), pasts, futures, Buf();
      NowInOrder();
      AsManySnaps();
      typed := k.Text?;
      if k.Undo? {
        UndoKey();
      } else if k.Redo? {
        RedoKey();
      } else if k.Move? || k.Mark? || k.Copy? {
        NoRecord(Now(), k);
        ActOnCursor(k);
      } else {
        typed := ActOnText(k);
        KeptSnaps(pasts, futures, ps, fs, buf);
        AsManySnaps();
        OneRecord(e, k);
        ghost var c := Records(e, k);
        if c.Some? && Takes(e.undo, [], |c.value.blob|) { AllRemembered(pasts, ps, buf); }
      }
    }

    method UndoKey()
      requires Valid()
      modifies this, text, text.a, undo, redo, redo.v
      ensures Valid() && old(Now()).InOrder() && Now() == Undone(old(Now()))
      ensures forall s | s in pasts || s in futures :: s in old(pasts) || s in old(futures) || s == old(Buf())
    {
      hide Ring.Contents, Chain, Held, Good, Within, Clamped, Tail, Joined, Takes, Remembers, Swapped, Undone;
      ghost var ps, fs, n, buf := pasts, futures, undo.count - 1, Buf();
      NowInOrder();
      AsManySnaps();
      Undo();
      if 0 <= n {
        TailMembers(pasts, ps[..n]);
        KnownSnaps(futures, fs, buf);
      }
    }

    method RedoKey()
      requires Valid()
      modifies this, text, text.a, undo, redo, undo.v
      ensures Valid() && old(Now()).InOrder() && Now() == Redone(old(Now()))
      ensures forall s | s in pasts || s in futures :: s in old(pasts) || s in old(futures) || s == old(Buf())
    {
      hide Ring.Contents, Chain, Held, Good, Within, Clamped, Tail, Joined, Takes, Remembers, Swapped, Redone;
      ghost var ps, fs, n, buf := pasts, futures, redo.count - 1, Buf();
      NowInOrder();
      AsManySnaps();
      Redo();
      if 0 <= n {
        TailMembers(futures, fs[..n]);
        KnownSnaps(pasts, ps, buf);
      }
    }

    lemma NowInOrder()
      requires Valid()
      ensures Now().InOrder()
    {
      hide Ring.Contents, Good, Held, Applied;
    }

    /** The keys that leave the text alone. */
    method ActOnCursor(k: Key)
      requires Valid() && (k.Move? || k.Mark? || k.Copy?) && (k.UsesMark() ==> Now().MarkFits())
      modifies this`cy, this`cx, this`my, this`mx, this`markOn, this`clip
      ensures Valid() && Now() == Acted(old(Now()), k)
    {
      hide Ring.Contents, Chain, Held, Good, Joined, Region;
      if k.Move? {
        MoveTo(k.to);
      } else if k.Mark? {
        markOn := !markOn;
        if markOn { my, mx := cy, cx; }
      } else {
        var ok := CopySelection();
        if ok { markOn := false; }
      }
    }

    /** Any place in the buffer can be moved to, even one inside a character. */
    method MoveTo(to: Pos)
      requires Valid()
      modifies this`cy, this`cx
      ensures Valid() && Now() == Moved(old(Now()), to)
    {
      hide Ring.Contents, Chain, Held, Clamped;
      cy, cx := to.y, to.x;
      if !(0 <= cy < text.n && 0 <= cx <= |text.a[cy]|) { ClampCursor(); }
    }

    /** The keys that change the text and record it. */
    method ActOnText(k: Key) returns (typed: bool)
      requires Valid() && (k.UsesMark() ==> Now().MarkFits()) && !PutsNewline(Now(), k)
      requires !(k.Undo? || k.Redo? || k.Move? || k.Mark? || k.Copy?)
      modifies this, text, text.a, undo, undo.v, redo
      ensures Valid() && Now() == Acted(old(Now()), k) && typed == (k.Text? || (k.Rub? && !old(markOn)))
      ensures Keeps(old(pasts), old(futures), old(Buf()), Records(old(Now()), k))
    {
      hide Ring.Contents, Chain, Held, Good, Remembers, Joined, LineHits, SelectionGone, LineCut, LineSplit, ClipPasted,
           TextTyped, OneReplaced, RestReplaced;
      typed := k.Text?;
      match k
      case Text(bytes) => TypeText(bytes);
      case Rub(forward) => typed := RubOut(forward);
      case Enter => SplitLine();
      case Paste => Paste();
      case CutLine => CutLine();
      case Cut => CutKey();
      case ReplaceOne(plen, rep) => if cx + plen <= |text.a[cy]| { ReplaceAt(plen, rep); }
      case ReplaceAll(pat, rep) => if pat != [] { ReplaceRest(pat, rep); }
    }

    /** Backspace or delete: the selection, or else one character, which counts as typing. */
    method RubOut(forward: bool) returns (typed: bool)
      requires Valid() && Now().MarkFits()
      modifies this, text, text.a, undo, undo.v, redo
      ensures Valid() && Now() == Acted(old(Now()), Key.Rub(forward)) && typed == !old(markOn)
      ensures Keeps(old(pasts), old(futures), old(Buf()), Records(old(Now()), Key.Rub(forward)))
    {
      hide Ring.Contents, Chain, Held, Good, Remembers, SelectionGone, ErasedAhead, ErasedBack, Joined;
      typed := !markOn;
      if markOn {
        DeleteSelection();
      } else if forward {
        DeleteForward();
      } else {
        Backspace();
      }
    }

    /** Cut: the selection if it fits the clipboard, or else the whole line. */
    method CutKey()
      requires Valid() && Now().MarkFits()
      modifies this, text, text.a, undo, undo.v, redo
      ensures Valid() && Now() == Acted(old(Now()), Key.Cut)
      ensures Keeps(old(pasts), old(futures), old(Buf()), Records(old(Now()), Key.Cut))
    {
      hide Ring.Contents, Chain, Held, Good, Remembers, Joined, SelectionGone, LineCut, Region;
      if markOn {
        var ok := CopySelection();
        if ok { DeleteSelection(); }
      } else {
        CutLine();
      }
    }

    /** Any run of keys, up to the first that reads a mark left behind, or that would put a
        newline inside a line. `run` are the states it goes through, each what the key before
        makes of the one before it. However it went, every record still held leads back, or
        forward, to a text that stood in the run, if it did not lead to one before. */
    method Run(keys: seq<Key>) returns (done: nat, ghost run: seq<Edit>)
      requires Valid()
      modifies this, text, text.a, undo, undo.v, redo, redo.v
      ensures Valid() && done <= |keys| && IsRun(run, keys[..done]) && run[0] == old(Now()) && run[done] == Now()
      ensures done == |keys| || !Ready(Now(), keys[done])
      ensures forall s | s in pasts || s in futures ::
        s in old(pasts) || s in old(futures) || Stood(run, keys[..done], s)
    {
      hide Ring.Contents, Chain, Held, Good, Pressed, PutsNewline, Edit.InOrder, Freed, Fitting, Stood;
      NowInOrder();
      done, run := 0, [Now()];
      while done < |keys|
        invariant Valid() && done <= |keys| && IsRun(run, keys[..done]) && run[0] == old(Now()) && run[done] == Now()
        invariant forall s | s in pasts || s in futures ::
          s in old(pasts) || s in old(futures) || Stood(run, keys[..done], s)
      {
        hide Ring.Contents, Chain, Held, Good, Pressed, PutsNewline, Edit.InOrder, Freed, Fitting, Stood, IsRun, Ready;
        var k := keys[done];
        var ok := IsReady(k);
        if !ok { break; }
        ghost var was := run[done];
        Press(k);
        NowInOrder();
        RunGoesOn(run, keys[..done], k);
        assert keys[..done + 1] == keys[..done] + [k];
        run := run + [Now()];
        done := done + 1;
      }
      assert keys[..|keys|] == keys;
    }

    /** A mark is left behind by three keys: enter, the mark, and undo. */
    static method LeaveMarkBehind() returns (s: Session)
      ensures s.Valid() && s.markOn && !s.Now().MarkFits()
    {
      hide Ring.Contents, Chain, Held, Good, Joined, Takes, Clamped, Splice, Swapped, Tail, Pushed;
      s := new Session();
      EnterIsRecorded(s.Now());
      s.SplitLine();
      s.AsManySnaps();
      s.ActOnCursor(Key.Mark);
      s.UndoLast();
    }
  }

  lemma LinesReplaced(buf: seq<Line>, p: Pos, pat: seq<Byte>, rep: seq<Byte>, first: nat, last: nat, after: seq<Line>)
    requires Within(buf, p) && p.y <= first <= last < |buf| == |after|
    requires forall k | p.y <= k < |buf| && !(first <= k <= last) :: ReplacedLine(buf, p, pat, rep, k) == buf[k]
    requires forall k | 0 <= k < |buf| && !(first <= k <= last) :: after[k] == buf[k]
    requires forall k | first <= k <= last :: after[k] == ReplacedLine(buf, p, pat, rep, k)
    ensures after == ReplacedFrom(buf, p, pat, rep)
    ensures after == Splice(buf, first, last - first + 1, after[first..last + 1])
  {
    hide Replaced;
    forall k | 0 <= k < |buf|
      ensures after[k] == ReplacedLine(buf, p, pat, rep, k)
    {
    }
    assert after == ReplacedFrom(buf, p, pat, rep);
    ReplacedSplice(buf, p, pat, rep, first, last);
  }

  lemma FreedReady(e: Edit, k: Key)
    requires Within(e.buf, e.cur) && Ready(e, k)
    ensures var m := Freed(e, k);
      Within(m.buf, m.cur) && (k.UsesMark() ==> m.MarkFits()) && !PutsNewline(m, k) && (k.UsesMark() ==> m == e)
  {
    FreedWithin(e, k);
  }

  lemma NoRecord(e: Edit, k: Key)
    requires Within(e.buf, e.cur) && (k.UsesMark() ==> e.MarkFits()) && (k.Move? || k.Mark? || k.Copy?)
    ensures Records(e, k).None?
  {
  }

  lemma EnterIsRecorded(e: Edit)
    requires e.buf == [[]] && e.cur == Pos(0, 0) && e.undo == []
    ensures LineSplit(e).undo == [Record([[]], 0, 1, 2, Pos(0, 0))] && LineSplit(e).buf == [[], []]
    ensures LineSplit(e).cur == Pos(1, 0)
  {
    OneRecord(e, Key.Enter);
    var l := e.buf[0];
    assert l == [] && l[..0] == [] && l[..Indent(l, 0)] + l[0..] == [];
  }

  lemma PutOneMore(l: Line, x: nat, s: seq<Byte>, i: nat)
    requires x <= |l| && i < |s|
    ensures var cur := l[..x] + s[..i] + l[x..];
      cur[..x + i] + [s[i]] + cur[x + i..] == l[..x] + s[..i + 1] + l[x..]
  {
  }

  lemma KeptSnaps(pasts: seq<seq<Line>>, futures: seq<seq<Line>>, ps: seq<seq<Line>>, fs: seq<seq<Line>>,
                  buf: seq<Line>)
    requires (pasts == ps && futures == fs) || (Remembers(pasts, ps, buf) && futures == [])
    ensures forall s | s in pasts || s in futures :: s in ps || s in fs || s == buf
  {
    hide Remembers;
    if Remembers(pasts, ps, buf) { KnownSnaps(pasts, ps, buf); }
  }

  /** What recording a change does to a stack and to what it remembers. */
  lemma RecordGrows(u: seq<Change>, snaps: seq<seq<Line>>, buf: seq<Line>, at: nat, nold: nat, add: seq<Line>, p: Pos)
    requires Good(buf) && at + nold <= |buf| && 1 <= |buf| - nold + |add| <= MAX_LINES
    requires Chain(u, snaps, buf) && |u| <= UNDO_MAX
    ensures var c := Record(buf, at, nold, |add|, p); var q := Pushed(u, [], c);
      var left := SnapsPushed(snaps, |q.0|, q.2, buf);
      && Chain(q.0, left, Splice(buf, at, nold, add)) && Remembers(left, snaps, buf)
      && (left != [] <==> |c.blob| <= UNDO_BYTES) && (q.0 != [] ==> q.0[|q.0| - 1] == c)
  {
    hide Pushed, Held, Chain, SnapsPushed, Remembers, Tail, Splice, Joined;
    var c := Record(buf, at, nold, |add|, p);
    RecordUndoes(buf, at, nold, add, p);
    PushKeepsBudget(u, [], c);
    NoChain(Splice(buf, at, nold, add));
    PushKeepsChains(u, snaps, [], [], c, buf, Splice(buf, at, nold, add));
    ChainLengths(u, snaps, buf);
    var (o, t, ok) := Pushed(u, [], c);
    SnapsFollow(o, ok, u, snaps, buf);
  }

  /** The record of a line about to be typed on is true already, of the line as it stands. */
  lemma TypingRecord(u: seq<Change>, snaps: seq<seq<Line>>, buf: seq<Line>, y: nat, p: Pos)
    requires Chain(u, snaps, buf) && Good(buf) && y < |buf| && |u| <= UNDO_MAX
    ensures var q := Pushed(u, [], Record(buf, y, 1, 1, p)); var left := SnapsPushed(snaps, |q.0|, q.2, buf);
      && Chain(q.0, left, buf) && Remembers(left, snaps, buf)
      && (left != [] <==> |buf[y]| <= UNDO_BYTES)
      && (q.0 != [] ==> var c := q.0[|q.0| - 1]; c.at == y && c.nadd == 1 && c.nremove == 1)
  {
    hide Pushed, Held, Chain, SnapsPushed, Remembers, Tail, Joined;
    RecordGrows(u, snaps, buf, y, 1, [buf[y]], p);
    assert Splice(buf, y, 1, [buf[y]]) == buf;
    assert buf[y..y + 1] == [buf[y]] + [];
    JoinedStep(buf[y], []);
  }

  /** What undo and redo share: one record is taken off a stack and its inverse goes on the other. */
  lemma StepKeepsChains(c: Change, dest: seq<Change>, destSnaps: seq<seq<Line>>, src: seq<Change>,
                        srcSnaps: seq<seq<Line>>,
                        buf: seq<Line>, p: Pos)
    requires Good(buf) && Fits(c, buf) && |dest| <= UNDO_MAX
    requires Chain(dest, destSnaps, buf) && Chain(src, srcSnaps, Applied(c, buf))
    ensures var inv := Record(buf, c.at, c.nremove, c.nadd, p);
      var (o, t, ok) := Pushed(dest, src, inv);
      var left := SnapsPushed(destSnaps, |o|, ok, buf);
      && Chain(o, left, Applied(c, buf)) && Chain(t, SnapsLeft(srcSnaps, |t|), Applied(c, buf))
      && Remembers(left, destSnaps, buf)
      && Tail(SnapsLeft(srcSnaps, |t|), srcSnaps)
      && (Takes(dest, src, |Swapped(c, buf)|) ==> SnapsLeft(srcSnaps, |t|) == srcSnaps && left == destSnaps + [buf])
      && (left != [] <==> |Swapped(c, buf)| <= UNDO_BYTES) && (left != [] ==> o != [] && o[|o| - 1] == inv)
  {
    hide Pushed, Held, Chain, Applied, Good, SnapsPushed, SnapsLeft, Tail, Remembers;
    var inv := Record(buf, c.at, c.nremove, c.nadd, p);
    InverseUndoes(c, buf, p);
    PushKeepsBudget(dest, src, inv);
    PushKeepsChains(dest, destSnaps, src, srcSnaps, inv, buf, Applied(c, buf));
    ChainLengths(dest, destSnaps, buf);
    ChainLengths(src, srcSnaps, Applied(c, buf));
    var (o, t, ok) := Pushed(dest, src, inv);
    SnapsFollow(o, ok, dest, destSnaps, buf);
    if Takes(dest, src, |inv.blob|) {
      ChainLengths(o, SnapsPushed(destSnaps, |o|, ok, buf), Applied(c, buf));
      AllRemembered(SnapsPushed(destSnaps, |o|, ok, buf), destSnaps, buf);
    }
    TailFollows(t, src, srcSnaps);
  }

  lemma SnapsFollow(o: seq<Change>, ok: bool, own: seq<Change>, snaps: seq<seq<Line>>, buf: seq<Line>)
    requires |own| == |snaps| && (if ok then o != [] && Tail(o[..|o| - 1], own) else o == [])
    ensures var left := SnapsPushed(snaps, |o|, ok, buf); Remembers(left, snaps, buf) && (left != [] <==> ok)
  {
  }

  lemma TailFollows(t: seq<Change>, own: seq<Change>, snaps: seq<seq<Line>>)
    requires |own| == |snaps| && Tail(t, own)
    ensures Tail(SnapsLeft(snaps, |t|), snaps) && (|t| == |own| ==> SnapsLeft(snaps, |t|) == snaps)
  {
  }

  lemma ChainTop(recs: seq<Change>, snaps: seq<seq<Line>>, buf: seq<Line>)
    requires Chain(recs, snaps, buf) && recs != []
    ensures |snaps| == |recs|
    ensures var n := |recs| - 1;
      Good(snaps[n]) && Fits(recs[n], buf) && Applied(recs[n], buf) == snaps[n] &&
        Chain(recs[..n], snaps[..n], snaps[n])
  {
  }

  lemma ChainLengths(u: seq<Change>, snaps: seq<seq<Line>>, buf: seq<Line>)
    requires Chain(u, snaps, buf)
    ensures |u| == |snaps|
  {
  }

  lemma RoomShrinks(own: seq<Change>, other: seq<Change>, size: nat)
    ensures |Room(own, other, size).0| <= |own|
  {
    RoomDropsOldest(own, other, size);
  }

  /** `pasts` is a latest part of what it was, with `buf` on top; or everything is forgotten. */
  ghost predicate Remembers(pasts: seq<seq<Line>>, was: seq<seq<Line>>, buf: seq<Line>) {
    pasts == [] || (pasts[|pasts| - 1] == buf && Tail(pasts[..|pasts| - 1], was))
  }

  lemma TailMembers(r: seq<seq<Line>>, s: seq<seq<Line>>)
    requires Tail(r, s)
    ensures forall x | x in r :: x in s
  {
  }

  lemma KnownSnaps(pasts: seq<seq<Line>>, was: seq<seq<Line>>, buf: seq<Line>)
    requires Remembers(pasts, was, buf)
    ensures forall s | s in pasts :: s in was || s == buf
  {
    if pasts != [] {
      var n := |pasts| - 1;
      TailMembers(pasts[..n], was);
      assert pasts == pasts[..n] + [pasts[n]];
    }
  }

  lemma AllRemembered(pasts: seq<seq<Line>>, was: seq<seq<Line>>, buf: seq<Line>)
    requires Remembers(pasts, was, buf) && |pasts| == |was| + 1
    ensures pasts == was + [buf]
  {
    assert pasts == pasts[..|was|] + [pasts[|was|]];
  }

  lemma HasALine(buf: seq<Line>)
    requires Good(buf)
    ensures 1 <= |buf|
  {
  }

  lemma NoFutures(futures: seq<seq<Line>>, buf: seq<Line>)
    ensures Chain([], futures, buf) <==> futures == []
  {
  }

  lemma OneLine(l: Line)
    requires NL !in l
    ensures Parts(l, 0, 1) == [l]
  {
    CaptureReadsBack([l]);
  }

  lemma SplicedTwo(buf: seq<Line>, y: nat, l: Line, m: Line)
    requires y < |buf|
    ensures var r := Splice(buf, y, 1, [l, m]); |r| == |buf| + 1 && r[y] == l && r[y + 1] == m
  {
  }

  lemma TwoLines(l: Line, m: Line)
    requires NL !in l && NL !in m
    ensures Parts(l + [NL] + m, 0, 2) == [l, m]
  {
    assert [l, m][1..] == [m];
    CaptureReadsBack([l, m]);
  }
}
