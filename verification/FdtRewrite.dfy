/** The rewriter as it runs: one pass over the tokens into a buffer that never takes
    more than it holds. */
module FdtRewrite {
  import opened Optional
  import opened Octets
  import opened FdtTree
  import opened FdtBytes
  import opened FdtCopy

  lemma AlignShift(a: nat, n: nat)
    requires a % 4 == 0
    ensures Align4(a + n) == a + Align4(n)
  {
  }

  /** The output buffer. `want` is everything that was asked to be written so far,
      whether or not it fitted. */
  class WBuf {
    const base: array<Byte>
    var pos: nat
    var overflow: bool
    ghost var want: seq<Byte>

    constructor (base: array<Byte>)
      ensures this.base == base && Inv() && !overflow && want == Zeros(HEADER)
    {
      this.base := base;
      pos, overflow, want := HEADER, false, Zeros(HEADER);
    }

    /** What fitted stands in the buffer behind the place of the header; an overflow
        means that more was wanted than the buffer holds, and nothing else does. */
    ghost predicate Inv()
      reads this, base
    {
      && HEADER <= |want|
      && (overflow ==> base.Length < |want|)
      && (!overflow ==>
            && pos == |want|
            && (pos == HEADER || pos <= base.Length)
            && (forall k | HEADER <= k < pos :: base[k] == want[k]))
    }

    method Bytes(src: seq<Byte>)
      requires Inv()
      modifies this`pos, this`overflow, this`want, base
      ensures Inv() && want == old(want) + src && (old(overflow) ==> overflow)
      ensures !old(overflow) && overflow ==> pos == old(pos)
    {
      want := want + src;
      if pos + |src| > base.Length {
        overflow := true;
        return;
      }
      for i := 0 to |src|
        modifies base
        invariant forall k | 0 <= k < pos :: base[k] == old(base[k])
        invariant forall k | 0 <= k < i :: base[pos + k] == src[k]
      {
        base[pos + i] := src[i];
      }
      pos := pos + |src|;
      assert !overflow ==> forall k | HEADER <= k < pos :: base[k] == want[k];
    }

    method Word(v: int)
      requires Inv() && 0 <= v < U32
      modifies this`pos, this`overflow, this`want, base
      ensures Inv() && want == old(want) + Put32(v) && (old(overflow) ==> overflow)
    {
      Bytes(Put32(v));
    }

    method Pad4()
      requires Inv()
      modifies this`pos, this`overflow, this`want, base
      ensures Inv() && want == old(want) + Zeros(Align4(|old(want)|) - |old(want)|) && (old(overflow) ==> overflow)
      ensures !old(overflow) && |old(want)| % 4 == 0 ==> !overflow && pos == old(pos) && want == old(want)
    {
      hide Align4, Zeros;
      ghost var was := want;
      AlignOn(|want|);
      want := want + Zeros(Align4(|want|) - |want|);
      while pos % 4 != 0
        modifies this`pos, this`overflow, base
        invariant old(overflow) ==> overflow
        invariant old(pos) % 4 == 0 ==> pos == old(pos) && overflow == old(overflow)
        invariant overflow ==> base.Length < |want|
        invariant !overflow ==> |was| <= pos <= |want| && Align4(pos) == |want|
        invariant !overflow ==> pos == |was| || pos <= base.Length
        invariant !overflow ==> forall k | HEADER <= k < |was| && k < base.Length :: base[k] == was[k]
        invariant !overflow ==> forall k | |was| <= k < pos :: k < base.Length && base[k] == 0
        decreases Align4(pos) - pos
      {
        if pos >= base.Length {
          overflow := true;
          return;
        }
        AlignOn(pos);
        base[pos] := 0;
        pos := pos + 1;
      }
      if !overflow {
        AlignOn(pos);
        assert pos == |want|;
        assert forall k | HEADER <= k < pos && k < base.Length :: base[k] == want[k];
      }
    }

    method Prop(nameoff: nat, val: seq<Byte>)
      requires Inv() && |want| % 4 == 0 && nameoff < U32 && |val| < U32
      modifies this`pos, this`overflow, this`want, base
      ensures Inv() && want == old(want) + Encode(Token.Prop(nameoff, val)) && (old(overflow) ==> overflow)
    {
      hide Put32;
      ghost var was := want;
      Word(PROP);
      Word(|val|);
      Word(nameoff);
      AlignShift(|want|, |val|);
      Bytes(val);
      Pad4();
      assert want == was + (Put32(PROP) + Put32(|val|) + Put32(nameoff) + val + Pad(|val|));
    }

    method Begin(name: seq<Byte>)
      requires Inv() && |want| % 4 == 0 && 0 !in name
      modifies this`pos, this`overflow, this`want, base
      ensures Inv() && want == old(want) + Encode(Token.Begin(name)) && (old(overflow) ==> overflow)
    {
      hide Put32;
      ghost var was := want;
      Word(BEGIN_NODE);
      AlignShift(|want|, |name| + 1);
      Bytes(name + [0]);
      Pad4();
      assert want == was + (Put32(BEGIN_NODE) + (name + [0]) + Pad(|name| + 1));
    }

    /** Takes back the last word, if it closes a node. */
    method Reopen(start: nat) returns (open: bool)
      requires Inv() && !overflow && HEADER <= start <= |want|
      modifies this`pos, this`want
      ensures Inv() && !overflow && (open <==> EndsClosed(old(want)[start..]))
      ensures want == if open then old(want)[..|old(want)| - 4] else old(want)
    {
      hide Put32, Be32, EndsClosed;
      open := false;
      ClosedEnd(want, start);
      if pos >= start + 4 {
        var last := base[pos - 4..pos];
        assert last == want[|want| - 4..];
        PutWordIs(last);
        if Be32(last, 0) == END_NODE {
          want := want[..|want| - 4];
          pos := pos - 4;
          open := true;
        }
      }
    }
  }

  lemma ClosedEnd(s: seq<Byte>, start: nat)
    requires start <= |s|
    ensures EndsClosed(s[start..]) <==> |s| >= start + 4 && s[|s| - 4..] == Put32(END_NODE)
  {
    hide Put32;
    if |s| >= start + 4 { assert s[start..][|s| - start - 4..] == s[|s| - 4..]; }
  }

  lemma AlignOn(p: nat)
    ensures if p % 4 == 0 then Align4(p) == p else Align4(p + 1) == Align4(p) && p < Align4(p)
  {
  }

  lemma PutWordIs(s: seq<Byte>)
    requires |s| == 4
    ensures Be32(s, 0) == END_NODE <==> s == Put32(END_NODE)
  {
    assert Put32(END_NODE) == [0, 0, 0, 2];
  }

  // ── Reading ────────────────────────────────────────────────────────

  method ReservationLength(m: seq<Byte>, base: nat) returns (r: Reserved)
    requires !Reservations(m, base, 0).Unreadable?
    ensures r == Reservations(m, base, 0)
  {
    var len := 0;
    while true
      invariant 0 <= len <= 4096 && Reservations(m, base, len) == Reservations(m, base, 0)
      decreases 8192 - len
    {
      var e := base + len;
      var empty := Be32(m, e) == 0 && Be32(m, e + 4) == 0 && Be32(m, e + 8) == 0 && Be32(m, e + 12) == 0;
      len := len + 16;
      if empty { return Length(len); }
      if len > 4096 { return TooLong; }
    }
  }

  method FindStringAt(m: seq<Byte>, to: nat, size: nat, name: seq<Byte>) returns (r: Option<nat>)
    ensures r == FindString(m, to, size, 0, name)
  {
    var i := 0;
    while i < size
      invariant 0 <= i && FindString(m, to, size, i, name) == FindString(m, to, size, 0, name)
      decreases size - i
    {
      var s := CStr(m, to + i);
      if s == name { return Some(i); }
      i := i + |s| + 1;
    }
    r := None;
  }

  /** What is known while the tokens from `off` on are still to be read. */
  ghost predicate Reading(m: seq<Byte>, off: int, end: int, rest: seq<Token>) {
    0 <= off && Decode(m, off, end) == Some(rest)
  }

  /** Reads one token and moves on. */
  lemma ReadOn(m: seq<Byte>, off: int, end: int, rest: seq<Token>)
    requires Reading(m, off, end, rest) && off < end
    ensures off + 4 <= |m| && Decode1(m, off).Some?
    ensures var (t, next) := Decode1(m, off).value;
      && off < next && (t.Fin? ==> rest == []) && (t.Bad? ==> rest == [t])
      && (!t.Fin? && !t.Bad? ==> rest != [] && rest[0] == t && Reading(m, next, end, rest[1..]))
  {
    var (t, next) := Decode1(m, off).value;
    if !t.Fin? && !t.Bad? {
      assert rest == [t] + Decode(m, next, end).value;
    }
  }

  /** The boot arguments as the kernel will find them. */
  method FindBootargs(m: seq<Byte>) returns (r: Option<seq<Byte>>)
    requires HEADER <= |m| && StructTokens(m).Some?
    ensures r == FindArgs(Names(m), StructTokens(m).value, 0, false)
  {
    hide Decode, Decode1;
    var names := Names(m);
    var off, end := Field(m, H_OFF_STRUCT), Field(m, H_OFF_STRUCT) + Field(m, H_SIZE_STRUCT);
    ghost var rest := StructTokens(m).value;
    var depth, inChosen := 0, false;
    while off < end
      invariant Reading(m, off, end, rest)
      invariant FindArgs(names, rest, depth, inChosen) == FindArgs(names, StructTokens(m).value, 0, false)
      decreases end - off
    {
      ReadOn(m, off, end, rest);
      var (t, next) := Decode1(m, off).value;
      match t {
        case Begin(n) =>
          depth := depth + 1;
          if depth == 2 && n == CHOSEN { inChosen := true; }
        case End =>
          if inChosen && depth == 2 { inChosen := false; }
          depth := depth - 1;
        case Prop(no, v) =>
          if inChosen && names(no) == BOOTARGS && |v| > 0 { return Some(v); }
        case Nop =>
        case _ => return None;
      }
      off := next;
      rest := rest[1..];
    }
    EmptyAtEnd(m, off, end, rest);
    r := None;
  }

  lemma EmptyAtEnd(m: seq<Byte>, off: int, end: int, rest: seq<Token>)
    requires Reading(m, off, end, rest) && off >= end
    ensures rest == []
  {
  }

  /** The root's cell counts, read up to its first child. */
  method RootCellsOf(m: seq<Byte>) returns (c: CellCounts)
    requires HEADER <= |m| && StructTokens(m).Some?
    ensures c == CellsOf(m)
  {
    hide Decode, Decode1;
    var names := Names(m);
    c := DEFAULT_CELLS;
    var off, end := Field(m, H_OFF_STRUCT), Field(m, H_OFF_STRUCT) + Field(m, H_SIZE_STRUCT);
    ghost var rest := StructTokens(m).value;
    var depth := 0;
    while off < end
      invariant Reading(m, off, end, rest)
      invariant ReadCells(names, rest, depth, c) == CellsOf(m)
      decreases end - off
    {
      ReadOn(m, off, end, rest);
      var (t, next) := Decode1(m, off).value;
      match t {
        case Begin(_) =>
          depth := depth + 1;
          if depth > 1 { return; }
        case Prop(no, v) =>
          if depth == 1 && |v| == 4 {
            if names(no) == ADDRESS_CELLS { c := c.(addr := Be32(v, 0)); }
            if names(no) == SIZE_CELLS { c := c.(size := Be32(v, 0)); }
          }
        case Nop =>
        case _ => return;
      }
      off := next;
      rest := rest[1..];
    }
    EmptyAtEnd(m, off, end, rest);
  }

  // ── Copying ────────────────────────────────────────────────────────

  /** Copies one token with the edit applied; `s` is what the flags say before it. */
  method CopyToken(w: WBuf, f: Fix, t: Token, s: State) returns (s': State)
    requires w.Inv() && |w.want| % 4 == 0 && Fine(t) && AllFine(ArgsProp(f)) && AllFine(Written(f, t, s))
    modifies w`pos, w`overflow, w`want, w.base
    ensures w.Inv() && w.want == old(w.want) + EncodeAll(Written(f, t, s)) && s' == Next(f, t, s)
    ensures old(w.overflow) ==> w.overflow
  {
    hide Encode;
    s' := s;
    EncodeOne(t);
    match t {
      case Begin(name) =>
        s' := s'.(depth := s'.depth + 1);
        if s'.depth == 2 && name == CHOSEN { s' := s'.(inChosen := true, sawChosen := true); }
        if s'.depth == 2 && f.reg.Some? && IsMemory(name) { s' := s'.(inMemory := true); }
        w.Begin(name);
        if s'.inChosen && f.args.Some? && !s'.wroteArgs {
          var p := Prop(f.argsName, f.args.value);
          assert p == ArgsProp(f)[0];
          EncodeOne(p);
          EncodeConcat([t], [p]);
          assert Written(f, t, s) == [t] + [p];
          w.Prop(f.argsName, f.args.value);
          s' := s'.(wroteArgs := true);
        } else {
          assert Written(f, t, s) == [t];
        }
      case Prop(no, v) =>
        var pname := f.names(no);
        if s.inChosen && f.args.Some? && pname == BOOTARGS {
        } else if s.inMemory && f.reg.Some? && pname == REG {
          assert Written(f, t, s)[0] == Prop(no, f.reg.value);
          EncodeOne(Prop(no, f.reg.value));
          w.Prop(no, f.reg.value);
        } else {
          w.Prop(no, v);
        }
      case End =>
        if s'.inChosen && s'.depth == 2 { s' := s'.(inChosen := false); }
        if s'.inMemory && s'.depth == 2 { s' := s'.(inMemory := false); }
        s' := s'.(depth := s'.depth - 1);
        w.Word(END_NODE);
        EndEncodes();
      case Nop =>
    }
  }

  /** The tokens in `done` have been copied; `s` is where that leads. */
  ghost predicate Copied(f: Fix, done: seq<Token>, s: State, want: seq<Byte>, was: seq<Byte>) {
    && AllFine(done) && AllFine(ArgsProp(f)) && (f.reg.Some? ==> |f.reg.value| < U32)
    && s == After(f, done, START) && AllFine(Out(f, done, START)) && want == was + EncodeAll(Out(f, done, START))
  }

  lemma NothingCopied(f: Fix, was: seq<Byte>)
    requires AllFine(ArgsProp(f)) && (f.reg.Some? ==> |f.reg.value| < U32)
    ensures Copied(f, [], START, was, was)
  {
    assert was == was + EncodeAll([]);
  }

  lemma CopiedOn(f: Fix, done: seq<Token>, s: State, t: Token, before: seq<Byte>, was: seq<Byte>)
    requires Copied(f, done, s, before, was) && Fine(t) && |was| % 4 == 0
    ensures AllFine(Written(f, t, s)) && |before| % 4 == 0
    ensures Copied(f, done + [t], Next(f, t, s), before + EncodeAll(Written(f, t, s)), was)
  {
    hide Encode, EncodeAll, Fine, Written, Next, Out, After, ArgsProp;
    WrittenFine(f, t, s);
    FineAnd(done, t);
    RunOne(f, t, s);
    RunConcat(f, done, [t], START);
    EncodeConcat(Out(f, done, START), Written(f, t, s));
    EncodeAligned(Out(f, done, START));
    assert before + EncodeAll(Written(f, t, s)) == was + (EncodeAll(Out(f, done, START)) + EncodeAll(Written(f, t, s)));
  }

  lemma FineAnd(done: seq<Token>, t: Token)
    requires AllFine(done) && Fine(t)
    ensures AllFine(done + [t])
  {
  }

  /** A part of the copy is no longer than all of it. */
  lemma CopiedPart(f: Fix, done: seq<Token>, s: State, rest: seq<Token>, want: seq<Byte>, was: seq<Byte>)
    requires Copied(f, done, s, want, was) && AllFine(done + rest)
    ensures AllFine(Out(f, done + rest, START)) && |want| <= |was| + |EncodeAll(Out(f, done + rest, START))|
  {
    hide Encode, Fine;
    assert forall i | 0 <= i < |rest| :: rest[i] == (done + rest)[|done| + i];
    OutFine(f, rest, s);
    RunConcat(f, done, rest, START);
    EncodeConcat(Out(f, done, START), Out(f, rest, s));
  }

  lemma TokenKinds(t: Token, ts: seq<Token>)
    requires t in ts && !Fine(t)
    ensures !AllFine(ts)
  {
  }

  /** Copies the structure block up to its end or the first word that is no token, or
      until the buffer is full. */
  method CopyTokens(w: WBuf, m: seq<Byte>, f: Fix) returns (ok: bool, saw: bool)
    requires HEADER <= |m| && StructTokens(m).Some? && w.Inv() && |w.want| % 4 == 0
    requires AllFine(ArgsProp(f)) && (f.reg.Some? ==> |f.reg.value| < U32)
    modifies w`pos, w`overflow, w`want, w.base
    ensures w.Inv() && (old(w.overflow) ==> w.overflow)
    ensures var ts := StructTokens(m).value;
      && (!ok ==> !AllFine(ts))
      && (ok && w.overflow && AllFine(ts) ==>
            (OutFine(f, ts, START); |w.want| <= |old(w.want)| + |EncodeAll(Out(f, ts, START))|))
      && (ok && !w.overflow ==> AllFine(ts) && saw == After(f, ts, START).sawChosen)
      && (ok && !w.overflow ==> (OutFine(f, ts, START); w.want == old(w.want) + EncodeAll(Out(f, ts, START))))
  {
    hide Decode, Decode1, Encode, EncodeAll, Next, Written, Out, After, Copied;
    var off, end := Field(m, H_OFF_STRUCT), Field(m, H_OFF_STRUCT) + Field(m, H_SIZE_STRUCT);
    ghost var ts := StructTokens(m).value;
    ghost var done, rest := [], ts;
    var s := START;
    assert done + rest == ts;
    NothingCopied(f, w.want);
    while off < end && !w.overflow
      invariant Reading(m, off, end, rest) && done + rest == ts
      invariant w.Inv() && (old(w.overflow) ==> w.overflow)
      invariant Copied(f, done, s, w.want, old(w.want))
      decreases end - off
    {
      ReadOn(m, off, end, rest);
      var (t, next) := Decode1(m, off).value;
      if t.Fin? { break; }
      if t.Bad? {
        assert ts[|done|] == t;
        TokenKinds(t, ts);
        return false, s.sawChosen;
      }
      DecodedFine(m, off, end);
      CopiedOn(f, done, s, t, w.want, old(w.want));
      s := CopyToken(w, f, t, s);
      done, rest := done + [t], rest[1..];
      off := next;
    }
    ok, saw := true, s.sawChosen;
    if !w.overflow {
      if off >= end { EmptyAtEnd(m, off, end, rest); }
      assert done == ts;
      CopiedAll(f, done, s, w.want, old(w.want));
    } else if AllFine(ts) {
      CopiedPart(f, done, s, rest, w.want, old(w.want));
    }
  }

  lemma CopiedAll(f: Fix, done: seq<Token>, s: State, want: seq<Byte>, was: seq<Byte>)
    requires Copied(f, done, s, want, was)
    ensures AllFine(done) && AllFine(Out(f, done, START)) && s == After(f, done, START)
    ensures want == was + EncodeAll(Out(f, done, START))
  {
  }

  /** The new structure block with its last word, and a /chosen put in where there was none. */
  method WriteStruct(w: WBuf, m: seq<Byte>, f: Fix) returns (ok: bool)
    requires HEADER <= |m| && StructTokens(m).Some? && w.Inv() && |w.want| % 4 == 0
    requires AllFine(ArgsProp(f)) && (f.reg.Some? ==> |f.reg.value| < U32)
    modifies w`pos, w`overflow, w`want, w.base
    ensures w.Inv() && (old(w.overflow) ==> w.overflow)
    ensures var ts := StructTokens(m).value;
      && (!ok ==> !AllFine(ts))
      && (ok && !w.overflow ==> AllFine(ts))
      && (ok && AllFine(ts) ==> (OutFine(f, ts, START); |w.want| <= |old(w.want)| + |Struct(f, ts)|))
      && (ok && !w.overflow ==> (OutFine(f, ts, START); w.want == old(w.want) + Struct(f, ts)))
  {
    hide Encode, EncodeAll, Out, After, Fine, NewChosen, Decode, Put32, Be32, Align4;
    ghost var ts, was := StructTokens(m).value, w.want;
    var start := w.pos;
    var saw;
    ok, saw := CopyTokens(w, m, f);
    if !ok { return; }
    if AllFine(ts) { OutFine(f, ts, START); StructLength(f, ts); }
    if f.args.Some? && !saw && !w.overflow {
      EncodeAligned(Out(f, ts, START));
      ReopenForChosen(w, f, start, was, EncodeAll(Out(f, ts, START)));
    }
    w.Word(END);
  }

  /** Takes back the root's closing, puts in /chosen and closes the root again. */
  method ReopenForChosen(w: WBuf, f: Fix, start: nat, ghost was: seq<Byte>, ghost body: seq<Byte>)
    requires w.Inv() && !w.overflow && w.want == was + body && start == |was| && HEADER <= start
    requires |was| % 4 == 0 && |body| % 4 == 0 && f.args.Some? && AllFine(ArgsProp(f))
    modifies w`pos, w`overflow, w`want, w.base
    ensures w.Inv() && AllFine(NewChosen(f))
    ensures w.want == was +
      if EndsClosed(body) then body[..|body| - 4] + EncodeAll(NewChosen(f)) + Put32(END_NODE) else body
  {
    hide Encode, EncodeAll, Fine, NewChosen, Put32, WBuf.Inv, EndsClosed, AllFine;
    NewChosenFine(f);
    BehindStart(was, body);
    var open := w.Reopen(start);
    if open {
      ClosedIsLong(body);
      WithoutLast(was, body);
      FourLess(|was|, |body|);
      ghost var left := body[..|body| - 4];
      WriteChosen(w, f);
      w.Word(END_NODE);
      Regroup(was, left, EncodeAll(NewChosen(f)), Put32(END_NODE));
    }
  }

  lemma BehindStart(was: seq<Byte>, body: seq<Byte>)
    ensures (was + body)[|was|..] == body
  {
  }

  lemma ClosedIsLong(body: seq<Byte>)
    requires EndsClosed(body)
    ensures 4 <= |body|
  {
  }

  lemma WithoutLast(was: seq<Byte>, body: seq<Byte>)
    requires 4 <= |body|
    ensures (was + body)[..|was + body| - 4] == was + body[..|body| - 4]
  {
  }

  lemma Regroup(a: seq<Byte>, b: seq<Byte>, c: seq<Byte>, d: seq<Byte>)
    ensures a + b + c + d == a + (b + c + d)
  {
  }

  lemma FourLess(a: nat, b: nat)
    requires a % 4 == 0 && b % 4 == 0 && b >= 4
    ensures (a + (b - 4)) % 4 == 0
  {
  }

  lemma StructLength(f: Fix, ts: seq<Token>)
    requires AllFine(Out(f, ts, START)) && AllFine(ArgsProp(f))
    ensures |EncodeAll(Out(f, ts, START))| + 4 <= |Struct(f, ts)|
  {
  }

  method WriteChosen(w: WBuf, f: Fix)
    requires w.Inv() && |w.want| % 4 == 0 && f.args.Some? && AllFine(ArgsProp(f))
    modifies w`pos, w`overflow, w`want, w.base
    ensures w.Inv() && (old(w.overflow) ==> w.overflow)
    ensures AllFine(NewChosen(f)) && w.want == old(w.want) + EncodeAll(NewChosen(f))
  {
    hide Encode, EncodeAll, Fine, AllFine, NewChosen, WBuf.Inv, ArgsProp, Put32;
    ChosenEncodes(f);
    ghost var n, len := |w.want|, |Encode(Begin(CHOSEN))|;
    w.Begin(CHOSEN);
    FourMore(n, len);
    w.Prop(f.argsName, f.args.value);
    w.Word(END_NODE);
  }

  lemma ChosenEncodes(f: Fix)
    requires f.args.Some? && AllFine(ArgsProp(f))
    ensures Fine(Begin(CHOSEN)) && Fine(Prop(f.argsName, f.args.value)) && AllFine(NewChosen(f))
    ensures 0 !in CHOSEN && f.argsName < U32 && |f.args.value| < U32
    ensures |Encode(Begin(CHOSEN))| % 4 == 0
    ensures EncodeAll(NewChosen(f)) ==
      Encode(Begin(CHOSEN)) + Encode(Prop(f.argsName, f.args.value)) + Put32(END_NODE)
  {
    hide Encode, EncodeAll;
    var p := Prop(f.argsName, f.args.value);
    assert p == ArgsProp(f)[0];
    EncodeOne(Begin(CHOSEN));
    EncodeOne(p);
    EndEncodes();
    EncodeConcat([Begin(CHOSEN)], [p]);
    EncodeConcat([Begin(CHOSEN)] + [p], [Token.End]);
  }

  lemma FourMore(a: nat, b: nat)
    requires a % 4 == 0 && b % 4 == 0
    ensures (a + b) % 4 == 0
  {
  }

  method PutWord(a: array<Byte>, p: nat, v: int)
    requires p + 4 <= a.Length && 0 <= v < U32
    modifies a
    ensures a[p..p + 4] == Put32(v)
    ensures forall k | 0 <= k < a.Length && !(p <= k < p + 4) :: a[k] == old(a[k])
  {
    var s := Put32(v);
    a[p], a[p + 1], a[p + 2], a[p + 3] := s[0], s[1], s[2], s[3];
  }

  /** Fills in the header, once all sizes are known. */
  method WriteHeader(out: array<Byte>, cpu: int, structSize: nat, stringsSize: nat, reserved: nat)
    requires HEADER <= out.Length && 0 <= cpu < U32 && HEADER + reserved + structSize + stringsSize < U32
    modifies out
    ensures out[..HEADER] == HeaderBytes(cpu, structSize, stringsSize, reserved)
    ensures out[HEADER..] == old(out[HEADER..])
  {
    hide Put32, Words, Spelled;
    var fields := HeaderFields(cpu, structSize, stringsSize, reserved);
    NoneSpelled(out[..], fields);
    for i := 0 to 10
      invariant Spelled(out[..], fields, i)
      invariant out[HEADER..] == old(out[HEADER..])
    {
      ghost var was := out[..];
      PutWord(out, 4 * i, fields[i]);
      OneSpelled(was, out[..], fields, i);
      assert out[HEADER..] == out[..][HEADER..] && was[HEADER..] == old(out[HEADER..]);
    }
    AllSpelled(out[..], fields);
    assert out[..][..HEADER] == out[..HEADER];
  }

  /** The first `n` fields stand at the start. */
  ghost predicate Spelled(s: seq<Byte>, fields: seq<int>, n: nat) {
    && |fields| == 10 && |s| >= HEADER && n <= 10
    && forall k | 0 <= k < n :: 0 <= fields[k] < U32 && s[4 * k..4 * k + 4] == Put32(fields[k])
  }

  lemma NoneSpelled(s: seq<Byte>, fields: seq<int>)
    requires |fields| == 10 && |s| >= HEADER
    ensures Spelled(s, fields, 0)
  {
  }

  lemma OneSpelled(was: seq<Byte>, s: seq<Byte>, fields: seq<int>, i: nat)
    requires Spelled(was, fields, i) && i < 10 && 0 <= fields[i] < U32 && |s| == |was|
    requires s[..4 * i] == was[..4 * i] && s[4 * i..4 * i + 4] == Put32(fields[i]) && s[4 * i + 4..] == was[4 * i + 4..]
    ensures Spelled(s, fields, i + 1) && s[HEADER..] == was[HEADER..]
  {
    hide Put32;
    forall k | 0 <= k < i
      ensures s[4 * k..4 * k + 4] == Put32(fields[k])
    {
      PartOfStart(s, 4 * i, 4 * k, 4 * k + 4);
      PartOfStart(was, 4 * i, 4 * k, 4 * k + 4);
    }
    assert s[HEADER..] == s[4 * i + 4..][HEADER - 4 * i - 4..] &&
      was[HEADER..] == was[4 * i + 4..][HEADER - 4 * i - 4..];
  }

  lemma AllSpelled(s: seq<Byte>, fields: seq<int>)
    requires Spelled(s, fields, 10)
    ensures s[..HEADER] == Words(fields)
  {
    hide Put32, Words;
    forall k | 0 <= k < 10
      ensures s[..HEADER][4 * k..4 * k + 4] == Put32(fields[k])
    {
      PartOfStart(s, HEADER, 4 * k, 4 * k + 4);
    }
    HeaderIs(s[..HEADER], fields);
  }

  lemma PartOfStart(s: seq<Byte>, n: nat, i: nat, j: nat)
    requires i <= j <= n <= |s|
    ensures s[..n][i..j] == s[i..j]
  {
  }

  lemma HeaderIs(h: seq<Byte>, fields: seq<int>)
    requires |fields| == 10 && |h| == HEADER && forall k | 0 <= k < 10 :: 0 <= fields[k] < U32
    requires forall k | 0 <= k < 10 :: h[4 * k..4 * k + 4] == Put32(fields[k])
    ensures h == Words(fields)
  {
    hide Put32, Words;
    WordsAt(fields, 0);
    var g := Words(fields);
    forall i | 0 <= i < HEADER
      ensures h[i] == g[i]
    {
      var k := i / 4;
      WordsAt(fields, k);
      assert h[i] == h[4 * k..4 * k + 4][i - 4 * k] && g[i] == g[4 * k..4 * k + 4][i - 4 * k];
    }
  }

  /** Copies the tree in `m` to `out` with the fixups made. It fails, and only fails,
      for no fixups, a header that is not valid, a reservation block out of all
      measure, an unknown token, or a new tree that does not fit. */
  method CopyWithFixups(m: seq<Byte>, out: array<Byte>, fix: Option<Fixups>) returns (ok: bool, size: nat)
    requires HEADER <= |m| && (FdtValid(m) ==> Sound(m))
    requires fix.Some? ==> fix.value.Valid()
    requires out.Length < U32 && (fix.Some? && fix.value.bootargs.Some? ==> |fix.value.bootargs.value| + 1 < U32)
    modifies out
    ensures ok <==> fix.Some? && FdtValid(m) && Writable(m, fix.value) && HEADER + |Payload(m, fix.value)| <= out.Length
    ensures ok ==> size <= out.Length && out[..size] == Whole(m, fix.value)
  {
    hide Sound, Readable, Writable, Payload, Whole;
    if fix.None? || !FdtValid(m) { return false, 0; }
    ok, size := CopyValid(m, out, fix.value);
  }

  method CopyValid(m: seq<Byte>, out: array<Byte>, fx: Fixups) returns (ok: bool, size: nat)
    requires HEADER <= |m| && Readable(m) && fx.Valid() && out.Length < U32
    requires fx.bootargs.Some? ==> |fx.bootargs.value| + 1 < U32
    modifies out
    ensures ok <==> Writable(m, fx) && HEADER + |Payload(m, fx)| <= out.Length
    ensures ok ==> size <= out.Length && out[..size] == Whole(m, fx)
  {
    hide Reservations, Payload, Whole, Decode, TheFix, Fine, Be32;
    var r := ReservationLength(m, Field(m, H_OFF_RSVMAP));
    if r.TooLong? { return false, 0; }
    var f := FixFor(m, fx);
    var w := StartBuffer(m, out, r.bytes);
    ok, size := WriteRest(w, m, fx, f, r.bytes);
  }

  /** A buffer with the header left out and the reservation block in it. */
  method StartBuffer(m: seq<Byte>, out: array<Byte>, reserved: nat) returns (w: WBuf)
    requires HEADER <= |m| && Reservations(m, Field(m, H_OFF_RSVMAP), 0) == Length(reserved)
    modifies out
    ensures fresh(w) && w.base == out && w.Inv() && w.want == Zeros(HEADER) + ReservationBytes(m)
  {
    hide Reservations, Be32, Align4;
    var start := Field(m, H_OFF_RSVMAP);
    ReservationsFit(m, start, 0);
    Multiples(reserved);
    w := new WBuf(out);
    w.Pad4();
    w.Bytes(m[start..start + reserved]);
    // The reservation block is a multiple of 16 behind a header of 40, or did not fit
    // at all: the structure block needs nothing to stand at a multiple of 8.
    assert w.pos % 8 == 0;
  }

  lemma Multiples(n: nat)
    requires n % 16 == 0
    ensures HEADER % 4 == 0 && HEADER % 8 == 0 && (HEADER + n) % 8 == 0 && (HEADER + n) % 4 == 0
  {
    var k := n / 16;
    assert n == 16 * k;
    OfEight(5 + 2 * k);
    assert HEADER + n == 8 * (5 + 2 * k);
  }

  lemma OfEight(k: nat)
    ensures 8 * k % 8 == 0 && 8 * k % 4 == 0
  {
  }

  /** The edit to make, looked up in the tree. */
  method FixFor(m: seq<Byte>, fx: Fixups) returns (f: Fix)
    requires HEADER <= |m| && Readable(m) && fx.Valid()
    ensures f == TheFix(m, fx)
  {
    hide Decode, FindString, ReadCells;
    var cells := RootCellsOf(m);
    var name := FindStringAt(m, Field(m, H_OFF_STRINGS), Field(m, H_SIZE_STRINGS), BOOTARGS);
    f := Fix(if fx.bootargs.Some? then Some(fx.bootargs.value + [0]) else None,
             if name.Some? then name.value else Field(m, H_SIZE_STRINGS),
             if fx.memSize != 0 then Some(Reg(fx, cells)) else None,
             Names(m));
  }

  /** Everything behind the reservation block, and then the header. */
  method WriteRest(w: WBuf, m: seq<Byte>, fx: Fixups, f: Fix, reserved: nat) returns (ok: bool, size: nat)
    requires HEADER <= |m| && Readable(m) && fx.Valid() && w.Inv() && w.base.Length < U32
    requires Reservations(m, Field(m, H_OFF_RSVMAP), 0) == Length(reserved) && f == TheFix(m, fx)
    requires fx.bootargs.Some? ==> |fx.bootargs.value| + 1 < U32
    requires w.want == Zeros(HEADER) + ReservationBytes(m)
    modifies w, w.base
    ensures ok <==> Writable(m, fx) && HEADER + |Payload(m, fx)| <= w.base.Length
    ensures ok ==> size <= w.base.Length && w.base[..size] == Whole(m, fx)
  {
    hide Reservations, Decode, FindString, Struct, Out, After, Fine, HeaderBytes, Put32, ReadCells, FdtValid, Written,
         Next, Be32, Align4;
    ghost var head := w.want;
    ReservationsFit(m, Field(m, H_OFF_RSVMAP), 0);
    Multiples(reserved);
    FixFields(m, fx);
    size := 0;
    ok := WriteStruct(w, m, f);
    if AllFine(StructTokens(m).value) { FixFine(m, fx); }
    if !ok || w.overflow { return false, 0; }
    StructLength(f, StructTokens(m).value);
    var structSize := w.pos - HEADER - reserved;
    ok, size := WriteStrings(w, m, fx, structSize, reserved);
  }

  /** The property the fix adds can be written, whatever the rest of the tree is like. */
  lemma FixFields(m: seq<Byte>, fx: Fixups)
    requires HEADER <= |m| && Readable(m) && fx.Valid() && (fx.bootargs.Some? ==> |fx.bootargs.value| + 1 < U32)
    ensures var f := TheFix(m, fx); AllFine(ArgsProp(f)) && (f.reg.Some? ==> |f.reg.value| < U32)
  {
    FoundString(m, Field(m, H_OFF_STRINGS), Field(m, H_SIZE_STRINGS), 0, BOOTARGS);
  }

  /** The old strings, and the one that is new. */
  method PutStrings(w: WBuf, m: seq<Byte>)
    requires HEADER <= |m| && Field(m, H_OFF_STRINGS) + Field(m, H_SIZE_STRINGS) <= |m| && w.Inv()
    modifies w`pos, w`overflow, w`want, w.base
    ensures w.Inv() && w.want == old(w.want) + Strings(m) && (old(w.overflow) ==> w.overflow)
  {
    hide FindString;
    var to := Field(m, H_OFF_STRINGS);
    w.Bytes(m[to..to + Field(m, H_SIZE_STRINGS)]);
    var name := FindStringAt(m, to, Field(m, H_SIZE_STRINGS), BOOTARGS);
    if name.None? {
      w.Bytes(BOOTARGS + [0]);
    }
  }

  /** The strings block and the header: the last two things to be written. */
  method WriteStrings(w: WBuf, m: seq<Byte>, fx: Fixups, structSize: nat, reserved: nat) returns (ok: bool, size: nat)
    requires HEADER <= |m| && Readable(m) && fx.Valid() && Writable(m, fx) && w.Inv() && !w.overflow &&
      w.base.Length < U32
    requires w.want == Zeros(HEADER) + ReservationBytes(m) + NewStruct(m, fx)
    requires 0 < structSize == |NewStruct(m, fx)| && reserved == |ReservationBytes(m)|
    modifies w, w.base
    ensures ok <==> HEADER + |Payload(m, fx)| <= w.base.Length
    ensures ok ==> size <= w.base.Length && w.base[..size] == Whole(m, fx)
  {
    hide NewStruct, ReservationBytes, Strings, HeaderBytes, Readable, Reservations, Decode, Fine, Be32;
    ReadableStrings(m);
    ghost var r, s := ReservationBytes(m), NewStruct(m, fx);
    PutStrings(w, m);
    assert w.want == Zeros(HEADER) + (r + s + Strings(m));
    size := w.pos;
    if w.overflow { return false, 0; }
    ghost var was := w.base[..];
    WriteHeader(w.base, Field(m, H_BOOT_CPUID), structSize, w.pos - HEADER - reserved - structSize, reserved);
    assert w.base[HEADER..size] == w.base[HEADER..][..size - HEADER] == was[HEADER..size] == w.want[HEADER..];
    assert w.base[..size] == w.base[..HEADER] + w.base[HEADER..size];
    ok := true;
  }

  lemma ReadableStrings(m: seq<Byte>)
    requires HEADER <= |m| && Readable(m)
    ensures Field(m, H_OFF_STRINGS) + Field(m, H_SIZE_STRINGS) <= |m|
  {
  }
}
