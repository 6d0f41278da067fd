/** Rewriting a flattened device tree into a buffer of limited size, with new boot
    arguments and the real memory range. */
module FdtCopy {
  import opened Optional
  import opened Octets
  import opened FdtTree
  import opened FdtBytes

  /** What is to be fixed: no boot arguments leaves the old ones, size 0 leaves the memory node. */
  datatype Fixups = Fixups(bootargs: Option<seq<Byte>>, memBase: int, memSize: int) {
    predicate Valid() {
      0 <= memBase < U64 && 0 <= memSize < U64 && (bootargs.Some? ==> 0 !in bootargs.value)
    }
  }

  // ── What a reader needs of the input ───────────────────────────────

  datatype Reserved = Length(bytes: nat) | TooLong | Unreadable

  /** The length of the memory reservation block, from `acc` bytes into it on. */
  function Reservations(m: seq<Byte>, base: nat, acc: nat): Reserved
    decreases 8192 - acc
  {
    var p := base + acc;
    if p + 16 > |m| then Unreadable
    else if Be32(m, p) == 0 && Be32(m, p + 4) == 0 && Be32(m, p + 8) == 0 && Be32(m, p + 12) == 0 then Length(acc + 16)
    else if acc + 16 > 4096 then TooLong
    else Reservations(m, base, acc + 16)
  }

  function StructTokens(m: seq<Byte>): Option<seq<Token>>
    requires HEADER <= |m|
  {
    var so := Field(m, H_OFF_STRUCT);
    Decode(m, so, so + Field(m, H_SIZE_STRUCT))
  }

  function Names(m: seq<Byte>): nat -> seq<Byte>
    requires HEADER <= |m|
  {
    var to := Field(m, H_OFF_STRINGS);
    (no: nat) => CStr(m, to + no)
  }

  /** Names of properties lie in the strings block. */
  ghost predicate NamesWithin(ts: seq<Token>, size: nat) {
    forall i | 0 <= i < |ts| && ts[i].Prop? :: ts[i].nameoff < size
  }

  /** The blocks lie inside the tree and can be read to their ends. */
  ghost predicate Readable(m: seq<Byte>)
    requires HEADER <= |m|
  {
    |m| == Field(m, H_TOTALSIZE) && BlocksInside(m) && ReadsOn(m)
  }

  /** A valid header that means what it says: no sum wraps around, and everything that is read
      ends inside its block. */
  ghost predicate Sound(m: seq<Byte>): (yes: bool)
    requires HEADER <= |m|
    ensures yes ==> FdtValid(m) && Readable(m)
  {
    ValidMeansInside(m);
    FdtValid(m) && !Wraps(m) && |m| == Field(m, H_TOTALSIZE) && ReadsOn(m)
  }

  /** No string, token or reservation goes on behind the block it stands in. */
  ghost predicate ReadsOn(m: seq<Byte>)
    requires HEADER <= |m|
  {
    var to, ts := Field(m, H_OFF_STRINGS), Field(m, H_SIZE_STRINGS);
    && (0 < ts ==> to + ts <= |m| && m[to + ts - 1] == 0)
    && StructTokens(m).Some? && NamesWithin(StructTokens(m).value, ts)
    && !Reservations(m, Field(m, H_OFF_RSVMAP), 0).Unreadable?
  }

  // ── What is written ────────────────────────────────────────────────

  /** The first string of the strings block, from `i` on, that is `name`. */
  function FindString(m: seq<Byte>, to: nat, size: nat, i: nat, name: seq<Byte>): Option<nat>
    decreases size - i
  {
    if i >= size then None
    else
      var s := CStr(m, to + i);
      if s == name then Some(i) else FindString(m, to, size, i + |s| + 1, name)
  }

  function ArgsName(m: seq<Byte>): Option<nat>
    requires HEADER <= |m|
  {
    FindString(m, Field(m, H_OFF_STRINGS), Field(m, H_SIZE_STRINGS), 0, BOOTARGS)
  }

  function CellsOf(m: seq<Byte>): CellCounts
    requires HEADER <= |m| && StructTokens(m).Some?
  {
    ReadCells(Names(m), StructTokens(m).value, 0, DEFAULT_CELLS)
  }

  function Reg(fx: Fixups, c: CellCounts): seq<Byte>
    requires fx.Valid()
  {
    CellBytes(fx.memBase, c.addr) + CellBytes(fx.memSize, c.size)
  }

  /** The edit that the fixups ask for in this tree. */
  function TheFix(m: seq<Byte>, fx: Fixups): Fix
    requires HEADER <= |m| && StructTokens(m).Some? && fx.Valid()
  {
    Fix(if fx.bootargs.Some? then Some(fx.bootargs.value + [0]) else None,
        if ArgsName(m).Some? then ArgsName(m).value else Field(m, H_SIZE_STRINGS),
        if fx.memSize != 0 then Some(Reg(fx, CellsOf(m))) else None,
        Names(m))
  }

  /** The node that is put into a tree without one. */
  function NewChosen(f: Fix): seq<Token> { [Begin(CHOSEN)] + ArgsProp(f) + [End] }

  /** Whether the block ends with a closing word that can be taken back. */
  predicate EndsClosed(b: seq<Byte>) { |b| >= 4 && b[|b| - 4..] == Put32(END_NODE) }

  /** The structure block, its last word included. */
  function Struct(f: Fix, ts: seq<Token>): seq<Byte>
    requires AllFine(Out(f, ts, START)) && AllFine(ArgsProp(f))
  {
    var body := EncodeAll(Out(f, ts, START));
    var fixed := if f.args.Some? && !After(f, ts, START).sawChosen && EndsClosed(body)
                 then body[..|body| - 4] + (NewChosenFine(f); EncodeAll(NewChosen(f))) + Put32(END_NODE)
                 else body;
    fixed + Put32(END)
  }

  function Strings(m: seq<Byte>): seq<Byte>
    requires HEADER <= |m| && Field(m, H_OFF_STRINGS) + Field(m, H_SIZE_STRINGS) <= |m|
  {
    var to := Field(m, H_OFF_STRINGS);
    m[to..to + Field(m, H_SIZE_STRINGS)] + if ArgsName(m).None? then BOOTARGS + [0] else []
  }

  function HeaderBytes(cpu: int, structSize: int, stringsSize: int, reserved: int): seq<Byte>
    requires 0 <= cpu < U32 && 0 <= structSize && 0 <= stringsSize && 0 <= reserved
    requires HEADER + reserved + structSize + stringsSize < U32
    ensures |HeaderBytes(cpu, structSize, stringsSize, reserved)| == HEADER
  {
    WordsAt(HeaderFields(cpu, structSize, stringsSize, reserved), 0);
    Words(HeaderFields(cpu, structSize, stringsSize, reserved))
  }

  /** The header's ten fields, in order. */
  function HeaderFields(cpu: int, structSize: int, stringsSize: int, reserved: int): seq<int> {
    var so := HEADER + reserved;
    [MAGIC, so + structSize + stringsSize, so, so + structSize, HEADER, 17, 16, cpu, stringsSize, structSize]
  }

  function Words(fields: seq<int>): seq<Byte>
    requires forall i | 0 <= i < |fields| :: 0 <= fields[i] < U32
  {
    if fields == [] then [] else Put32(fields[0]) + Words(fields[1..])
  }

  lemma {:induction false} WordsAt(fields: seq<int>, i: nat)
    requires forall i | 0 <= i < |fields| :: 0 <= fields[i] < U32
    ensures |Words(fields)| == 4 * |fields|
    ensures i < |fields| ==> Words(fields)[4 * i..4 * i + 4] == Put32(fields[i])
  {
    hide Put32;
    if fields != [] {
      WordsAt(fields[1..], if i == 0 then 0 else i - 1);
      var w, rest := Words(fields), Words(fields[1..]);
      if 0 < i < |fields| {
        assert w[4 * i..4 * i + 4] == rest[4 * (i - 1)..4 * (i - 1) + 4];
      }
    }
  }

  lemma NewChosenFine(f: Fix)
    requires AllFine(ArgsProp(f))
    ensures AllFine(NewChosen(f))
  {
    var ts := NewChosen(f);
    forall i | 0 <= i < |ts|
      ensures Fine(ts[i])
    {
      assert f.args.Some? ==> Fine(ArgsProp(f)[0]);
    }
  }

  /** Rewriting fine tokens writes fine ones. */
  lemma {:induction false} OutFine(f: Fix, ts: seq<Token>, s: State)
    requires AllFine(ts) && AllFine(ArgsProp(f)) && (f.reg.Some? ==> |f.reg.value| < U32)
    ensures AllFine(Out(f, ts, s))
    decreases |ts|
  {
    if ts != [] {
      OutFine(f, ts[1..], Next(f, ts[0], s));
      WrittenFine(f, ts[0], s);
    }
  }

  lemma WrittenFine(f: Fix, t: Token, s: State)
    requires Fine(t) && AllFine(ArgsProp(f)) && (f.reg.Some? ==> |f.reg.value| < U32)
    ensures AllFine(Written(f, t, s))
  {
  }

  lemma {:induction false} ReservationsFit(m: seq<Byte>, base: nat, acc: nat)
    requires acc % 16 == 0
    ensures var r := Reservations(m, base, acc); r.Length? ==>
      acc < r.bytes && base + r.bytes <= |m| && r.bytes % 16 == 0
    decreases 8192 - acc
  {
    if acc + 16 <= 4096 {
      ReservationsFit(m, base, acc + 16);
    }
  }

  /** The tree can be rewritten: nothing unknown in it, a sane reservation block, and
      arguments that a length field can count. */
  ghost predicate Writable(m: seq<Byte>, fx: Fixups)
    requires HEADER <= |m| && Readable(m) && fx.Valid()
  {
    && Reservations(m, Field(m, H_OFF_RSVMAP), 0).Length? && AllFine(StructTokens(m).value)
    && (fx.bootargs.Some? ==> |fx.bootargs.value| + 1 < U32)
  }

  lemma FixFine(m: seq<Byte>, fx: Fixups)
    requires HEADER <= |m| && Readable(m) && fx.Valid() && Writable(m, fx)
    ensures var f := TheFix(m, fx);
      f.argsName < U32 && AllFine(ArgsProp(f)) && AllFine(Out(f, StructTokens(m).value, START))
    ensures ArgsName(m).Some? ==> ArgsName(m).value < Field(m, H_SIZE_STRINGS)
  {
    FoundString(m, Field(m, H_OFF_STRINGS), Field(m, H_SIZE_STRINGS), 0, BOOTARGS);
    OutFine(TheFix(m, fx), StructTokens(m).value, START);
  }

  lemma {:induction false} FoundString(m: seq<Byte>, to: nat, size: nat, i: nat, name: seq<Byte>)
    ensures var r := FindString(m, to, size, i, name); r.Some? ==> i <= r.value < size && CStr(m, to + r.value) == name
    decreases size - i
  {
    if i < size {
      FoundString(m, to, size, i + |CStr(m, to + i)| + 1, name);
    }
  }

  function ReservationBytes(m: seq<Byte>): seq<Byte>
    requires HEADER <= |m| && Reservations(m, Field(m, H_OFF_RSVMAP), 0).Length?
  {
    var r, n := Field(m, H_OFF_RSVMAP), Reservations(m, Field(m, H_OFF_RSVMAP), 0).bytes;
    ReservationsFit(m, r, 0);
    m[r..r + n]
  }

  function NewStruct(m: seq<Byte>, fx: Fixups): seq<Byte>
    requires HEADER <= |m| && Readable(m) && fx.Valid() && Writable(m, fx)
  {
    FixFine(m, fx);
    Struct(TheFix(m, fx), StructTokens(m).value)
  }

  /** Everything after the header. */
  function Payload(m: seq<Byte>, fx: Fixups): seq<Byte>
    requires HEADER <= |m| && Readable(m) && fx.Valid() && Writable(m, fx)
  {
    ReservationBytes(m) + NewStruct(m, fx) + Strings(m)
  }

  /** The whole new tree. */
  function Whole(m: seq<Byte>, fx: Fixups): seq<Byte>
    requires HEADER <= |m| && Readable(m) && fx.Valid() && Writable(m, fx) && HEADER + |Payload(m, fx)| < U32
  {
    HeaderBytes(Field(m, H_BOOT_CPUID), |NewStruct(m, fx)|, |Strings(m)|, |ReservationBytes(m)|) + Payload(m, fx)
  }

  // ── What the new tree means ────────────────────────────────────────

  lemma HeaderReads(w: seq<Byte>, cpu: int, structSize: int, stringsSize: int, reserved: int)
    requires 0 <= cpu < U32 && 0 <= structSize && 0 <= stringsSize && 0 <= reserved
    requires HEADER + reserved + structSize + stringsSize < U32
    requires HEADER <= |w| && w[..HEADER] == HeaderBytes(cpu, structSize, stringsSize, reserved)
    ensures Field(w, H_MAGIC) == MAGIC && Field(w, H_TOTALSIZE) == HEADER + reserved + structSize + stringsSize
    ensures Field(w, H_OFF_STRUCT) == HEADER + reserved && Field(w, H_OFF_STRINGS) == HEADER + reserved + structSize
    ensures Field(w, H_OFF_RSVMAP) == HEADER && Field(w, H_VERSION) == 17 && Field(w, H_LAST_COMP) == 16
    ensures Field(w, H_BOOT_CPUID) == cpu && Field(w, H_SIZE_STRINGS) == stringsSize &&
      Field(w, H_SIZE_STRUCT) == structSize
  {
    hide Put32, Be32, Words;
    FieldsRead(w, HeaderFields(cpu, structSize, stringsSize, reserved));
  }

  lemma FieldsRead(w: seq<Byte>, fields: seq<int>)
    requires |fields| == 10 && forall i | 0 <= i < 10 :: 0 <= fields[i] < U32
    requires HEADER <= |w| && w[..HEADER] == Words(fields)
    ensures Be32(w, 0) == fields[0] && Be32(w, 4) == fields[1] && Be32(w, 8) == fields[2]
    ensures Be32(w, 12) == fields[3] && Be32(w, 16) == fields[4] && Be32(w, 20) == fields[5]
    ensures Be32(w, 24) == fields[6] && Be32(w, 28) == fields[7] && Be32(w, 32) == fields[8]
    ensures Be32(w, 36) == fields[9]
  {
    hide Put32, Be32, Words;
    forall i | 0 <= i < 10
      ensures Be32(w, 4 * i) == fields[i]
    {
      WordsAt(fields, i);
      assert w[4 * i..4 * i + 4] == w[..HEADER][4 * i..4 * i + 4];
      Put32Reads(fields[i], w, 4 * i);
    }
    assert Be32(w, 4 * 0) == fields[0] && Be32(w, 4 * 1) == fields[1] && Be32(w, 4 * 2) == fields[2];
    assert Be32(w, 4 * 3) == fields[3] && Be32(w, 4 * 4) == fields[4] && Be32(w, 4 * 5) == fields[5];
    assert Be32(w, 4 * 6) == fields[6] && Be32(w, 4 * 7) == fields[7] && Be32(w, 4 * 8) == fields[8];
    assert Be32(w, 4 * 9) == fields[9];
  }

  /** A tree of forty bytes, nothing but a header, that counts as valid: its structure block
      would begin four gigabytes on. */
  lemma StrayHeader()
    ensures var m := Words([MAGIC, HEADER, U32 - 4, HEADER, HEADER, 17, 16, 0, 0, 8]);
      |m| == HEADER && FdtValid(m) && !BlocksInside(m)
  {
    hide Words, Put32, Be32;
    var fields := [MAGIC, HEADER, U32 - 4, HEADER, HEADER, 17, 16, 0, 0, 8];
    var m := Words(fields);
    WordsAt(fields, 0);
    assert m[..HEADER] == m;
    FieldsRead(m, fields);
  }

  /** A string that ends inside a block reads the same wherever the block is moved. */
  lemma {:induction false} StringMoves(m: seq<Byte>, p: nat, w: seq<Byte>, q: nat, k: nat)
    requires p + k < |m| && q + k < |w| && m[p + k] == 0 && m[p..p + k + 1] == w[q..q + k + 1]
    ensures CStr(m, p) == CStr(w, q)
    decreases k
  {
    assert m[p] == m[p..p + k + 1][0] && w[q] == w[q..q + k + 1][0];
    if m[p] != 0 {
      assert m[p + 1..p + k + 1] == m[p..p + k + 1][1..] && w[q + 1..q + k + 1] == w[q..q + k + 1][1..];
      StringMoves(m, p + 1, w, q + 1, k - 1);
    }
  }

  /** With /chosen missing, the new one stands between the root's content and its closing. */
  lemma NewChosenLast(f: Fix, name: seq<Byte>, t: Items)
    requires f.args.Some? && !HasChosen(t)
    ensures var init := [Begin(name)] + Flat(InRoot(f, t, false));
      && Flat(NodeThen(name, InRoot(f, t, false), Nil)) == init + [Token.End]
      && Flat(NodeThen(name, Edited(f, t), Nil)) == init + NewChosen(f) + [Token.End]
  {
    hide InRoot, HasChosen;
    var r, u := InRoot(f, t, false), NodeThen(CHOSEN, WithArgs(f, Nil), Nil);
    FlatAppend(r, u);
    FlatRoot(name, r);
    FlatRoot(name, Edited(f, t));
    ChosenFlat(f);
    assert [Begin(name)] + (Flat(r) + Flat(u)) + [Token.End] == [Begin(name)] + Flat(r) + NewChosen(f) + [Token.End];
  }

  lemma ChosenFlat(f: Fix)
    ensures Flat(NodeThen(CHOSEN, WithArgs(f, Nil), Nil)) == NewChosen(f)
  {
    FlatRoot(CHOSEN, WithArgs(f, Nil));
    assert Flat(WithArgs(f, Nil)) == ArgsProp(f);
  }

  lemma EndEncodes()
    ensures AllFine([Token.End]) && EncodeAll([Token.End]) == Put32(END_NODE)
  {
    EncodeOne(Token.End);
  }

  lemma EncodeClosed(ts: seq<Token>)
    requires AllFine(ts)
    ensures AllFine(ts + [Token.End]) && EncodeAll(ts + [Token.End]) == EncodeAll(ts) + Put32(END_NODE)
  {
    EncodeOne(Token.End);
    EncodeConcat(ts, [Token.End]);
  }

  lemma ClosedBody(b: seq<Byte>)
    ensures var c := b + Put32(END_NODE); EndsClosed(c) && c[..|c| - 4] == b
  {
  }

  /** The structure block of a tree that was well nested is the edited tree's. */
  lemma StructOfTree(f: Fix, ts: seq<Token>, name: seq<Byte>, t: Items)
    requires DropNops(ts) == Flat(NodeThen(name, t, Nil))
    requires AllFine(Out(f, ts, START)) && AllFine(ArgsProp(f))
    ensures var r := Flat(NodeThen(name, Edited(f, t), Nil)); AllFine(r) && Struct(f, ts) == EncodeAll(r) + Put32(END)
  {
    hide Encode, EncodeAll, Fine, Put32, EndsClosed, Flat, InRoot, NewChosen;
    RunsTree(f, ts, name, t);
    if f.args.Some? && !HasChosen(t) {
      NewChosenLast(f, name, t);
      var init := [Begin(name)] + Flat(InRoot(f, t, false));
      FinePrefix(init, [Token.End]);
      NewChosenFine(f);
      EncodeClosed(init);
      ClosedBody(EncodeAll(init));
      EncodeConcat(init, NewChosen(f));
      EncodeClosed(init + NewChosen(f));
    }
  }

  lemma FinePrefix(a: seq<Token>, b: seq<Token>)
    requires AllFine(a + b)
    ensures AllFine(a)
  {
    assert forall i | 0 <= i < |a| :: (a + b)[i] == a[i];
  }

  /** A tree whose header says that a reservation block `r`, a structure block `s` and
      a strings block `x` stand in it one after the other. */
  ghost predicate Laid(w: seq<Byte>, r: seq<Byte>, s: seq<Byte>, x: seq<Byte>) {
    && |w| == HEADER + |r| + |s| + |x| && Field(w, H_TOTALSIZE) == |w|
    && Field(w, H_OFF_RSVMAP) == HEADER && At(w, HEADER, r)
    && Field(w, H_OFF_STRUCT) == HEADER + |r| && Field(w, H_SIZE_STRUCT) == |s| && At(w, HEADER + |r|, s)
    && Field(w, H_OFF_STRINGS) == HEADER + |r| + |s| && Field(w, H_SIZE_STRINGS) == |x| && At(w, HEADER + |r| + |s|, x)
  }

  lemma Lays(w: seq<Byte>, cpu: int, r: seq<Byte>, s: seq<Byte>, x: seq<Byte>)
    requires 0 <= cpu < U32 && HEADER + |r| + |s| + |x| < U32
    requires w == HeaderBytes(cpu, |s|, |x|, |r|) + (r + s + x)
    ensures Laid(w, r, s, x) && (FdtValid(w) <==> |w| <= MAX_TOTAL)
  {
    hide HeaderBytes, Be32;
    assert w[..HEADER] == HeaderBytes(cpu, |s|, |x|, |r|);
    HeaderReads(w, cpu, |s|, |x|, |r|);
  }

  /** A name keeps its meaning when more is put behind the strings block. */
  lemma NameKept(m: seq<Byte>, to: nat, size: nat, w: seq<Byte>, to': nat, more: seq<Byte>, no: nat)
    requires no < size && to + size <= |m| && m[to + size - 1] == 0
    requires At(w, to', m[to..to + size] + more)
    ensures CStr(w, to' + no) == CStr(m, to + no)
  {
    AtParts(w, to', m[to..to + size], more);
    assert w[to' + no..to' + size] == w[to'..to' + size][no..];
    assert m[to + no..to + size] == m[to..to + size][no..];
    StringMoves(m, to + no, w, to' + no, size - 1 - no);
  }

  /** A string put behind the strings block is found at its old size. */
  lemma NameAdded(w: seq<Byte>, to': nat, block: seq<Byte>, name: seq<Byte>)
    requires 0 !in name && At(w, to', block + (name + [0]))
    ensures CStr(w, to' + |block|) == name
  {
    AtParts(w, to', block, name + [0]);
    AtParts(w, to' + |block|, name, [0]);
    var e := to' + |block| + |name|;
    assert w[e] == w[e..e + 1][0];
    CStrReads(w, to' + |block|, name);
  }

  /** What every name of the new tree means. */
  lemma NamesOfCopy(m: seq<Byte>, w: seq<Byte>, r: seq<Byte>, s: seq<Byte>)
    requires HEADER <= |m| && Readable(m) && Laid(w, r, s, Strings(m))
    ensures forall no: nat | no < Field(m, H_SIZE_STRINGS) :: Names(w)(no) == Names(m)(no)
    ensures Names(w)(if ArgsName(m).Some? then ArgsName(m).value else Field(m, H_SIZE_STRINGS)) == BOOTARGS
  {
    hide FindString, CStr, Decode, Reservations, Be32, HeaderBytes, FdtValid;
    var to, size, to' := Field(m, H_OFF_STRINGS), Field(m, H_SIZE_STRINGS), Field(w, H_OFF_STRINGS);
    var more := if ArgsName(m).None? then BOOTARGS + [0] else [];
    forall no: nat | no < size
      ensures Names(w)(no) == Names(m)(no)
    {
      NameKept(m, to, size, w, to', more, no);
    }
    FoundString(m, to, size, 0, BOOTARGS);
    if ArgsName(m).None? {
      NameAdded(w, to', m[to..to + size], BOOTARGS);
    }
  }

  /** The new tree reads as the old one, edited: its structure block holds the edited
      tree, every property keeps its name, and the arguments that were put in are the
      ones a kernel finds. It counts as valid unless it has grown past what counts as such. */
  lemma CopyMeans(m: seq<Byte>, fx: Fixups, name: seq<Byte>, t: Items)
    requires HEADER <= |m| && Readable(m) && fx.Valid() && Writable(m, fx) && HEADER + |Payload(m, fx)| < U32
    requires DropNops(StructTokens(m).value) == Flat(NodeThen(name, t, Nil))
    ensures var w := Whole(m, fx); var f := TheFix(m, fx);
      && StructTokens(w) == Some(Flat(NodeThen(name, Edited(f, t), Nil)))
      && (forall no: nat | no < Field(m, H_SIZE_STRINGS) :: Names(w)(no) == Names(m)(no))
      && Names(w)(f.argsName) == BOOTARGS
      && (FdtValid(w) <==> |w| <= MAX_TOTAL)
      && (fx.bootargs.Some? ==> FindArgs(Names(w), StructTokens(w).value, 0, false) == Some(fx.bootargs.value + [0]))
      && At(w, Field(w, H_OFF_RSVMAP), ReservationBytes(m))
  {
    hide Encode, EncodeAll, Fine, Put32, Struct, Strings, HeaderBytes, FindArgs, Edited, Flat, DropNops, Reservations,
         Decode, Decode1, FdtValid, ReservationBytes, CellsOf, FindString;
    var w, f := Whole(m, fx), TheFix(m, fx);
    var r, s, x := ReservationBytes(m), NewStruct(m, fx), Strings(m);
    Lays(w, Field(m, H_BOOT_CPUID), r, s, x);
    FixFine(m, fx);
    StructOfTree(f, StructTokens(m).value, name, t);
    DecodeReads(w, HEADER + |r|, Flat(NodeThen(name, Edited(f, t), Nil)));
    NamesOfCopy(m, w, r, s);
    if fx.bootargs.Some? {
      ArgsReadBack(f, Names(w), name, t);
    }
  }

  /** The `reg` that is put in spells the memory range in the cells the root asks for. */
  lemma RegOfTree(m: seq<Byte>, fx: Fixups, name: seq<Byte>, t: Items)
    requires HEADER <= |m| && Readable(m) && fx.Valid() && fx.memSize != 0
    requires DropNops(StructTokens(m).value) == Flat(NodeThen(name, t, Nil))
    ensures var c := RootCells(Names(m), t, DEFAULT_CELLS); TheFix(m, fx).reg == Some(Reg(fx, c))
    ensures var c := RootCells(Names(m), t, DEFAULT_CELLS); var reg := Reg(fx, c);
      var k := |CellBytes(fx.memBase, c.addr)|;
      && |reg| == k + |CellBytes(fx.memSize, c.size)|
      && ReadNumber(reg, 0, c.addr) == (if c.addr >= 2 then fx.memBase else fx.memBase % U32)
      && ReadNumber(reg, k, c.size) == (if c.size >= 2 then fx.memSize else fx.memSize % U32)
  {
    hide Decode, ReadNumber;
    CellsOfTree(Names(m), StructTokens(m).value, name, t);
    RegReadsBack(fx.memBase, fx.memSize, RootCells(Names(m), t, DEFAULT_CELLS));
  }
}
