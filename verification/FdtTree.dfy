/** Device trees: the token stream that flattens one, and the edit that the streaming
    rewriter performs on it (Devicetree Specification, section 5.4). */
module FdtTree {
  import opened Optional
  import opened Octets

  /** One token of the structure block. Property names are offsets into the strings block. */
  datatype Token =
    | Begin(name: seq<Byte>)
    | End
    | Prop(nameoff: nat, val: seq<Byte>)
    | Nop
    | Fin
    | Bad(word: int)

  /** What a node holds, in order. */
  datatype Items =
    | Nil
    | PropThen(nameoff: nat, val: seq<Byte>, rest: Items)
    | NodeThen(name: seq<Byte>, sub: Items, rest: Items)

  function Flat(t: Items): seq<Token> {
    match t
    case Nil => []
    case PropThen(no, v, rest) => [Prop(no, v)] + Flat(rest)
    case NodeThen(n, sub, rest) => [Begin(n)] + Flat(sub) + [End] + Flat(rest)
  }

  const CHOSEN: seq<Byte> := [99, 104, 111, 115, 101, 110]
  const BOOTARGS: seq<Byte> := [98, 111, 111, 116, 97, 114, 103, 115]
  const REG: seq<Byte> := [114, 101, 103]
  const MEMORY: seq<Byte> := [109, 101, 109, 111, 114, 121]

  /** "memory", or "memory@" and an address. */
  predicate IsMemory(name: seq<Byte>) {
    name == MEMORY || (|name| >= 7 && name[..6] == MEMORY && name[6] == 64)
  }

  /** What is to be changed: the boot arguments with their name's offset, and the
      memory node's `reg`. `names` tells the name behind an offset. */
  datatype Fix = Fix(args: Option<seq<Byte>>, argsName: nat, reg: Option<seq<Byte>>, names: nat -> seq<Byte>)

  // ── The streaming rewriter ─────────────────────────────────────────

  datatype State = State(depth: int, inChosen: bool, inMemory: bool, wroteArgs: bool, sawChosen: bool)

  const START := State(0, false, false, false, false)

  function ArgsProp(f: Fix): seq<Token> {
    if f.args.Some? then [Prop(f.argsName, f.args.value)] else []
  }

  /** The state after a token. */
  function Next(f: Fix, t: Token, s: State): State {
    match t
    case Begin(n) =>
      var chosen := s.depth + 1 == 2 && n == CHOSEN;
      var inChosen := s.inChosen || chosen;
      State(s.depth + 1, inChosen, s.inMemory || (s.depth + 1 == 2 && f.reg.Some? && IsMemory(n)),
            s.wroteArgs || (inChosen && f.args.Some?), s.sawChosen || chosen)
    case End =>
      s.(depth := s.depth - 1, inChosen := s.inChosen && s.depth != 2, inMemory := s.inMemory && s.depth != 2)
    case _ => s
  }

  /** What is written for a token. */
  function Written(f: Fix, t: Token, s: State): seq<Token> {
    match t
    case Begin(n) =>
      [t] + if (s.inChosen || (s.depth + 1 == 2 && n == CHOSEN)) && !s.wroteArgs then ArgsProp(f) else []
    case Prop(no, v) =>
      if s.inChosen && f.args.Some? && f.names(no) == BOOTARGS then []
      else if s.inMemory && f.reg.Some? && f.names(no) == REG then [Prop(no, f.reg.value)]
      else [t]
    case Nop => []
    case _ => [t]
  }

  /** The state after a run of tokens. */
  function After(f: Fix, ts: seq<Token>, s: State): State
    decreases |ts|
  {
    if ts == [] then s else After(f, ts[1..], Next(f, ts[0], s))
  }

  /** What a run writes. */
  function Out(f: Fix, ts: seq<Token>, s: State): seq<Token>
    decreases |ts|
  {
    if ts == [] then [] else Written(f, ts[0], s) + Out(f, ts[1..], Next(f, ts[0], s))
  }

  lemma {:induction false} RunConcat(f: Fix, a: seq<Token>, b: seq<Token>, s: State)
    ensures After(f, a + b, s) == After(f, b, After(f, a, s))
    ensures Out(f, a + b, s) == Out(f, a, s) + Out(f, b, After(f, a, s))
    decreases |a|
  {
    hide Written, Next;
    if a == [] {
      assert a + b == b;
    } else {
      RunConcat(f, a[1..], b, Next(f, a[0], s));
      assert (a + b)[1..] == a[1..] + b;
    }
  }

  function DropNops(ts: seq<Token>): seq<Token> {
    if ts == [] then [] else (if ts[0].Nop? then [] else [ts[0]]) + DropNops(ts[1..])
  }

  /** No-ops leave no trace. */
  lemma {:induction false} RunIgnoresNops(f: Fix, ts: seq<Token>, s: State)
    ensures Out(f, ts, s) == Out(f, DropNops(ts), s) && After(f, ts, s) == After(f, DropNops(ts), s)
    decreases |ts|
  {
    if ts != [] {
      RunIgnoresNops(f, ts[1..], Next(f, ts[0], s));
      if ts[0].Nop? {
        assert DropNops(ts) == DropNops(ts[1..]);
      } else {
        assert DropNops(ts)[1..] == DropNops(ts[1..]);
      }
    }
  }

  // ── The edit on the tree ───────────────────────────────────────────

  /** Inside /chosen: old boot arguments go, at any depth, when there are new ones. */
  function InChosen(f: Fix, t: Items): Items {
    match t
    case Nil => Nil
    case PropThen(no, v, rest) =>
      if f.args.Some? && f.names(no) == BOOTARGS then InChosen(f, rest) else PropThen(no, v, InChosen(f, rest))
    case NodeThen(n, sub, rest) => NodeThen(n, InChosen(f, sub), InChosen(f, rest))
  }

  /** Inside a memory node: every `reg` is the given one. */
  function InMemory(f: Fix, t: Items): Items {
    match t
    case Nil => Nil
    case PropThen(no, v, rest) =>
      PropThen(no, if f.reg.Some? && f.names(no) == REG then f.reg.value else v, InMemory(f, rest))
    case NodeThen(n, sub, rest) => NodeThen(n, InMemory(f, sub), InMemory(f, rest))
  }

  function WithArgs(f: Fix, t: Items): Items {
    if f.args.Some? then PropThen(f.argsName, f.args.value, t) else t
  }

  /** What becomes of a child of the root. */
  function Child(f: Fix, n: seq<Byte>, sub: Items, done: bool): Items {
    if n == CHOSEN then if done then InChosen(f, sub) else WithArgs(f, InChosen(f, sub))
    else if f.reg.Some? && IsMemory(n) then InMemory(f, sub)
    else sub
  }

  /** What the root holds: the first /chosen gets the new boot arguments as its first property. */
  function InRoot(f: Fix, t: Items, done: bool): Items {
    match t
    case Nil => Nil
    case PropThen(no, v, rest) => PropThen(no, v, InRoot(f, rest, done))
    case NodeThen(n, sub, rest) =>
      NodeThen(n, Child(f, n, sub, done), InRoot(f, rest, done || n == CHOSEN))
  }

  predicate HasChosen(t: Items) {
    match t
    case Nil => false
    case PropThen(_, _, rest) => HasChosen(rest)
    case NodeThen(n, _, rest) => n == CHOSEN || HasChosen(rest)
  }

  function Append(t: Items, u: Items): Items {
    match t
    case Nil => u
    case PropThen(no, v, rest) => PropThen(no, v, Append(rest, u))
    case NodeThen(n, sub, rest) => NodeThen(n, sub, Append(rest, u))
  }

  /** The whole edit: a tree without /chosen gets one, last in the root. */
  function Edited(f: Fix, t: Items): Items {
    var r := InRoot(f, t, false);
    if f.args.Some? && !HasChosen(t) then Append(r, NodeThen(CHOSEN, WithArgs(f, Nil), Nil)) else r
  }

  lemma {:induction false} FlatAppend(t: Items, u: Items)
    ensures Flat(Append(t, u)) == Flat(t) + Flat(u)
  {
    match t
    case Nil =>
    case PropThen(_, _, rest) => FlatAppend(rest, u);
    case NodeThen(_, _, rest) => FlatAppend(rest, u);
  }

  // ── The rewriter performs the edit ─────────────────────────────────

  lemma RunOne(f: Fix, t: Token, s: State)
    ensures Out(f, [t], s) == Written(f, t, s) && After(f, [t], s) == Next(f, t, s)
  {
    assert [t][1..] == [];
  }

  /** A node is its opening, what it holds, its closing, and what comes after. */
  lemma RunNode(f: Fix, n: seq<Byte>, sub: seq<Token>, rest: seq<Token>, s: State)
    ensures
      var s1 := Next(f, Begin(n), s);
      var s3 := Next(f, End, After(f, sub, s1));
      && After(f, [Begin(n)] + sub + [End] + rest, s) == After(f, rest, s3)
      && Out(f, [Begin(n)] + sub + [End] + rest, s) == Written(f, Begin(n), s) + Out(f, sub, s1) + [End] +
        Out(f, rest, s3)
  {
    RunOne(f, Begin(n), s);
    RunOne(f, End, After(f, sub, Next(f, Begin(n), s)));
    RunConcat(f, [Begin(n)], sub, s);
    RunConcat(f, [Begin(n)] + sub, [End], s);
    RunConcat(f, [Begin(n)] + sub + [End], rest, s);
  }

  lemma RunProp(f: Fix, p: Token, rest: seq<Token>, s: State)
    requires p.Prop?
    ensures After(f, [p] + rest, s) == After(f, rest, s)
    ensures Out(f, [p] + rest, s) == Written(f, p, s) + Out(f, rest, s)
  {
    RunOne(f, p, s);
    RunConcat(f, [p], rest, s);
  }

  /** Below the root's children the state only counts depth. */
  lemma {:induction false} RunsInside(f: Fix, t: Items, s: State)
    requires s.depth >= 2 && !(s.inChosen && s.inMemory) && (s.inChosen && f.args.Some? ==> s.wroteArgs)
    ensures After(f, Flat(t), s) == s
    ensures Out(f, Flat(t), s) == Flat(if s.inChosen then InChosen(f, t) else if s.inMemory then InMemory(f, t) else t)
    decreases t
  {
    match t
    case Nil =>
    case PropThen(no, v, rest) =>
      RunsInside(f, rest, s);
      RunProp(f, Prop(no, v), Flat(rest), s);
    case NodeThen(n, sub, rest) =>
      var s1 := s.(depth := s.depth + 1);
      assert Next(f, Begin(n), s) == s1 && Next(f, End, s1) == s;
      RunsInside(f, sub, s1);
      RunsInside(f, rest, s);
      RunNode(f, n, Flat(sub), Flat(rest), s);
      assert Written(f, Begin(n), s) == [Begin(n)];
  }

  /** The state between two children of the root. */
  predicate InBetween(f: Fix, s: State) {
    s.depth == 1 && !s.inChosen && !s.inMemory && s.wroteArgs == (s.sawChosen && f.args.Some?)
  }

  function PastChild(f: Fix, n: seq<Byte>, s: State): State {
    var saw := s.sawChosen || n == CHOSEN;
    s.(sawChosen := saw, wroteArgs := saw && f.args.Some?)
  }

  lemma RunsChild(f: Fix, n: seq<Byte>, sub: Items, s: State)
    requires InBetween(f, s)
    ensures var s1 := Next(f, Begin(n), s); Next(f, End, After(f, Flat(sub), s1)) == PastChild(f, n, s)
    ensures Written(f, Begin(n), s) + Out(f, Flat(sub), Next(f, Begin(n), s)) ==
      [Begin(n)] + Flat(Child(f, n, sub, s.sawChosen))
  {
    hide Out, After, Flat;
    var s1 := Next(f, Begin(n), s);
    RunsInside(f, sub, s1);
    FlatWithArgs(f, InChosen(f, sub));
    var head := if n == CHOSEN && !s.wroteArgs then ArgsProp(f) else [];
    assert Written(f, Begin(n), s) == [Begin(n)] + head;
    assert [Begin(n)] + head + Out(f, Flat(sub), s1) == [Begin(n)] + (head + Out(f, Flat(sub), s1));
    assert head == [] ==> head + Out(f, Flat(sub), s1) == Out(f, Flat(sub), s1);
  }

  lemma FlatWithArgs(f: Fix, t: Items)
    ensures Flat(WithArgs(f, t)) == ArgsProp(f) + Flat(t)
  {
  }

  lemma {:induction false} RunsRoot(f: Fix, t: Items, s: State)
    requires InBetween(f, s)
    ensures var saw := s.sawChosen || HasChosen(t);
      After(f, Flat(t), s) == s.(sawChosen := saw, wroteArgs := saw && f.args.Some?)
    ensures Out(f, Flat(t), s) == Flat(InRoot(f, t, s.sawChosen))
    decreases t
  {
    match t
    case Nil =>
    case PropThen(no, v, rest) =>
      RunsRoot(f, rest, s);
      RunProp(f, Prop(no, v), Flat(rest), s);
    case NodeThen(n, sub, rest) =>
      RunsChild(f, n, sub, s);
      RunsRoot(f, rest, PastChild(f, n, s));
      RunNode(f, n, Flat(sub), Flat(rest), s);
  }

  /** The run over a whole tree. */
  lemma RunsTree(f: Fix, ts: seq<Token>, name: seq<Byte>, t: Items)
    requires DropNops(ts) == Flat(NodeThen(name, t, Nil))
    ensures Out(f, ts, START) == Flat(NodeThen(name, InRoot(f, t, false), Nil))
    ensures After(f, ts, START).sawChosen == HasChosen(t)
  {
    hide InRoot, Out, After;
    var s1 := Next(f, Begin(name), START);
    RunIgnoresNops(f, ts, START);
    RunsRoot(f, t, s1);
    RunNone(f, Next(f, End, After(f, Flat(t), s1)));
    FlatRoot(name, t);
    FlatRoot(name, InRoot(f, t, false));
    RunNode(f, name, Flat(t), [], START);
  }

  lemma RunNone(f: Fix, s: State)
    ensures Out(f, [], s) == [] && After(f, [], s) == s
  {
  }

  lemma FlatRoot(name: seq<Byte>, t: Items)
    ensures Flat(NodeThen(name, t, Nil)) == [Begin(name)] + Flat(t) + [End] + []
    ensures Flat(NodeThen(name, t, Nil))[1..] == Flat(t) + [End]
  {
  }

  // ── Reading the boot arguments ─────────────────────────────────────

  /** The value of the first property called bootargs that is read while in /chosen. */
  function FindArgs(names: nat -> seq<Byte>, ts: seq<Token>, depth: int, inChosen: bool): Option<seq<Byte>>
    decreases |ts|
  {
    if ts == [] then None
    else
      match ts[0]
      case Begin(n) => FindArgs(names, ts[1..], depth + 1, inChosen || (depth + 1 == 2 && n == CHOSEN))
      case End => FindArgs(names, ts[1..], depth - 1, inChosen && depth != 2)
      case Prop(no, v) =>
        if inChosen && names(no) == BOOTARGS && v != [] then Some(v) else FindArgs(names, ts[1..], depth, inChosen)
      case Nop => FindArgs(names, ts[1..], depth, inChosen)
      case _ => None
  }

  /** Outside /chosen nothing is found inside a node below the root. */
  lemma {:induction false} NotFoundInside(names: nat -> seq<Byte>, t: Items, rest: seq<Token>, depth: int)
    requires depth >= 2
    ensures FindArgs(names, Flat(t) + rest, depth, false) == FindArgs(names, rest, depth, false)
    decreases t
  {
    match t
    case Nil => assert Flat(t) + rest == rest;
    case PropThen(no, v, more) =>
      assert (Flat(t) + rest)[1..] == Flat(more) + rest;
      NotFoundInside(names, more, rest, depth);
    case NodeThen(n, sub, more) =>
      var tail := [End] + (Flat(more) + rest);
      assert (Flat(t) + rest)[1..] == Flat(sub) + tail;
      NotFoundInside(names, sub, tail, depth + 1);
      assert tail[1..] == Flat(more) + rest;
      NotFoundInside(names, more, rest, depth);
  }

  /** Where the new arguments were put they are found: as the first property of the first /chosen. */
  lemma {:induction false} FoundInRoot(f: Fix, names: nat -> seq<Byte>, t: Items, u: Items, rest: seq<Token>)
    requires f.args.Some? && f.args.value != [] && names(f.argsName) == BOOTARGS
    requires !HasChosen(t) ==> u == NodeThen(CHOSEN, WithArgs(f, Nil), Nil)
    ensures FindArgs(names, Flat(Append(InRoot(f, t, false), u)) + rest, 1, false) == f.args
    decreases t
  {
    var r := Append(InRoot(f, t, false), u);
    match t
    case Nil => FoundInChosen(f, names, Nil, Flat(Nil) + rest);
      assert Flat(r) + rest == [Begin(CHOSEN)] + Flat(WithArgs(f, Nil)) + [End] + (Flat(Nil) + rest);
    case PropThen(no, v, more) =>
      assert (Flat(r) + rest)[1..] == Flat(Append(InRoot(f, more, false), u)) + rest;
      FoundInRoot(f, names, more, u, rest);
    case NodeThen(n, sub, more) =>
      var c := Child(f, n, sub, false);
      var after := Flat(Append(InRoot(f, more, n == CHOSEN), u)) + rest;
      assert Flat(r) + rest == [Begin(n)] + Flat(c) + [End] + after;
      if n == CHOSEN {
        FoundInChosen(f, names, InChosen(f, sub), after);
      } else {
        assert ([Begin(n)] + Flat(c) + [End] + after)[1..] == Flat(c) + ([End] + after);
        NotFoundInside(names, c, [End] + after, 2);
        assert ([End] + after)[1..] == after;
        FoundInRoot(f, names, more, u, rest);
      }
  }

  lemma FoundInChosen(f: Fix, names: nat -> seq<Byte>, t: Items, after: seq<Token>)
    requires f.args.Some? && f.args.value != [] && names(f.argsName) == BOOTARGS
    ensures FindArgs(names, [Begin(CHOSEN)] + Flat(WithArgs(f, t)) + [End] + after, 1, false) == f.args
  {
    var ts := [Begin(CHOSEN)] + Flat(WithArgs(f, t)) + [End] + after;
    assert ts[1..][0] == Prop(f.argsName, f.args.value);
  }

  /** Reading the edited tree gives back the arguments that were put in. */
  lemma ArgsReadBack(f: Fix, names: nat -> seq<Byte>, name: seq<Byte>, t: Items)
    requires f.args.Some? && f.args.value != [] && names(f.argsName) == BOOTARGS
    ensures FindArgs(names, Flat(NodeThen(name, Edited(f, t), Nil)), 0, false) == f.args
  {
    var u := if HasChosen(t) then Nil else NodeThen(CHOSEN, WithArgs(f, Nil), Nil);
    AppendNil(InRoot(f, t, false));
    FoundInRoot(f, names, t, u, [End]);
    FlatRoot(name, Edited(f, t));
  }

  lemma {:induction false} AppendNil(t: Items)
    ensures Append(t, Nil) == t
  {
    match t
    case Nil =>
    case PropThen(_, _, rest) => AppendNil(rest);
    case NodeThen(_, _, rest) => AppendNil(rest);
  }

  // ── The root's cell counts ─────────────────────────────────────────

  const ADDRESS_CELLS: seq<Byte> := [35, 97, 100, 100, 114, 101, 115, 115, 45, 99, 101, 108, 108, 115]
  const SIZE_CELLS: seq<Byte> := [35, 115, 105, 122, 101, 45, 99, 101, 108, 108, 115]

  datatype CellCounts = CellCounts(addr: int, size: int)

  function SetCells(names: nat -> seq<Byte>, no: nat, v: seq<Byte>, c: CellCounts): CellCounts {
    if |v| != 4 then c
    else if names(no) == ADDRESS_CELLS then c.(addr := Be32(v, 0))
    else if names(no) == SIZE_CELLS then c.(size := Be32(v, 0))
    else c
  }

  /** The counts a reader of the token stream ends with. */
  function ReadCells(names: nat -> seq<Byte>, ts: seq<Token>, depth: int, c: CellCounts): CellCounts
    decreases |ts|
  {
    if ts == [] then c
    else
      match ts[0]
      case Begin(_) => if depth + 1 > 1 then c else ReadCells(names, ts[1..], depth + 1, c)
      case Prop(no, v) => ReadCells(names, ts[1..], depth, if depth == 1 then SetCells(names, no, v, c) else c)
      case Nop => ReadCells(names, ts[1..], depth, c)
      case _ => c
  }

  /** The counts that stand in the root before its first child; the standard's 2 and 1 otherwise. */
  function RootCells(names: nat -> seq<Byte>, t: Items, c: CellCounts): CellCounts {
    match t
    case PropThen(no, v, rest) => RootCells(names, rest, SetCells(names, no, v, c))
    case _ => c
  }

  const DEFAULT_CELLS := CellCounts(2, 1)

  lemma {:induction false} CellsInRoot(names: nat -> seq<Byte>, t: Items, rest: seq<Token>, c: CellCounts)
    requires rest != [] && rest[0] == End
    ensures ReadCells(names, Flat(t) + rest, 1, c) == RootCells(names, t, c)
    decreases t
  {
    match t
    case Nil => assert Flat(t) + rest == rest;
    case PropThen(no, v, more) =>
      assert (Flat(t) + rest)[1..] == Flat(more) + rest;
      CellsInRoot(names, more, rest, SetCells(names, no, v, c));
    case NodeThen(n, sub, more) =>
      assert (Flat(t) + rest)[0] == Begin(n);
  }

  lemma {:induction false} CellsIgnoreNops(names: nat -> seq<Byte>, ts: seq<Token>, depth: int, c: CellCounts)
    ensures ReadCells(names, ts, depth, c) == ReadCells(names, DropNops(ts), depth, c)
    decreases |ts|
  {
    if ts != [] {
      if ts[0].Nop? {
        assert DropNops(ts) == DropNops(ts[1..]);
        CellsIgnoreNops(names, ts[1..], depth, c);
      } else {
        assert DropNops(ts)[1..] == DropNops(ts[1..]);
        match ts[0]
        case Begin(_) => CellsIgnoreNops(names, ts[1..], depth + 1, c);
        case Prop(no, v) => CellsIgnoreNops(names, ts[1..], depth, if depth == 1 then SetCells(names, no, v, c) else c);
        case _ =>
      }
    }
  }

  /** Reading the stream of a tree finds the counts of its root, no-ops or not. */
  lemma CellsOfTree(names: nat -> seq<Byte>, ts: seq<Token>, name: seq<Byte>, t: Items)
    requires DropNops(ts) == Flat(NodeThen(name, t, Nil))
    ensures ReadCells(names, ts, 0, DEFAULT_CELLS) == RootCells(names, t, DEFAULT_CELLS)
  {
    CellsIgnoreNops(names, ts, 0, DEFAULT_CELLS);
    FlatRoot(name, t);
    CellsInRoot(names, t, [End], DEFAULT_CELLS);
  }

  /** A number in as many 32-bit cells as asked for, one or two. */
  function CellBytes(v: int, cells: int): seq<Byte>
    requires 0 <= v < U64
  {
    if cells >= 2 then Put32(v / U32) + Put32(v % U32) else Put32(v % U32)
  }

  /** A reader of one or two cells. */
  function ReadNumber(m: seq<Byte>, p: nat, cells: int): int
    requires p + 8 <= |m| || (cells < 2 && p + 4 <= |m|)
  {
    if cells >= 2 then Be32(m, p) * U32 + Be32(m, p + 4) else Be32(m, p)
  }

  /** The memory range as `reg` spells it is read back whole, or modulo 2^32 where
      the tree gives it one cell only. */
  lemma RegReadsBack(base: int, size: int, c: CellCounts)
    requires 0 <= base < U64 && 0 <= size < U64
    ensures var reg := CellBytes(base, c.addr) + CellBytes(size, c.size); var k := |CellBytes(base, c.addr)|;
      && |reg| == (if c.addr >= 2 then 8 else 4) + (if c.size >= 2 then 8 else 4)
      && ReadNumber(reg, 0, c.addr) == (if c.addr >= 2 then base else base % U32)
      && ReadNumber(reg, k, c.size) == (if c.size >= 2 then size else size % U32)
  {
    var b := CellBytes(base, c.addr);
    var reg := b + CellBytes(size, c.size);
    CellsRead(base, c.addr, reg, 0);
    CellsRead(size, c.size, reg, |b|);
  }

  lemma CellsRead(v: int, cells: int, m: seq<Byte>, p: nat)
    requires 0 <= v < U64 && p + |CellBytes(v, cells)| <= |m| && m[p..p + |CellBytes(v, cells)|] == CellBytes(v, cells)
    ensures ReadNumber(m, p, cells) == if cells >= 2 then v else v % U32
  {
    var b := CellBytes(v, cells);
    if cells >= 2 {
      assert m[p..p + 4] == b[..4] && m[p + 4..p + 8] == b[4..];
      Put32Reads(v / U32, m, p);
      Put32Reads(v % U32, m, p + 4);
    } else {
      Put32Reads(v % U32, m, p);
    }
  }
}
