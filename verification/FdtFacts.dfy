/** What can be read of a device tree without knowing of any edit: its nodes and properties in
    order, each with the path to it; and what of that the copy changes. */
module FdtFacts {
  import opened Optional
  import opened Octets
  import opened FdtTree
  import opened FdtBytes
  import opened FdtCopy

  type Path = seq<seq<Byte>>

  datatype Fact =
    | Node(path: Path)
    | Property(path: Path, name: seq<Byte>, val: seq<Byte>)

  /** The facts that a stream of tokens tells, read from a node at this path on. */
  function Facts(names: nat -> seq<Byte>, ts: seq<Token>, path: Path): seq<Fact>
    decreases |ts|
  {
    if ts == [] then []
    else
      match ts[0]
      case Begin(n) => [Node(path + [n])] + Facts(names, ts[1..], path + [n])
      case End => Facts(names, ts[1..], if path == [] then [] else path[..|path| - 1])
      case Prop(no, v) => [Property(path, names(no), v)] + Facts(names, ts[1..], path)
      case _ => Facts(names, ts[1..], path)
  }

  /** A `reg` in a memory node below the root. */
  predicate IsReg(x: Fact) { x.Property? && |x.path| >= 2 && IsMemory(x.path[1]) && x.name == REG }

  /** Boot arguments in /chosen. */
  predicate IsArgs(x: Fact) { x.Property? && |x.path| >= 2 && x.path[1] == CHOSEN && x.name == BOOTARGS }

  /** All facts, but for the boot arguments if those are given and for the values of memory ranges if
      that is. */
  function Kept(s: seq<Fact>, args: bool, reg: bool): seq<Fact> {
    if s == [] then [] else Kept(s[..|s| - 1], args, reg) + KeptOf(s[|s| - 1], args, reg)
  }

  function KeptOf(x: Fact, args: bool, reg: bool): seq<Fact> {
    if args && IsArgs(x) then [] else if reg && IsReg(x) then [x.(val := [])] else [x]
  }

  function ArgsIn(s: seq<Fact>): seq<Fact> {
    if s == [] then [] else ArgsIn(s[..|s| - 1]) + if IsArgs(s[|s| - 1]) then [s[|s| - 1]] else []
  }

  /** The same of a tree. */
  function FactsOf(names: nat -> seq<Byte>, t: Items, path: Path): seq<Fact> {
    match t
    case Nil => []
    case PropThen(no, v, rest) => [Property(path, names(no), v)] + FactsOf(names, rest, path)
    case NodeThen(n, sub, rest) =>
      [Node(path + [n])] + FactsOf(names, sub, path + [n]) + FactsOf(names, rest, path)
  }

  lemma FlatNil(rest: seq<Token>)
    ensures Flat(Nil) + rest == rest
  {
  }

  lemma FlatProp(no: nat, v: seq<Byte>, more: Items, rest: seq<Token>)
    ensures Flat(PropThen(no, v, more)) + rest == [Prop(no, v)] + (Flat(more) + rest)
  {
  }

  lemma FlatNode(n: seq<Byte>, sub: Items, more: Items, rest: seq<Token>)
    ensures Flat(NodeThen(n, sub, more)) + rest == [Begin(n)] + (Flat(sub) + ([End] + (Flat(more) + rest)))
  {
    var (a, b) := (Flat(sub), Flat(more));
    assert [Begin(n)] + a + [End] + b + rest == [Begin(n)] + (a + ([End] + (b + rest)));
  }

  lemma {:induction false} FactsOfFlat(names: nat -> seq<Byte>, t: Items, rest: seq<Token>, path: Path)
    ensures Facts(names, Flat(t) + rest, path) == FactsOf(names, t, path) + Facts(names, rest, path)
    decreases t
  {
    hide Facts, Flat, FactsOf;
    match t
    case Nil =>
      FlatNil(rest);
      NilFacts(names, path);
    case PropThen(no, v, more) =>
      FlatProp(no, v, more, rest);
      PropStep(names, no, v, more, path);
      FactStep(names, Prop(no, v), Flat(more) + rest, path);
      FactsOfFlat(names, more, rest, path);
    case NodeThen(n, sub, more) =>
      var tail := Flat(more) + rest;
      FlatNode(n, sub, more, rest);
      NodeStep(names, n, sub, more, path);
      FactStep(names, Begin(n), Flat(sub) + ([End] + tail), path);
      FactsOfFlat(names, sub, [End] + tail, path + [n]);
      FactStep(names, End, tail, path + [n]);
      assert (path + [n])[..|path|] == path;
      FactsOfFlat(names, more, rest, path);
  }

  /** What one token tells, and what the tokens behind it do. */
  lemma FactStep(names: nat -> seq<Byte>, t: Token, rest: seq<Token>, path: Path)
    ensures Facts(names, [t] + rest, path) ==
      match t
      case Begin(n) => [Node(path + [n])] + Facts(names, rest, path + [n])
      case End => Facts(names, rest, if path == [] then [] else path[..|path| - 1])
      case Prop(no, v) => [Property(path, names(no), v)] + Facts(names, rest, path)
      case _ => Facts(names, rest, path)
  {
    assert ([t] + rest)[1..] == rest;
  }

  lemma FactsOfTree(names: nat -> seq<Byte>, name: seq<Byte>, t: Items)
    ensures Facts(names, Flat(NodeThen(name, t, Nil)), []) == [Node([name])] + FactsOf(names, t, [name])
  {
    var all := NodeThen(name, t, Nil);
    FactsOfFlat(names, all, [], []);
    assert Flat(all) + [] == Flat(all) && [] + [name] == [name];
    assert FactsOf(names, Nil, []) == [];
  }

  lemma {:induction false} FactsIgnoreNops(names: nat -> seq<Byte>, ts: seq<Token>, path: Path)
    ensures Facts(names, ts, path) == Facts(names, DropNops(ts), path)
    decreases |ts|
  {
    if ts != [] {
      var rest := DropNops(ts[1..]);
      match ts[0]
      case Begin(n) => FactsIgnoreNops(names, ts[1..], path + [n]); assert DropNops(ts)[1..] == rest;
      case End =>
        FactsIgnoreNops(names, ts[1..], if path == [] then [] else path[..|path| - 1]);
        assert DropNops(ts)[1..] == rest;
      case Nop => FactsIgnoreNops(names, ts[1..], path); assert DropNops(ts) == rest;
      case _ => FactsIgnoreNops(names, ts[1..], path); assert DropNops(ts)[1..] == rest;
    }
  }

  // ── Filters over two parts ─────────────────────────────────────────

  lemma KeptLast(s: seq<Fact>, x: Fact, args: bool, reg: bool)
    ensures Kept(s + [x], args, reg) == Kept(s, args, reg) + KeptOf(x, args, reg)
    ensures ArgsIn(s + [x]) == ArgsIn(s) + if IsArgs(x) then [x] else []
  {
    hide KeptOf, IsArgs;
    assert (s + [x])[..|s|] == s;
  }

  lemma LastApart(s: seq<Fact>, t: seq<Fact>)
    requires t != []
    ensures var front, x := t[..|t| - 1], t[|t| - 1]; t == front + [x] && s + t == s + front + [x]
  {
  }

  lemma {:induction false} KeptSum(s: seq<Fact>, t: seq<Fact>, args: bool, reg: bool)
    ensures Kept(s + t, args, reg) == Kept(s, args, reg) + Kept(t, args, reg)
    decreases |t|
  {
    hide Kept, KeptOf;
    if t == [] {
      assert s + t == s;
      NoFacts(args, reg);
    } else {
      var front, x := t[..|t| - 1], t[|t| - 1];
      LastApart(s, t);
      KeptSum(s, front, args, reg);
      KeptLast(s + front, x, args, reg);
      KeptLast(front, x, args, reg);
      var (a, b, c) := (Kept(s, args, reg), Kept(front, args, reg), KeptOf(x, args, reg));
      assert a + b + c == a + (b + c);
    }
  }

  lemma {:induction false} ArgsSum(s: seq<Fact>, t: seq<Fact>)
    ensures ArgsIn(s + t) == ArgsIn(s) + ArgsIn(t)
    decreases |t|
  {
    hide ArgsIn, IsArgs;
    if t == [] {
      assert s + t == s;
      NoFacts(true, true);
    } else {
      var front, x := t[..|t| - 1], t[|t| - 1];
      LastApart(s, t);
      ArgsSum(s, front);
      KeptLast(s + front, x, true, true);
      KeptLast(front, x, true, true);
    }
  }

  lemma KeptOne(x: Fact, args: bool, reg: bool)
    ensures Kept([x], args, reg) == KeptOf(x, args, reg) && ArgsIn([x]) == if IsArgs(x) then [x] else []
  {
    assert [x][..0] == [];
  }

  /** How a first fact and the facts behind it come out. */
  lemma FirstFact(x: Fact, s: seq<Fact>, args: bool, reg: bool)
    ensures Kept([x] + s, args, reg) == Kept([x], args, reg) + Kept(s, args, reg)
    ensures ArgsIn([x] + s) == ArgsIn([x]) + ArgsIn(s)
  {
    KeptSum([x], s, args, reg);
    ArgsSum([x], s);
  }

  // ── What the edit does to the facts ────────────────────────────────

  /** Every memory range among the facts is the one given. */
  ghost predicate RegsAre(s: seq<Fact>, f: Fix) {
    f.reg.Some? ==> forall x | x in s && IsReg(x) :: x.val == f.reg.value
  }

  lemma {:induction false} MemoryFacts(f: Fix, t: Items, path: Path, args: bool)
    requires |path| >= 2 && IsMemory(path[1]) && f.reg.Some?
    ensures var (old', new') := (FactsOf(f.names, t, path), FactsOf(f.names, InMemory(f, t), path));
      Kept(new', args, true) == Kept(old', args, true) && RegsAre(new', f) && ArgsIn(new') == [] == ArgsIn(old')
    decreases t
  {
    hide Kept, ArgsIn, IsMemory;
    assert path[1] != CHOSEN by { ChosenIsNoMemory(); }
    match t
    case Nil => NoFacts(args, true);
    case PropThen(no, v, rest) =>
      MemoryFacts(f, rest, path, args);
      var w := if f.names(no) == REG then f.reg.value else v;
      var (x, y) := (Property(path, f.names(no), v), Property(path, f.names(no), w));
      FirstFact(x, FactsOf(f.names, rest, path), args, true);
      FirstFact(y, FactsOf(f.names, InMemory(f, rest), path), args, true);
      KeptOne(x, args, true);
      KeptOne(y, args, true);
    case NodeThen(n, sub, rest) =>
      MemoryFacts(f, sub, path + [n], args);
      MemoryFacts(f, rest, path, args);
      NodeFacts(f.names, n, sub, rest, path, args, true);
      NodeFacts(f.names, n, InMemory(f, sub), InMemory(f, rest), path, args, true);
  }

  lemma ChosenIsNoMemory()
    ensures !IsMemory(CHOSEN)
  {
  }

  lemma NoFacts(args: bool, reg: bool)
    ensures Kept([], args, reg) == [] && ArgsIn([]) == []
  {
  }

  lemma NodeFacts(names: nat -> seq<Byte>, n: seq<Byte>, sub: Items, rest: Items, path: Path, args: bool, reg: bool)
    ensures var (s, a, b) := (FactsOf(names, NodeThen(n, sub, rest), path), FactsOf(names, sub, path + [n]),
                              FactsOf(names, rest, path));
      && s == [Node(path + [n])] + a + b
      && Kept(s, args, reg) == [Node(path + [n])] + Kept(a, args, reg) + Kept(b, args, reg)
      && ArgsIn(s) == ArgsIn(a) + ArgsIn(b)
  {
    hide Kept, ArgsIn, FactsOf;
    var x := Node(path + [n]);
    NodeStep(names, n, sub, rest, path);
    var (a, b) := (FactsOf(names, sub, path + [n]), FactsOf(names, rest, path));
    KeptSum([x] + a, b, args, reg);
    ArgsSum([x] + a, b);
    FirstFact(x, a, args, reg);
    KeptOne(x, args, reg);
    assert [] + ArgsIn(a) == ArgsIn(a);
  }

  lemma NodeStep(names: nat -> seq<Byte>, n: seq<Byte>, sub: Items, rest: Items, path: Path)
    ensures FactsOf(names, NodeThen(n, sub, rest), path) ==
      [Node(path + [n])] + FactsOf(names, sub, path + [n]) + FactsOf(names, rest, path)
  {
  }

  /** All facts of a node's content lie below it. */
  lemma {:induction false} FactsBelow(names: nat -> seq<Byte>, t: Items, path: Path)
    requires |path| >= 2
    ensures forall x | x in FactsOf(names, t, path) :: |x.path| >= 2 && x.path[1] == path[1]
    decreases t
  {
    match t
    case Nil =>
    case PropThen(no, v, rest) => FactsBelow(names, rest, path);
    case NodeThen(n, sub, rest) =>
      FactsBelow(names, sub, path + [n]);
      FactsBelow(names, rest, path);
  }

  lemma {:induction false} NoArgsIn(s: seq<Fact>)
    requires forall x | x in s :: !IsArgs(x)
    ensures ArgsIn(s) == []
    decreases |s|
  {
    if s != [] {
      assert s[|s| - 1] in s;
      NoArgsIn(s[..|s| - 1]);
    }
  }

  /** What is neither memory nor /chosen stays as it is. */
  lemma OtherFacts(f: Fix, t: Items, path: Path)
    requires |path| >= 2 && !IsMemory(path[1])
    ensures RegsAre(FactsOf(f.names, t, path), f)
    ensures path[1] != CHOSEN ==> ArgsIn(FactsOf(f.names, t, path)) == []
  {
    hide IsMemory, FactsOf;
    FactsBelow(f.names, t, path);
    if path[1] != CHOSEN { NoArgsIn(FactsOf(f.names, t, path)); }
  }

  lemma {:induction false} ChosenFacts(f: Fix, t: Items, path: Path)
    requires |path| >= 2 && path[1] == CHOSEN
    ensures var (old', new') := (FactsOf(f.names, t, path), FactsOf(f.names, InChosen(f, t), path));
      && Kept(new', f.args.Some?, f.reg.Some?) == Kept(old', f.args.Some?, f.reg.Some?)
      && ArgsIn(new') == if f.args.Some? then [] else ArgsIn(old')
    decreases t
  {
    hide Kept, ArgsIn;
    var (a, r) := (f.args.Some?, f.reg.Some?);
    match t
    case Nil => NoFacts(a, r);
    case PropThen(no, v, rest) =>
      ChosenFacts(f, rest, path);
      var x := Property(path, f.names(no), v);
      FirstFact(x, FactsOf(f.names, rest, path), a, r);
      FirstFact(x, FactsOf(f.names, InChosen(f, rest), path), a, r);
      KeptOne(x, a, r);
      var k := Kept(FactsOf(f.names, rest, path), a, r);
      assert [] + k == k;
    case NodeThen(n, sub, rest) =>
      ChosenFacts(f, sub, path + [n]);
      ChosenFacts(f, rest, path);
      NodeFacts(f.names, n, sub, rest, path, a, r);
      NodeFacts(f.names, n, InChosen(f, sub), InChosen(f, rest), path, a, r);
  }

  /** The boot arguments where they are put. */
  function TheArgs(f: Fix, name: seq<Byte>): Fact
    requires f.args.Some?
  {
    Property([name, CHOSEN], BOOTARGS, f.args.value)
  }

  lemma WithArgsFacts(f: Fix, t: Items, name: seq<Byte>, rest: seq<Fact>)
    requires f.args.Some? && f.names(f.argsName) == BOOTARGS && rest == FactsOf(f.names, t, [name, CHOSEN])
    ensures var s := FactsOf(f.names, WithArgs(f, t), [name, CHOSEN]);
      && s == [TheArgs(f, name)] + rest && ArgsIn(s) == [TheArgs(f, name)] + ArgsIn(rest)
      && Kept(s, true, f.reg.Some?) == Kept(rest, true, f.reg.Some?)
  {
    hide Kept, ArgsIn;
    FirstFact(TheArgs(f, name), rest, true, f.reg.Some?);
    KeptOne(TheArgs(f, name), true, f.reg.Some?);
    assert [] + Kept(rest, true, f.reg.Some?) == Kept(rest, true, f.reg.Some?);
  }

  /** The boot arguments of an edited part, `put` telling whether the new ones are put there. */
  ghost predicate ArgsCome(old': seq<Fact>, new': seq<Fact>, f: Fix, name: seq<Byte>, put: bool) {
    ArgsIn(new') == if f.args.None? then ArgsIn(old') else if put then [TheArgs(f, name)] else []
  }

  lemma ChildFacts(f: Fix, n: seq<Byte>, sub: Items, name: seq<Byte>, done: bool)
    requires f.args.Some? ==> f.names(f.argsName) == BOOTARGS
    ensures var (old', new') := (FactsOf(f.names, sub, [name, n]), FactsOf(f.names, Child(f, n, sub, done), [name, n]));
      && Kept(new', f.args.Some?, f.reg.Some?) == Kept(old', f.args.Some?, f.reg.Some?) && RegsAre(new', f)
      && ArgsCome(old', new', f, name, n == CHOSEN && !done)
  {
    hide Kept, ArgsIn, FactsOf, IsMemory, InChosen, InMemory, RegsAre;
    if n == CHOSEN {
      ChosenIsNoMemory();
      var inside := FactsOf(f.names, InChosen(f, sub), [name, n]);
      ChosenFacts(f, sub, [name, n]);
      OtherFacts(f, Child(f, n, sub, done), [name, n]);
      if f.args.Some? && !done {
        WithArgsFacts(f, InChosen(f, sub), name, inside);
        assert [TheArgs(f, name)] + [] == [TheArgs(f, name)];
      }
    } else if f.reg.Some? && IsMemory(n) {
      MemoryFacts(f, sub, [name, n], f.args.Some?);
    } else if IsMemory(n) {
      FactsBelow(f.names, sub, [name, n]);
      NoArgsIn(FactsOf(f.names, sub, [name, n]));
      NothingGiven(f, FactsOf(f.names, sub, [name, n]));
    } else {
      OtherFacts(f, sub, [name, n]);
    }
  }

  lemma NothingGiven(f: Fix, s: seq<Fact>)
    requires f.reg.None?
    ensures RegsAre(s, f)
  {
  }

  lemma {:induction false} RootFacts(f: Fix, t: Items, name: seq<Byte>, done: bool)
    requires f.args.Some? ==> f.names(f.argsName) == BOOTARGS
    ensures var (old', new') := (FactsOf(f.names, t, [name]), FactsOf(f.names, InRoot(f, t, done), [name]));
      && Kept(new', f.args.Some?, f.reg.Some?) == Kept(old', f.args.Some?, f.reg.Some?) && RegsAre(new', f)
      && ArgsCome(old', new', f, name, !done && HasChosen(t))
    decreases t
  {
    hide Kept, ArgsIn, IsMemory, Child, RegsAre;
    var (a, r) := (f.args.Some?, f.reg.Some?);
    match t
    case Nil =>
      NoFacts(a, r);
      assert RegsAre([], f) by { NoRegs(f); }
    case PropThen(no, v, rest) =>
      RootFacts(f, rest, name, done);
      var x := Property([name], f.names(no), v);
      var (s, u) := (FactsOf(f.names, rest, [name]), FactsOf(f.names, InRoot(f, rest, done), [name]));
      FirstFact(x, s, a, r);
      FirstFact(x, u, a, r);
      KeptOne(x, a, r);
      assert [] + ArgsIn(s) == ArgsIn(s) && [] + ArgsIn(u) == ArgsIn(u);
      RegsSum([x], u, f);
    case NodeThen(n, sub, rest) =>
      var path := [name] + [n];
      assert path == [name, n];
      var c, more := Child(f, n, sub, done), InRoot(f, rest, done || n == CHOSEN);
      ChildFacts(f, n, sub, name, done);
      RootFacts(f, rest, name, done || n == CHOSEN);
      NodeFacts(f.names, n, sub, rest, [name], a, r);
      NodeFacts(f.names, n, c, more, [name], a, r);
      RegsSum([Node(path)], FactsOf(f.names, c, path), f);
      RegsSum([Node(path)] + FactsOf(f.names, c, path), FactsOf(f.names, more, [name]), f);
  }

  lemma NoRegs(f: Fix)
    ensures RegsAre([], f)
  {
  }

  lemma RegsSum(s: seq<Fact>, t: seq<Fact>, f: Fix)
    requires (RegsAre(s, f) || (|s| == 1 && !IsReg(s[0]))) && RegsAre(t, f)
    ensures RegsAre(s + t, f)
  {
  }

  lemma {:induction false} AppendFacts(names: nat -> seq<Byte>, t: Items, u: Items, path: Path)
    ensures FactsOf(names, Append(t, u), path) == FactsOf(names, t, path) + FactsOf(names, u, path)
    decreases t
  {
    hide FactsOf;
    match t
    case Nil => NilFacts(names, path);
    case PropThen(no, v, rest) =>
      AppendFacts(names, rest, u, path);
      PropStep(names, no, v, rest, path);
      PropStep(names, no, v, Append(rest, u), path);
    case NodeThen(n, sub, rest) =>
      AppendFacts(names, rest, u, path);
      NodeStep(names, n, sub, rest, path);
      NodeStep(names, n, sub, Append(rest, u), path);
  }

  lemma NilFacts(names: nat -> seq<Byte>, path: Path)
    ensures FactsOf(names, Nil, path) == []
  {
  }

  lemma PropStep(names: nat -> seq<Byte>, no: nat, v: seq<Byte>, rest: Items, path: Path)
    ensures FactsOf(names, PropThen(no, v, rest), path) == [Property(path, names(no), v)] + FactsOf(names, rest, path)
  {
  }

  /** What the whole edit keeps, puts in, and replaces. */
  lemma EditedFacts(f: Fix, name: seq<Byte>, t: Items)
    requires f.args.Some? ==> f.names(f.argsName) == BOOTARGS
    ensures var (a, r) := (f.args.Some?, f.reg.Some?);
      var old' := Facts(f.names, Flat(NodeThen(name, t, Nil)), []);
      var new' := Facts(f.names, Flat(NodeThen(name, Edited(f, t), Nil)), []);
      && Kept(new', a, r) == Kept(old', a, r) + (if a && !HasChosen(t) then [Node([name, CHOSEN])] else [])
      && RegsAre(new', f) && ArgsIn(new') == if a then [TheArgs(f, name)] else ArgsIn(old')
  {
    hide Kept, ArgsIn, FactsOf, Facts, RegsAre, InRoot, Append, HasChosen;
    var (a, r) := (f.args.Some?, f.reg.Some?);
    var root := [name];
    FactsOfTree(f.names, name, t);
    FactsOfTree(f.names, name, Edited(f, t));
    RootFacts(f, t, name, false);
    var (s, m) := (FactsOf(f.names, t, root), FactsOf(f.names, InRoot(f, t, false), root));
    FirstFact(Node(root), s, a, r);
    KeptOne(Node(root), a, r);
    assert [] + ArgsIn(s) == ArgsIn(s);
    if a && !HasChosen(t) {
      var more := NewChosenFacts(f, name, a, r);
      AppendFacts(f.names, InRoot(f, t, false), NodeThen(CHOSEN, WithArgs(f, Nil), Nil), root);
      FirstFact(Node(root), m + more, a, r);
      KeptSum(m, more, a, r);
      ArgsSum(m, more);
      RegsSum(m, more, f);
      RegsSum([Node(root)], m + more, f);
      assert [] + ([] + [TheArgs(f, name)]) == [TheArgs(f, name)];
      assert [Node(root)] + (Kept(s, a, r) + [Node([name, CHOSEN])]) == [Node(root)] + Kept(s, a, r) +
        [Node([name, CHOSEN])];
    } else {
      FirstFact(Node(root), m, a, r);
      RegsSum([Node(root)], m, f);
      assert [] + ArgsIn(m) == ArgsIn(m);
    }
  }

  lemma NewChosenFacts(f: Fix, name: seq<Byte>, a: bool, r: bool) returns (more: seq<Fact>)
    requires f.args.Some? && f.names(f.argsName) == BOOTARGS && a && r == f.reg.Some?
    ensures more == FactsOf(f.names, NodeThen(CHOSEN, WithArgs(f, Nil), Nil), [name])
    ensures Kept(more, a, r) == [Node([name, CHOSEN])] && ArgsIn(more) == [TheArgs(f, name)] && RegsAre(more, f)
  {
    hide Kept, ArgsIn;
    var path := [name] + [CHOSEN];
    assert path == [name, CHOSEN];
    more := [Node(path), TheArgs(f, name)];
    assert FactsOf(f.names, WithArgs(f, Nil), path) == [TheArgs(f, name)];
    assert [Node(path)] + [TheArgs(f, name)] + [] == more;
    FirstFact(Node(path), [TheArgs(f, name)], a, r);
    KeptOne(Node(path), a, r);
    KeptOne(TheArgs(f, name), a, r);
    assert [Node(path)] + [TheArgs(f, name)] == more && [Node(path)] + [] == [Node(path)];
    assert IsArgs(TheArgs(f, name)) && !IsReg(TheArgs(f, name)) by { assert |BOOTARGS| == 8 && |REG| == 3; }
    assert [] + [TheArgs(f, name)] == [TheArgs(f, name)];
    RegsAreNone(more, f);
  }

  lemma RegsAreNone(s: seq<Fact>, f: Fix)
    requires forall x | x in s :: !IsReg(x)
    ensures RegsAre(s, f)
  {
  }

  // ── Names that mean the same ───────────────────────────────────────

  /** Two ways to name properties agree on all names a tree uses. */
  ghost predicate Agree(names: nat -> seq<Byte>, more: nat -> seq<Byte>, t: Items) {
    match t
    case Nil => true
    case PropThen(no, _, rest) => names(no) == more(no) && Agree(names, more, rest)
    case NodeThen(_, sub, rest) => Agree(names, more, sub) && Agree(names, more, rest)
  }

  lemma {:induction false} AgreeFacts(names: nat -> seq<Byte>, more: nat -> seq<Byte>, t: Items, path: Path)
    requires Agree(names, more, t)
    ensures FactsOf(names, t, path) == FactsOf(more, t, path)
    decreases t
  {
    match t
    case Nil =>
    case PropThen(_, _, rest) => AgreeFacts(names, more, rest, path);
    case NodeThen(n, sub, rest) =>
      AgreeFacts(names, more, sub, path + [n]);
      AgreeFacts(names, more, rest, path);
  }

  lemma {:induction false} AgreeInside(f: Fix, more: nat -> seq<Byte>, t: Items)
    requires Agree(f.names, more, t)
    ensures InChosen(f, t) == InChosen(f.(names := more), t) && InMemory(f, t) == InMemory(f.(names := more), t)
    decreases t
  {
    match t
    case Nil =>
    case PropThen(_, _, rest) => AgreeInside(f, more, rest);
    case NodeThen(_, sub, rest) =>
      AgreeInside(f, more, sub);
      AgreeInside(f, more, rest);
  }

  lemma {:induction false} AgreeInRoot(f: Fix, more: nat -> seq<Byte>, t: Items, done: bool)
    requires Agree(f.names, more, t)
    ensures InRoot(f, t, done) == InRoot(f.(names := more), t, done)
    decreases t
  {
    hide IsMemory;
    match t
    case Nil =>
    case PropThen(_, _, rest) => AgreeInRoot(f, more, rest, done);
    case NodeThen(n, sub, rest) =>
      AgreeInside(f, more, sub);
      AgreeInRoot(f, more, rest, done || n == CHOSEN);
  }

  /** Names agree on a tree if they agree below an offset that no property of its tokens reaches. */
  lemma {:induction false} AgreeBelow(names: nat -> seq<Byte>, more: nat -> seq<Byte>, t: Items, size: nat)
    requires NamesWithin(Flat(t), size) && forall no: nat | no < size :: names(no) == more(no)
    ensures Agree(names, more, t)
    decreases t
  {
    var ts := Flat(t);
    match t
    case Nil =>
    case PropThen(no, v, rest) =>
      assert ts[0].Prop?;
      Within(Flat(rest), ts, 1, size);
      AgreeBelow(names, more, rest, size);
    case NodeThen(n, sub, rest) =>
      var (a, b) := (Flat(sub), Flat(rest));
      assert ts == [Begin(n)] + a + [End] + b;
      Within(a, ts, 1, size);
      Within(b, ts, |a| + 2, size);
      AgreeBelow(names, more, sub, size);
      AgreeBelow(names, more, rest, size);
  }

  lemma Within(part: seq<Token>, ts: seq<Token>, at: nat, size: nat)
    requires NamesWithin(ts, size) && at + |part| <= |ts| && ts[at..at + |part|] == part
    ensures NamesWithin(part, size)
  {
    forall i | 0 <= i < |part| && part[i].Prop?
      ensures part[i].nameoff < size
    {
      assert part[i] == ts[at + i];
    }
  }

  lemma {:induction false} NopsWithin(ts: seq<Token>, size: nat)
    requires NamesWithin(ts, size)
    ensures NamesWithin(DropNops(ts), size)
    decreases |ts|
  {
    if ts != [] {
      Within(ts[1..], ts, 1, size);
      NopsWithin(ts[1..], size);
    }
  }

  // ── What the copy tells ────────────────────────────────────────────

  /** The facts of a tree in the flattened form. */
  function Told(m: seq<Byte>): seq<Fact>
    requires HEADER <= |m| && StructTokens(m).Some?
  {
    Facts(Names(m), StructTokens(m).value, [])
  }

  /** Two numbers in as many cells as asked for: the base of the memory and its size, of which one cell
      holds the lower half. */
  predicate SpellsRange(val: seq<Byte>, fx: Fixups, c: CellCounts) {
    var k := if c.addr >= 2 then 8 else 4;
    && |val| == k + (if c.size >= 2 then 8 else 4)
    && ReadNumber(val, 0, c.addr) == (if c.addr >= 2 then fx.memBase else fx.memBase % U32)
    && ReadNumber(val, k, c.size) == (if c.size >= 2 then fx.memSize else fx.memSize % U32)
  }

  /** What a reader finds in the new tree: where a memory size is given, every memory range is the one
      given, as numbers in the cells the root asks for; the boot arguments are the ones given and no
      others; and all else is told as before, in the same order and with the same values. */
  lemma CopyTells(m: seq<Byte>, fx: Fixups, name: seq<Byte>, t: Items)
    requires HEADER <= |m| && Readable(m) && fx.Valid() && Writable(m, fx) && HEADER + |Payload(m, fx)| < U32
    requires DropNops(StructTokens(m).value) == Flat(NodeThen(name, t, Nil))
    ensures var w := Whole(m, fx);
      && StructTokens(w).Some?
      && (fx.memSize != 0 ==> forall x | x in Told(w) && IsReg(x) :: SpellsRange(x.val, fx, CellsOf(w)))
      && (fx.bootargs.Some? ==> ArgsIn(Told(w)) == [Property([name, CHOSEN], BOOTARGS, fx.bootargs.value + [0])])
      && (fx.bootargs.None? ==> ArgsIn(Told(w)) == ArgsIn(Told(m)))
      && Kept(Told(w), fx.bootargs.Some?, fx.memSize != 0) ==
           Kept(Told(m), fx.bootargs.Some?, fx.memSize != 0)
           + if fx.bootargs.Some? && !HasChosen(t) then [Node([name, CHOSEN])] else []
  {
    hide Kept, ArgsIn, Facts, Edited, Flat, HasChosen, Payload, Whole, Writable, Readable, FindArgs, DropNops, Reg,
         RootCells, FdtValid, At, ReservationBytes, StructTokens, Names, ArgsName, CellsOf, NamesWithin, Agree,
         SpellsRange;
    ReadableParts(m, fx);
    var w, f := Whole(m, fx), TheFix(m, fx);
    CopyMeans(m, fx, name, t);
    NamesFit(m, name, t);
    AgreeBelow(Names(m), Names(w), t, Field(m, H_SIZE_STRINGS));
    var g := f.(names := Names(w));
    AgreeEdited(f, Names(w), t);
    EditedFacts(g, name, t);
    FactsIgnoreNops(Names(m), StructTokens(m).value, []);
    AgreeTree(Names(m), Names(w), name, t);
    if fx.memSize != 0 { RangeSpelled(m, fx, name, t); }
  }

  lemma ReadableParts(m: seq<Byte>, fx: Fixups)
    requires HEADER <= |m| && Readable(m) && fx.Valid() && Writable(m, fx) && HEADER + |Payload(m, fx)| < U32
    ensures StructTokens(m).Some? && |Whole(m, fx)| >= HEADER
  {
    hide StructTokens, Payload, BlocksInside, Reservations, NamesWithin;
  }

  /** What is put in spells the range in the cells that the new tree itself asks for. */
  lemma RangeSpelled(m: seq<Byte>, fx: Fixups, name: seq<Byte>, t: Items)
    requires HEADER <= |m| && Readable(m) && fx.Valid() && Writable(m, fx) && HEADER + |Payload(m, fx)| < U32
    requires DropNops(StructTokens(m).value) == Flat(NodeThen(name, t, Nil)) && fx.memSize != 0
    requires |Whole(m, fx)| >= HEADER && StructTokens(m).Some?
    requires StructTokens(Whole(m, fx)) == Some(Flat(NodeThen(name, Edited(TheFix(m, fx), t), Nil)))
    requires Agree(Names(m), Names(Whole(m, fx)), t)
    ensures TheFix(m, fx).reg.Some? && SpellsRange(TheFix(m, fx).reg.value, fx, CellsOf(Whole(m, fx)))
  {
    hide StructTokens, Payload, Whole, Writable, Readable, Names, Edited, Flat, DropNops, ReadCells, RootCells,
         ReadNumber;
    var w := Whole(m, fx);
    RegOfTree(m, fx, name, t);
    CellsKept(Names(m), Names(w), TheFix(m, fx), name, t);
  }

  /** The root asks for as many cells behind the edit as before it. */
  lemma CellsKept(names: nat -> seq<Byte>, more: nat -> seq<Byte>, f: Fix, name: seq<Byte>, t: Items)
    requires Agree(names, more, t)
    ensures ReadCells(more, Flat(NodeThen(name, Edited(f, t), Nil)), 0, DEFAULT_CELLS) == RootCells(names, t,
      DEFAULT_CELLS)
  {
    hide ReadCells, RootCells, Flat, InRoot, Append, Agree;
    var all := Flat(NodeThen(name, Edited(f, t), Nil));
    TreeHasNoNops(name, Edited(f, t));
    CellsOfTree(more, all, name, Edited(f, t));
    CellsOfEdited(names, more, f, t, DEFAULT_CELLS);
  }

  lemma CellsOfEdited(names: nat -> seq<Byte>, more: nat -> seq<Byte>, f: Fix, t: Items, c: CellCounts)
    requires Agree(names, more, t)
    ensures RootCells(more, Edited(f, t), c) == RootCells(names, t, c)
  {
    hide RootCells, InRoot, Append, Agree;
    CellsInRootKept(names, more, f, t, false, Nil, c);
    CellsInRootKept(names, more, f, t, false, NodeThen(CHOSEN, WithArgs(f, Nil), Nil), c);
    AppendNil(InRoot(f, t, false));
  }

  lemma {:induction false} CellsInRootKept(names: nat -> seq<Byte>, more: nat -> seq<Byte>, f: Fix, t: Items,
                                           done: bool, u: Items, c: CellCounts)
    requires Agree(names, more, t) && !u.PropThen?
    ensures RootCells(more, Append(InRoot(f, t, done), u), c) == RootCells(names, t, c)
    decreases t
  {
    hide SetCells, Child;
    match t
    case Nil =>
    case PropThen(no, v, rest) =>
      assert SetCells(more, no, v, c) == SetCells(names, no, v, c) by { SameCells(names, more, no, v, c); }
      CellsInRootKept(names, more, f, rest, done, u, SetCells(names, no, v, c));
    case NodeThen(_, _, _) =>
  }

  lemma SameCells(names: nat -> seq<Byte>, more: nat -> seq<Byte>, no: nat, v: seq<Byte>, c: CellCounts)
    requires names(no) == more(no)
    ensures SetCells(more, no, v, c) == SetCells(names, no, v, c)
  {
  }

  lemma NopStep(t: Token, rest: seq<Token>)
    ensures DropNops([t] + rest) == (if t.Nop? then [] else [t]) + DropNops(rest)
  {
    assert ([t] + rest)[1..] == rest;
  }

  lemma {:induction false} FlatHasNoNops(t: Items, rest: seq<Token>)
    ensures DropNops(Flat(t) + rest) == Flat(t) + DropNops(rest)
    decreases t
  {
    hide DropNops, Flat;
    match t
    case Nil =>
      FlatNil(rest);
      FlatNil(DropNops(rest));
    case PropThen(no, v, more) =>
      FlatProp(no, v, more, rest);
      FlatProp(no, v, more, DropNops(rest));
      NopStep(Prop(no, v), Flat(more) + rest);
      FlatHasNoNops(more, rest);
    case NodeThen(n, sub, more) =>
      var tail := Flat(more) + rest;
      FlatNode(n, sub, more, rest);
      FlatNode(n, sub, more, DropNops(rest));
      NopStep(Begin(n), Flat(sub) + ([End] + tail));
      FlatHasNoNops(sub, [End] + tail);
      NopStep(End, tail);
      FlatHasNoNops(more, rest);
  }

  lemma TreeHasNoNops(name: seq<Byte>, t: Items)
    ensures DropNops(Flat(NodeThen(name, t, Nil))) == Flat(NodeThen(name, t, Nil))
  {
    hide Flat;
    var all := Flat(NodeThen(name, t, Nil));
    FlatHasNoNops(NodeThen(name, t, Nil), []);
    assert all + [] == all && all + DropNops([]) == all;
  }

  lemma AgreeEdited(f: Fix, more: nat -> seq<Byte>, t: Items)
    requires Agree(f.names, more, t)
    ensures Edited(f, t) == Edited(f.(names := more), t)
  {
    hide InRoot, Append, HasChosen;
    AgreeInRoot(f, more, t, false);
  }

  lemma AgreeTree(names: nat -> seq<Byte>, more: nat -> seq<Byte>, name: seq<Byte>, t: Items)
    requires Agree(names, more, t)
    ensures Facts(names, Flat(NodeThen(name, t, Nil)), []) == Facts(more, Flat(NodeThen(name, t, Nil)), [])
  {
    hide Facts, Flat, FactsOf;
    FactsOfTree(names, name, t);
    FactsOfTree(more, name, t);
    AgreeFacts(names, more, t, [name]);
  }

  lemma NamesFit(m: seq<Byte>, name: seq<Byte>, t: Items)
    requires HEADER <= |m| && Readable(m) && DropNops(StructTokens(m).value) == Flat(NodeThen(name, t, Nil))
    ensures NamesWithin(Flat(t), Field(m, H_SIZE_STRINGS))
  {
    hide Flat, DropNops, StructTokens, BlocksInside, Be32, NamesWithin, Reservations;
    NopsWithin(StructTokens(m).value, Field(m, H_SIZE_STRINGS));
    FlatRoot(name, t);
    var all := Flat(NodeThen(name, t, Nil));
    assert all[1..1 + |Flat(t)|] == Flat(t);
    Within(Flat(t), all, 1, Field(m, H_SIZE_STRINGS));
  }
}
