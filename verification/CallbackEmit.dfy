/** The code the substituter emits around a call, and what it does to memory: `emitInit` wraps every
    callback slot of a tree before the call, `emitFini` restores them after it. */
module CallbackEmit {
  import opened TypeGraph
  import opened CallbackTree
  import opened CallbackStubs
  import opened Decimals

  /** A node of the tree: the member names leading to it. It names the emitted pointer variable
      `p_PATH`, and a callback's path names its CallbackContext. */
  type Path = seq<string>

  /** Emitted statements. `NavChild` declares `p_<base><member>` and, when it is by value or not null,
      runs `body`; the other two call init or fini on one callback member. */
  datatype Code =
    | Done
    | NavChild(base: Path, member: string, byValue: bool, body: Code, next: Code)
    | CallInit(base: Path, member: string, callee: CType, next: Code)
    | CallFini(base: Path, member: string, next: Code)

  function EmitInit(m: Members, base: Path): Code {
    EmitInitChildren(m.children, base, EmitInits(m.callbacks, base))
  }

  function EmitInitChildren(children: Children, base: Path, tail: Code): Code {
    match children
    case NoChild => tail
    case Child(name, tree, rest) =>
      NavChild(base, name, tree.reach.ByValue?, EmitInit(tree.members, base + [name]), EmitInitChildren(rest, base, tail))
  }

  function EmitInits(callbacks: seq<(string, CType)>, base: Path): Code {
    if callbacks == [] then Done
    else CallInit(base, callbacks[0].0, callbacks[0].1, EmitInits(callbacks[1..], base))
  }

  function EmitFini(m: Members, base: Path): Code {
    EmitFiniChildren(m.children, base, EmitFinis(m.callbacks, base))
  }

  function EmitFiniChildren(children: Children, base: Path, tail: Code): Code {
    match children
    case NoChild => tail
    case Child(name, tree, rest) =>
      NavChild(base, name, tree.reach.ByValue?, EmitFini(tree.members, base + [name]), EmitFiniChildren(rest, base, tail))
  }

  function EmitFinis(callbacks: seq<(string, CType)>, base: Path): Code {
    if callbacks == [] then Done
    else CallFini(base, callbacks[0].0, EmitFinis(callbacks[1..], base))
  }

  // ----- running emitted code -----

  type Loc = int
  const NullLoc: Loc := 0

  /** Memory as the emitted code sees it: function-pointer members and object-pointer members by
      address; anything not listed is null. */
  datatype Memory = Memory(code: map<Loc, Pointer>, data: map<Loc, Loc>)

  function ReadCode(code: map<Loc, Pointer>, a: Loc): Pointer { if a in code then code[a] else Null }
  function ReadData(data: map<Loc, Loc>, a: Loc): Loc { if a in data then data[a] else NullLoc }

  /** A slot holds what was written last, and null before. */
  lemma MemoryReads(code: map<Loc, Pointer>, data: map<Loc, Loc>, a: Loc, b: Loc, p: Pointer, q: Loc)
    ensures ReadCode(map[], b) == Null && ReadCode(code[a := p], b) == if a == b then p else ReadCode(code, b)
    ensures ReadData(map[], b) == 0 && ReadData(data[a := q], b) == if a == b then q else ReadData(data, b)
  {
  }

  /** CallbackContext: a default-constructed one has a null `original`. */
  datatype Context = Context(slot: Loc, original: Pointer)

  datatype Machine = Machine(mem: Memory, stubs: Stubs, contexts: map<Path, Context>)

  /** What is fixed during one call: where members lie, which side runs, and isHostAddress. */
  datatype Side = Side(memberAddress: (Loc, string) -> Loc, guestCallback: bool, isHost: Pointer -> bool)

  function RunInit(side: Side, m: Machine, path: Path, slot: Loc, callee: CType): Machine {
    var (stubs, now, org) := InitSlot(m.stubs, side.isHost, Handler(callee, side.guestCallback), ReadCode(m.mem.code, slot));
    Machine(m.mem.(code := m.mem.code[slot := now]), stubs,
            m.contexts[path := match org case None => Context(NullLoc, Null) case Some(p) => Context(slot, p)])
  }

  function RunFini(m: Machine, path: Path): Machine {
    var c := if path in m.contexts then m.contexts[path] else Context(NullLoc, Null);
    if c.original != Null then m.(mem := m.mem.(code := m.mem.code[c.slot := c.original])) else m
  }

  /** Runs emitted code; `vars` gives the value of each pointer variable in scope. */
  function Exec(side: Side, c: Code, vars: map<Path, Loc>, m: Machine): Machine
    decreases c
  {
    match c
    case Done => m
    case NavChild(base, member, byValue, body, next) =>
      var at := side.memberAddress(if base in vars then vars[base] else NullLoc, member);
      var p := if byValue then at else ReadData(m.mem.data, at);
      Exec(side, next, vars, if byValue || p != NullLoc then Exec(side, body, vars[base + [member] := p], m) else m)
    case CallInit(base, member, callee, next) =>
      var at := side.memberAddress(if base in vars then vars[base] else NullLoc, member);
      Exec(side, next, vars, RunInit(side, m, base + [member], at, callee))
    case CallFini(base, member, next) => Exec(side, next, vars, RunFini(m, base + [member]))
  }

  // ----- the slots a tree designates -----

  /** One callback reached at run time: its context, the address of its slot, its callee type. */
  datatype Target = Target(path: Path, slot: Loc, callee: CType)

  /** Follows the object pointers in `data` from the node at `obj`; null pointers cut the walk. */
  function Targets(side: Side, m: Members, base: Path, obj: Loc, data: map<Loc, Loc>): seq<Target>
    decreases m
  {
    ChildTargets(side, m.children, base, obj, data) + CallbackTargets(side, m.callbacks, base, obj)
  }

  function ChildTargets(side: Side, children: Children, base: Path, obj: Loc, data: map<Loc, Loc>): seq<Target>
    decreases children
  {
    match children
    case NoChild => []
    case Child(name, tree, rest) =>
      var at := side.memberAddress(obj, name);
      var p := if tree.reach.ByValue? then at else ReadData(data, at);
      (if tree.reach.ByValue? || p != NullLoc then Targets(side, tree.members, base + [name], p, data) else [])
        + ChildTargets(side, rest, base, obj, data)
  }

  function CallbackTargets(side: Side, callbacks: seq<(string, CType)>, base: Path, obj: Loc): seq<Target> {
    if callbacks == [] then []
    else [Target(base + [callbacks[0].0], side.memberAddress(obj, callbacks[0].0), callbacks[0].1)]
           + CallbackTargets(side, callbacks[1..], base, obj)
  }

  function InitAll(side: Side, m: Machine, ts: seq<Target>): Machine
    decreases |ts|
  {
    if ts == [] then m else InitAll(side, RunInit(side, m, ts[0].path, ts[0].slot, ts[0].callee), ts[1..])
  }

  function FiniAll(m: Machine, ts: seq<Target>): Machine
    decreases |ts|
  {
    if ts == [] then m else FiniAll(RunFini(m, ts[0].path), ts[1..])
  }

  lemma {:induction false} InitAllAppends(side: Side, m: Machine, a: seq<Target>, b: seq<Target>)
    ensures InitAll(side, m, a + b) == InitAll(side, InitAll(side, m, a), b)
    ensures InitAll(side, m, a).mem.data == m.mem.data
    decreases |a|
  {
    if a == [] {
      assert a + b == b;
    } else {
      assert (a + b)[1..] == a[1..] + b;
      InitAllAppends(side, RunInit(side, m, a[0].path, a[0].slot, a[0].callee), a[1..], b);
    }
  }

  lemma {:induction false} FiniAllAppends(m: Machine, a: seq<Target>, b: seq<Target>)
    ensures FiniAll(m, a + b) == FiniAll(FiniAll(m, a), b)
    ensures FiniAll(m, a).mem.data == m.mem.data
    decreases |a|
  {
    if a == [] {
      assert a + b == b;
    } else {
      assert (a + b)[1..] == a[1..] + b;
      FiniAllAppends(RunFini(m, a[0].path), a[1..], b);
    }
  }

  /** The emitted init is exactly one init per target, in order, in the memory it finds. */
  lemma {:induction false} ExecInitHitsTargets(side: Side, ms: Members, base: Path, obj: Loc, vars: map<Path, Loc>, m: Machine)
    requires base in vars && vars[base] == obj
    ensures Exec(side, EmitInit(ms, base), vars, m) == InitAll(side, m, Targets(side, ms, base, obj, m.mem.data))
    decreases ms
  {
    var cs := ChildTargets(side, ms.children, base, obj, m.mem.data);
    ExecInitChildren(side, ms.children, base, obj, EmitInits(ms.callbacks, base), vars, m);
    ExecInits(side, ms.callbacks, base, obj, vars, InitAll(side, m, cs));
    InitAllAppends(side, m, cs, CallbackTargets(side, ms.callbacks, base, obj));
  }

  lemma {:induction false} ExecInitChildren(side: Side, children: Children, base: Path, obj: Loc, tail: Code, vars: map<Path, Loc>, m: Machine)
    requires base in vars && vars[base] == obj
    ensures Exec(side, EmitInitChildren(children, base, tail), vars, m)
            == Exec(side, tail, vars, InitAll(side, m, ChildTargets(side, children, base, obj, m.mem.data)))
    decreases children
  {
    if children.Child? {
      var at := side.memberAddress(obj, children.name);
      var p := if children.tree.reach.ByValue? then at else ReadData(m.mem.data, at);
      var path := base + [children.name];
      var here: seq<Target> := if children.tree.reach.ByValue? || p != NullLoc then Targets(side, children.tree.members, path, p, m.mem.data) else [];
      if children.tree.reach.ByValue? || p != NullLoc {
        ExecInitHitsTargets(side, children.tree.members, path, p, vars[path := p], m);
      }
      InitAllAppends(side, m, here, ChildTargets(side, children.rest, base, obj, m.mem.data));
      ExecInitChildren(side, children.rest, base, obj, tail, vars, InitAll(side, m, here));
    }
  }

  lemma {:induction false} ExecInits(side: Side, callbacks: seq<(string, CType)>, base: Path, obj: Loc, vars: map<Path, Loc>, m: Machine)
    requires base in vars && vars[base] == obj
    ensures Exec(side, EmitInits(callbacks, base), vars, m) == InitAll(side, m, CallbackTargets(side, callbacks, base, obj))
    decreases |callbacks|
  {
    if callbacks != [] {
      var ts := CallbackTargets(side, callbacks, base, obj);
      assert ts[1..] == CallbackTargets(side, callbacks[1..], base, obj);
      ExecInits(side, callbacks[1..], base, obj, vars, RunInit(side, m, ts[0].path, ts[0].slot, ts[0].callee));
    }
  }

  /** The same of the emitted fini, which navigates afresh in the memory the call left. */
  lemma {:induction false} ExecFiniHitsTargets(side: Side, ms: Members, base: Path, obj: Loc, vars: map<Path, Loc>, m: Machine)
    requires base in vars && vars[base] == obj
    ensures Exec(side, EmitFini(ms, base), vars, m) == FiniAll(m, Targets(side, ms, base, obj, m.mem.data))
    decreases ms
  {
    var cs := ChildTargets(side, ms.children, base, obj, m.mem.data);
    ExecFiniChildren(side, ms.children, base, obj, EmitFinis(ms.callbacks, base), vars, m);
    ExecFinis(side, ms.callbacks, base, obj, vars, FiniAll(m, cs));
    FiniAllAppends(m, cs, CallbackTargets(side, ms.callbacks, base, obj));
  }

  lemma {:induction false} ExecFiniChildren(side: Side, children: Children, base: Path, obj: Loc, tail: Code, vars: map<Path, Loc>, m: Machine)
    requires base in vars && vars[base] == obj
    ensures Exec(side, EmitFiniChildren(children, base, tail), vars, m)
            == Exec(side, tail, vars, FiniAll(m, ChildTargets(side, children, base, obj, m.mem.data)))
    decreases children
  {
    if children.Child? {
      var at := side.memberAddress(obj, children.name);
      var p := if children.tree.reach.ByValue? then at else ReadData(m.mem.data, at);
      var path := base + [children.name];
      var here: seq<Target> := if children.tree.reach.ByValue? || p != NullLoc then Targets(side, children.tree.members, path, p, m.mem.data) else [];
      if children.tree.reach.ByValue? || p != NullLoc {
        ExecFiniHitsTargets(side, children.tree.members, path, p, vars[path := p], m);
      }
      FiniAllAppends(m, here, ChildTargets(side, children.rest, base, obj, m.mem.data));
      ExecFiniChildren(side, children.rest, base, obj, tail, vars, FiniAll(m, here));
    }
  }

  lemma {:induction false} ExecFinis(side: Side, callbacks: seq<(string, CType)>, base: Path, obj: Loc, vars: map<Path, Loc>, m: Machine)
    requires base in vars && vars[base] == obj
    ensures Exec(side, EmitFinis(callbacks, base), vars, m) == FiniAll(m, CallbackTargets(side, callbacks, base, obj))
    decreases |callbacks|
  {
    if callbacks != [] {
      var ts := CallbackTargets(side, callbacks, base, obj);
      assert ts[1..] == CallbackTargets(side, callbacks[1..], base, obj);
      ExecFinis(side, callbacks[1..], base, obj, vars, RunFini(m, ts[0].path));
    }
  }

  // ----- wrapping and restoring -----

  ghost predicate DistinctPaths(ts: seq<Target>) {
    forall i, j | 0 <= i < j < |ts| :: ts[i].path != ts[j].path
  }

  ghost predicate DistinctSlots(ts: seq<Target>) {
    forall i, j | 0 <= i < j < |ts| :: ts[i].slot != ts[j].slot
  }

  ghost predicate HasSlot(ts: seq<Target>, a: Loc) {
    exists i | 0 <= i < |ts| :: ts[i].slot == a
  }

  /** Every function pointer in memory is one a program can hold. */
  ghost predicate Settled(m: Machine) {
    Sound(m.stubs) && forall a: Loc :: Known(m.stubs, ReadCode(m.mem.code, a))
  }

  ghost function Origin(m: Machine, a: Loc): Pointer { Unwrap(m.stubs, ReadCode(m.mem.code, a)) }

  function ContextOf(m: Machine, path: Path): Context {
    if path in m.contexts then m.contexts[path] else Context(NullLoc, Null)
  }

  /** t follows s by wrapping only: the same code behind every pointer, larger tables. */
  ghost predicate SameOrigins(s: Machine, t: Machine) {
    Grows(s.stubs, t.stubs) && t.mem.data == s.mem.data && forall a: Loc :: Origin(t, a) == Origin(s, a)
  }

  /** What one init does to target t. */
  ghost predicate InitStep(side: Side, m: Machine, r: Machine, t: Target) {
    var was, c := ReadCode(m.mem.code, t.slot), ContextOf(r, t.path);
    && Settled(r) && SameOrigins(m, r)
    && Callable(side.isHost, Handler(t.callee, side.guestCallback), ReadCode(r.mem.code, t.slot))
    && (forall a: Loc | a != t.slot :: ReadCode(r.mem.code, a) == ReadCode(m.mem.code, a))
    && (c.original != Null <==> Wraps(m.stubs, side.isHost, side.guestCallback, was))
    && (if c.original != Null then c == Context(t.slot, was) else ReadCode(r.mem.code, t.slot) == was)
    && (forall p | p != t.path :: ContextOf(r, p) == ContextOf(m, p))
  }

  lemma RunInitFacts(side: Side, m: Machine, t: Target)
    requires Settled(m)
    ensures InitStep(side, m, RunInit(side, m, t.path, t.slot, t.callee), t)
  {
    var h := Handler(t.callee, side.guestCallback);
    InitSlotFacts(m.stubs, side.isHost, h, ReadCode(m.mem.code, t.slot));
    hide InitSlot, Sound, Wraps, Callable;
    var r := RunInit(side, m, t.path, t.slot, t.callee);
    forall a: Loc
      ensures Known(r.stubs, ReadCode(r.mem.code, a)) && Origin(r, a) == Origin(m, a)
    {
      UnwrapIsStable(m.stubs, r.stubs, ReadCode(m.mem.code, a));
    }
  }

  /** The context of target i, if it will restore anything, restores to the same code. */
  ghost predicate Recorded(m: Machine, r: Machine, t: Target) {
    var c := ContextOf(r, t.path);
    c.original != Null ==> c.slot == t.slot && Known(r.stubs, c.original) && Unwrap(r.stubs, c.original) == Origin(m, t.slot)
  }

  /** Some context will restore slot a. */
  ghost predicate SomeRestores(r: Machine, ts: seq<Target>, a: Loc) {
    exists i | 0 <= i < |ts| :: ts[i].slot == a && ContextOf(r, ts[i].path).original != Null
  }

  ghost predicate NoPath(ts: seq<Target>, p: Path) {
    forall i | 0 <= i < |ts| :: ts[i].path != p
  }

  /** What a run of inits does: every pointer keeps its origin, memory outside the slots is as it was,
      every slot whose pointer wraps will be restored. */
  ghost predicate InitResult(side: Side, m: Machine, r: Machine, ts: seq<Target>) {
    && Settled(r) && SameOrigins(m, r)
    && (forall a: Loc | !HasSlot(ts, a) :: ReadCode(r.mem.code, a) == ReadCode(m.mem.code, a))
    && (forall i | 0 <= i < |ts| :: Recorded(m, r, ts[i]))
    && (forall a: Loc | HasSlot(ts, a) && Wraps(m.stubs, side.isHost, side.guestCallback, ReadCode(m.mem.code, a)) :: SomeRestores(r, ts, a))
    && (forall p | NoPath(ts, p) :: ContextOf(r, p) == ContextOf(m, p))
  }

  lemma {:induction false} InitAllFacts(side: Side, m: Machine, ts: seq<Target>)
    requires Settled(m) && DistinctPaths(ts)
    ensures InitResult(side, m, InitAll(side, m, ts), ts)
    decreases |ts|
  {
    if ts != [] {
      var t := ts[0];
      var m1 := RunInit(side, m, t.path, t.slot, t.callee);
      RunInitFacts(side, m, t);
      InitAllFacts(side, m1, ts[1..]);
      InitAllExtends(side, m, m1, InitAll(side, m1, ts[1..]), ts);
    }
  }

  lemma InitAllExtends(side: Side, m: Machine, m1: Machine, r: Machine, ts: seq<Target>)
    requires ts != [] && DistinctPaths(ts) && Settled(m)
    requires InitStep(side, m, m1, ts[0]) && InitResult(side, m1, r, ts[1..])
    ensures InitResult(side, m, r, ts)
  {
    hide Unwrap, Sound;
    GrowsTransitive(m.stubs, m1.stubs, r.stubs);
    var t, rest := ts[0], ts[1..];
    assert NoPath(rest, t.path);
    forall a: Loc
      ensures HasSlot(ts, a) <==> a == t.slot || HasSlot(rest, a)
    {
      if i :| 0 <= i < |ts| && ts[i].slot == a { assert i > 0 ==> rest[i - 1].slot == a; }
      if i :| 0 <= i < |rest| && rest[i].slot == a { assert ts[i + 1].slot == a; }
    }
    forall i | 0 <= i < |ts|
      ensures Recorded(m, r, ts[i])
    {
      if i == 0 {
        UnwrapIsStable(m.stubs, r.stubs, ReadCode(m.mem.code, t.slot));
      } else {
        assert Recorded(m1, r, rest[i - 1]);
      }
    }
    forall a: Loc | HasSlot(ts, a) && Wraps(m.stubs, side.isHost, side.guestCallback, ReadCode(m.mem.code, a))
      ensures SomeRestores(r, ts, a)
    {
      if a == t.slot {
        assert ContextOf(r, ts[0].path).original != Null;
      } else {
        UnwrapIsStable(m.stubs, m1.stubs, ReadCode(m.mem.code, a));
        assert SomeRestores(r, rest, a);
        var i :| 0 <= i < |rest| && rest[i].slot == a && ContextOf(r, rest[i].path).original != Null;
        assert ts[i + 1] == rest[i];
      }
    }
    forall p | NoPath(ts, p)
      ensures ContextOf(r, p) == ContextOf(m, p)
    {
      assert NoPath(rest, p) && ts[0].path != p;
    }
  }

  /** A slot whose pointer needs no wrapping gets no record, however many targets share it. */
  lemma {:induction false} UnwrappedIsNotRecorded(side: Side, m: Machine, ts: seq<Target>, a: Loc)
    requires Settled(m) && DistinctPaths(ts) && !Wraps(m.stubs, side.isHost, side.guestCallback, ReadCode(m.mem.code, a))
    ensures !SomeRestores(InitAll(side, m, ts), ts, a)
    decreases |ts|
  {
    if ts != [] {
      hide RunInit, Callable;
      var t, rest := ts[0], ts[1..];
      var m1 := RunInit(side, m, t.path, t.slot, t.callee);
      RunInitFacts(side, m, t);
      UnwrapIsStable(m.stubs, m1.stubs, ReadCode(m.mem.code, a));
      InitAllFacts(side, m1, rest);
      UnwrappedIsNotRecorded(side, m1, rest, a);
      var r := InitAll(side, m1, rest);
      assert NoPath(rest, t.path);
      forall i | 0 <= i < |ts| && ts[i].slot == a
        ensures ContextOf(r, ts[i].path).original == Null
      {
        assert i > 0 ==> rest[i - 1] == ts[i];
      }
    }
  }

  /** The value slot a has after a run of finis: what some context restores there, or what it was. */
  lemma {:induction false} FiniAllFacts(m: Machine, ts: seq<Target>, a: Loc)
    requires forall i | 0 <= i < |ts| :: ContextOf(m, ts[i].path).original != Null ==> ContextOf(m, ts[i].path).slot == ts[i].slot
    ensures var v := ReadCode(FiniAll(m, ts).mem.code, a);
            if SomeRestores(m, ts, a) then
              exists i | 0 <= i < |ts| :: ts[i].slot == a && ContextOf(m, ts[i].path).original == v && v != Null
            else v == ReadCode(m.mem.code, a)
    ensures FiniAll(m, ts).stubs == m.stubs
    decreases |ts|
  {
    if ts != [] {
      var m1, rest := RunFini(m, ts[0].path), ts[1..];
      assert m1.contexts == m.contexts;
      assert forall i | 0 <= i < |rest| :: rest[i] == ts[i + 1];
      FiniAllFacts(m1, rest, a);
      if i :| 0 <= i < |ts| && ts[i].slot == a && ContextOf(m, ts[i].path).original != Null {
        if i > 0 {
          assert rest[i - 1] == ts[i];
          assert SomeRestores(m1, rest, a);
        }
      }
      if SomeRestores(m1, rest, a) {
        var i :| 0 <= i < |rest| && rest[i].slot == a && ContextOf(m1, rest[i].path).original == ReadCode(FiniAll(m1, rest).mem.code, a)
                 && ReadCode(FiniAll(m1, rest).mem.code, a) != Null;
        assert ts[i + 1] == rest[i];
      }
    }
  }

  /** With distinct slots each context records exactly the pointer its slot held. */
  lemma {:induction false} InitAllExact(side: Side, m: Machine, ts: seq<Target>, i: nat)
    requires Settled(m) && DistinctPaths(ts) && DistinctSlots(ts) && i < |ts|
    ensures var c, was := ContextOf(InitAll(side, m, ts), ts[i].path), ReadCode(m.mem.code, ts[i].slot);
            && (c.original != Null <==> Wraps(m.stubs, side.isHost, side.guestCallback, was))
            && (c.original != Null ==> c == Context(ts[i].slot, was))
    decreases |ts|
  {
    hide RunInit, Callable, Unwrap, Recorded, SomeRestores, Sound;
    var t, rest := ts[0], ts[1..];
    var m1 := RunInit(side, m, t.path, t.slot, t.callee);
    RunInitFacts(side, m, t);
    InitAllFacts(side, m1, rest);
    if i == 0 {
      assert NoPath(rest, t.path);
    } else {
      assert rest[i - 1] == ts[i];
      UnwrapIsStable(m.stubs, m1.stubs, ReadCode(m.mem.code, ts[i].slot));
      InitAllExact(side, m1, rest, i - 1);
    }
  }

  // ----- every callback of a tree has its own context -----

  /** Members of one aggregate have distinct names, all the way down. */
  ghost predicate DistinctMembers(m: Members) {
    && (forall i, j | 0 <= i < j < |m.callbacks| :: m.callbacks[i].0 != m.callbacks[j].0)
    && DistinctChildren(m.children)
  }

  ghost predicate DistinctChildren(children: Children) {
    match children
    case NoChild => true
    case Child(name, tree, rest) => DistinctMembers(tree.members) && !HasChild(rest, name) && DistinctChildren(rest)
  }

  predicate HasChild(children: Children, name: string) {
    match children
    case NoChild => false
    case Child(n, _, rest) => n == name || HasChild(rest, name)
  }

  /** The path continues `base` by `name`. */
  ghost predicate Below(path: Path, base: Path, name: string) {
    |base| < |path| && path[..|base|] == base && path[|base|] == name
  }

  lemma {:induction false} TargetsBelow(side: Side, m: Members, base: Path, obj: Loc, data: map<Loc, Loc>, i: nat)
    requires i < |Targets(side, m, base, obj, data)|
    ensures exists name :: Below(Targets(side, m, base, obj, data)[i].path, base, name)
    decreases m
  {
    var cs := ChildTargets(side, m.children, base, obj, data);
    if i < |cs| {
      var name := ChildTargetsBelow(side, m.children, base, obj, data, i);
      assert Targets(side, m, base, obj, data)[i] == cs[i];
    } else {
      CallbackTargetAt(side, m.callbacks, base, obj, i - |cs|);
      assert Targets(side, m, base, obj, data)[i] == CallbackTargets(side, m.callbacks, base, obj)[i - |cs|];
    }
  }

  lemma {:induction false} ChildTargetsBelow(side: Side, children: Children, base: Path, obj: Loc, data: map<Loc, Loc>, i: nat) returns (name: string)
    requires i < |ChildTargets(side, children, base, obj, data)|
    ensures var p := ChildTargets(side, children, base, obj, data)[i].path;
            Below(p, base, name) && HasChild(children, name) && |p| > |base| + 1
    decreases children
  {
    var at := side.memberAddress(obj, children.name);
    var p := if children.tree.reach.ByValue? then at else ReadData(data, at);
    var path := base + [children.name];
    var here: seq<Target> := if children.tree.reach.ByValue? || p != NullLoc then Targets(side, children.tree.members, path, p, data) else [];
    if i < |here| {
      TargetsBelow(side, children.tree.members, path, p, data, i);
      var n :| Below(here[i].path, path, n);
      assert here[i].path[..|base|] == here[i].path[..|path|][..|base|] == base;
      assert here[i].path[|base|] == path[|base|];
      name := children.name;
    } else {
      name := ChildTargetsBelow(side, children.rest, base, obj, data, i - |here|);
    }
  }

  lemma {:induction false} CallbackTargetAt(side: Side, callbacks: seq<(string, CType)>, base: Path, obj: Loc, i: nat)
    requires i < |CallbackTargets(side, callbacks, base, obj)|
    ensures |CallbackTargets(side, callbacks, base, obj)| == |callbacks|
    ensures CallbackTargets(side, callbacks, base, obj)[i].path == base + [callbacks[i].0]
    ensures Below(CallbackTargets(side, callbacks, base, obj)[i].path, base, callbacks[i].0)
    decreases |callbacks|
  {
    if i > 0 {
      CallbackTargetAt(side, callbacks[1..], base, obj, i - 1);
    } else if |callbacks| > 1 {
      CallbackTargetAt(side, callbacks[1..], base, obj, 0);
    }
  }

  lemma {:induction false} TargetPathsDistinct(side: Side, m: Members, base: Path, obj: Loc, data: map<Loc, Loc>)
    requires DistinctMembers(m)
    ensures DistinctPaths(Targets(side, m, base, obj, data))
    decreases m
  {
    var cs: seq<Target>, bs: seq<Target> := ChildTargets(side, m.children, base, obj, data), CallbackTargets(side, m.callbacks, base, obj);
    ChildPathsDistinct(side, m.children, base, obj, data);
    forall i, j | 0 <= i < j < |cs + bs|
      ensures (cs + bs)[i].path != (cs + bs)[j].path
    {
      if j >= |cs| {
        CallbackTargetAt(side, m.callbacks, base, obj, j - |cs|);
        if i < |cs| {
          var name := ChildTargetsBelow(side, m.children, base, obj, data, i);
        } else {
          CallbackTargetAt(side, m.callbacks, base, obj, i - |cs|);
          assert bs[i - |cs|].path[|base|] != bs[j - |cs|].path[|base|];
        }
      }
    }
  }

  lemma {:induction false} ChildPathsDistinct(side: Side, children: Children, base: Path, obj: Loc, data: map<Loc, Loc>)
    requires DistinctChildren(children)
    ensures DistinctPaths(ChildTargets(side, children, base, obj, data))
    decreases children
  {
    if children.Child? {
      var at := side.memberAddress(obj, children.name);
      var p := if children.tree.reach.ByValue? then at else ReadData(data, at);
      var path := base + [children.name];
      var here: seq<Target> := if children.tree.reach.ByValue? || p != NullLoc then Targets(side, children.tree.members, path, p, data) else [];
      var rest := ChildTargets(side, children.rest, base, obj, data);
      TargetPathsDistinct(side, children.tree.members, path, p, data);
      ChildPathsDistinct(side, children.rest, base, obj, data);
      forall i, j | 0 <= i < |here| && 0 <= j < |rest|
        ensures here[i].path != rest[j].path
      {
        TargetsBelow(side, children.tree.members, path, p, data, i);
        var n :| Below(here[i].path, path, n);
        assert here[i].path[|base|] == here[i].path[..|path|][|base|] == children.name;
        var name := ChildTargetsBelow(side, children.rest, base, obj, data, j);
      }
    }
  }

  // ----- the call -----

  function AtRoot(obj: Loc): map<Path, Loc> { map[[] := obj] }

  /** The machine after the emitted init; contexts start default-constructed. */
  function Before(side: Side, ms: Members, obj: Loc, mem: Memory, stubs: Stubs): Machine {
    Exec(side, EmitInit(ms, []), AtRoot(obj), Machine(mem, stubs, map[]))
  }

  /** The machine after the emitted fini, run on what the call left. */
  function After(side: Side, ms: Members, obj: Loc, called: Machine): Machine {
    Exec(side, EmitFini(ms, []), AtRoot(obj), called)
  }

  /** The call may change memory and hand out further stubs, but not the contexts, nor the object
      pointers that lead to the slots. */
  ghost predicate IsCall(side: Side, ms: Members, obj: Loc, start: Memory, before: Machine, called: Machine) {
    && Settled(called) && Grows(before.stubs, called.stubs) && called.contexts == before.contexts
    && Targets(side, ms, [], obj, called.mem.data) == Targets(side, ms, [], obj, start.data)
  }

  /** init, call, fini, with distinct slots: every callback that was wrapped is back as it was,
      whatever the call stored there, and no other function pointer is touched by the emitted code. */
  lemma CallRestoresCallbacks(side: Side, ms: Members, obj: Loc, mem: Memory, stubs: Stubs, called: Machine, a: Loc)
    requires DistinctMembers(ms) && Settled(Machine(mem, stubs, map[]))
    requires IsCall(side, ms, obj, mem, Before(side, ms, obj, mem, stubs), called)
    requires DistinctSlots(Targets(side, ms, [], obj, mem.data))
    ensures ReadCode(After(side, ms, obj, called).mem.code, a) ==
              if HasSlot(Targets(side, ms, [], obj, mem.data), a) && Wraps(stubs, side.isHost, side.guestCallback, ReadCode(mem.code, a))
              then ReadCode(mem.code, a) else ReadCode(called.mem.code, a)
    ensures !HasSlot(Targets(side, ms, [], obj, mem.data), a) || !Wraps(stubs, side.isHost, side.guestCallback, ReadCode(mem.code, a))
            ==> ReadCode(Before(side, ms, obj, mem, stubs).mem.code, a) == ReadCode(mem.code, a)
  {
    hide Targets, InitAll, FiniAll, Exec, Wraps, DistinctMembers, Settled, Unwrap;
    var m0, ts := Machine(mem, stubs, map[]), Targets(side, ms, [], obj, mem.data);
    var before := Before(side, ms, obj, mem, stubs);
    EmittedCodeHitsTargets(side, ms, obj, mem, stubs, called);
    forall i | 0 <= i < |ts|
      ensures var c, was := ContextOf(before, ts[i].path), ReadCode(mem.code, ts[i].slot);
              && (c.original != Null <==> Wraps(stubs, side.isHost, side.guestCallback, was))
              && (c.original != Null ==> c == Context(ts[i].slot, was))
    {
      InitAllExact(side, m0, ts, i);
    }
    FiniAllFacts(called, ts, a);
    if HasSlot(ts, a) {
      var i :| 0 <= i < |ts| && ts[i].slot == a;
      assert SomeRestores(called, ts, a) <==> ContextOf(called, ts[i].path).original != Null;
      UnwrappedSlotKept(side, m0, ts, i);
    }
  }

  lemma EmittedCodeHitsTargets(side: Side, ms: Members, obj: Loc, mem: Memory, stubs: Stubs, called: Machine)
    requires DistinctMembers(ms) && Settled(Machine(mem, stubs, map[]))
    requires IsCall(side, ms, obj, mem, Before(side, ms, obj, mem, stubs), called)
    ensures var m0, ts := Machine(mem, stubs, map[]), Targets(side, ms, [], obj, mem.data);
            var before := Before(side, ms, obj, mem, stubs);
            && DistinctPaths(ts) && before == InitAll(side, m0, ts) && InitResult(side, m0, before, ts)
            && After(side, ms, obj, called) == FiniAll(called, ts)
            && forall i | 0 <= i < |ts| :: ContextOf(called, ts[i].path) == ContextOf(before, ts[i].path) && Recorded(m0, before, ts[i])
  {
    hide Targets, InitAll, FiniAll, Exec, Wraps, DistinctMembers, Settled;
    var m0, ts := Machine(mem, stubs, map[]), Targets(side, ms, [], obj, mem.data);
    TargetPathsDistinct(side, ms, [], obj, mem.data);
    ExecInitHitsTargets(side, ms, [], obj, AtRoot(obj), m0);
    InitAllFacts(side, m0, ts);
    ExecFiniHitsTargets(side, ms, [], obj, AtRoot(obj), called);
  }

  /** A slot whose pointer needs no wrapping is left alone by a run of inits over distinct slots. */
  lemma {:induction false} UnwrappedSlotKept(side: Side, m: Machine, ts: seq<Target>, i: nat)
    requires Settled(m) && DistinctPaths(ts) && DistinctSlots(ts) && i < |ts|
    ensures !Wraps(m.stubs, side.isHost, side.guestCallback, ReadCode(m.mem.code, ts[i].slot))
            ==> ReadCode(InitAll(side, m, ts).mem.code, ts[i].slot) == ReadCode(m.mem.code, ts[i].slot)
    decreases |ts|
  {
    var t, rest := ts[0], ts[1..];
    var m1 := RunInit(side, m, t.path, t.slot, t.callee);
    RunInitFacts(side, m, t);
    if i == 0 {
      assert !HasSlot(rest, t.slot);
      InitAllFacts(side, m1, rest);
    } else {
      assert rest[i - 1] == ts[i];
      UnwrapIsStable(m.stubs, m1.stubs, ReadCode(m.mem.code, ts[i].slot));
      UnwrappedSlotKept(side, m1, rest, i - 1);
    }
  }

  /** The same with slots that may coincide: an address ends up holding a pointer of the original
      origin if and only if it is a slot that is wrapped or the call left such a pointer there. */
  lemma CallRestoresOrigins(side: Side, ms: Members, obj: Loc, mem: Memory, stubs: Stubs, called: Machine, a: Loc)
    requires DistinctMembers(ms) && Settled(Machine(mem, stubs, map[]))
    requires IsCall(side, ms, obj, mem, Before(side, ms, obj, mem, stubs), called)
    ensures var end := After(side, ms, obj, called);
            Unwrap(end.stubs, ReadCode(end.mem.code, a)) == Unwrap(stubs, ReadCode(mem.code, a))
            <==> (HasSlot(Targets(side, ms, [], obj, mem.data), a) && Wraps(stubs, side.isHost, side.guestCallback, ReadCode(mem.code, a)))
                 || Unwrap(called.stubs, ReadCode(called.mem.code, a)) == Unwrap(stubs, ReadCode(mem.code, a))
  {
    hide Targets, InitAll, FiniAll, Exec, Wraps, DistinctMembers, Settled, Unwrap;
    var m0, ts := Machine(mem, stubs, map[]), Targets(side, ms, [], obj, mem.data);
    var before := Before(side, ms, obj, mem, stubs);
    EmittedCodeHitsTargets(side, ms, obj, mem, stubs, called);
    FiniAllFacts(called, ts, a);
    if SomeRestores(called, ts, a) {
      var v := ReadCode(FiniAll(called, ts).mem.code, a);
      var i :| 0 <= i < |ts| && ts[i].slot == a && ContextOf(called, ts[i].path).original == v && v != Null;
      assert Recorded(m0, before, ts[i]);
      UnwrapIsStable(before.stubs, called.stubs, v);
      if !Wraps(stubs, side.isHost, side.guestCallback, ReadCode(mem.code, a)) {
        UnwrappedIsNotRecorded(side, m0, ts, a);
        assert false;
      }
    } else {
      assert !SomeRestores(before, ts, a);
    }
  }

  /** With distinct slots, a callback slot is left as it was if and only if its pointer was wrapped and
      is not null, or the call did not change it. */
  lemma SlotIsRestored(side: Side, ms: Members, obj: Loc, mem: Memory, stubs: Stubs, called: Machine, a: Loc)
    requires DistinctMembers(ms) && Settled(Machine(mem, stubs, map[]))
    requires IsCall(side, ms, obj, mem, Before(side, ms, obj, mem, stubs), called)
    requires var ts := Targets(side, ms, [], obj, mem.data); DistinctSlots(ts) && HasSlot(ts, a)
    ensures ReadCode(After(side, ms, obj, called).mem.code, a) == ReadCode(mem.code, a)
            <==> Wraps(stubs, side.isHost, side.guestCallback, ReadCode(mem.code, a)) || ReadCode(called.mem.code, a) == ReadCode(mem.code, a)
  {
    hide *;
    CallRestoresCallbacks(side, ms, obj, mem, stubs, called, a);
  }

  /** A null callback is not restored: with nothing but null pointers in memory, what a call stores in
      the one callback slot is still there after fini. */
  lemma NullIsNotRestored(side: Side, callee: CType, obj: Loc, stored: Pointer)
    requires side.guestCallback != side.isHost(Null) && stored.Code?
    ensures var ms, slot := Members([("cb", callee)], NoChild), side.memberAddress(obj, "cb");
            var mem := Memory(map[], map[]);
            var before := Before(side, ms, obj, mem, map[]);
            var called := before.(mem := before.mem.(code := before.mem.code[slot := stored]));
            && IsCall(side, ms, obj, mem, before, called)
            && ReadCode(After(side, ms, obj, called).mem.code, slot) == stored != ReadCode(mem.code, slot)
  {
    var ms, slot, mem := Members([("cb", callee)], NoChild), side.memberAddress(obj, "cb"), Memory(map[], map[]);
    OneTarget(side, callee, obj, mem.data);
    var ts := Targets(side, ms, [], obj, mem.data);
    ExecInitHitsTargets(side, ms, [], obj, AtRoot(obj), Machine(mem, map[], map[]));
    InitAllFacts(side, Machine(mem, map[], map[]), ts);
    var before := Before(side, ms, obj, mem, map[]);
    var called := before.(mem := before.mem.(code := before.mem.code[slot := stored]));
    assert Targets(side, ms, [], obj, called.mem.data) == ts;
    CallRestoresCallbacks(side, ms, obj, mem, map[], called, slot);
  }

  lemma OneTarget(side: Side, callee: CType, obj: Loc, data: map<Loc, Loc>)
    ensures Targets(side, Members([("cb", callee)], NoChild), [], obj, data) == [Target(["cb"], side.memberAddress(obj, "cb"), callee)]
    ensures DistinctMembers(Members([("cb", callee)], NoChild))
  {
    var cs := [("cb", callee)];
    assert cs[1..] == [] && [] + ["cb"] == ["cb"];
    var one := [Target(["cb"], side.memberAddress(obj, "cb"), callee)];
    assert CallbackTargets(side, [], [], obj) == [] && CallbackTargets(side, cs, [], obj) == one + [] == one;
    assert [] + one == one;
  }

  /** No target behind i shares its slot. */
  ghost predicate LastAt(ts: seq<Target>, i: nat) {
    i < |ts| && forall j | i < j < |ts| :: ts[j].slot != ts[i].slot
  }

  lemma {:induction false} LastTarget(ts: seq<Target>, a: Loc) returns (i: nat)
    requires HasSlot(ts, a)
    ensures LastAt(ts, i) && ts[i].slot == a
    decreases |ts|
  {
    if HasSlot(ts[1..], a) {
      i := LastTarget(ts[1..], a);
      assert forall j | i + 1 < j < |ts| :: ts[1..][j - 1] == ts[j];
      i := i + 1;
    } else {
      i := 0;
      assert forall j | 0 < j < |ts| :: ts[1..][j - 1] == ts[j];
    }
  }

  /** After a run of inits every slot holds a pointer the receiver can call through the handler of the
      last target there, with the same code behind it. */
  lemma {:induction false} InitHandsOver(side: Side, m: Machine, ts: seq<Target>, i: nat)
    requires Settled(m) && DistinctPaths(ts) && LastAt(ts, i)
    ensures var r := InitAll(side, m, ts);
            && Callable(side.isHost, Handler(ts[i].callee, side.guestCallback), ReadCode(r.mem.code, ts[i].slot))
            && Origin(r, ts[i].slot) == Origin(m, ts[i].slot)
    decreases |ts|
  {
    hide RunInit, Settled, Callable, ReadCode, Unwrap, Recorded, SomeRestores, Wraps;
    var t, rest := ts[0], ts[1..];
    var m1 := RunInit(side, m, t.path, t.slot, t.callee);
    RunInitFacts(side, m, t);
    InitAllFacts(side, m1, rest);
    if i == 0 {
      assert !HasSlot(rest, t.slot);
    } else {
      assert rest[i - 1] == ts[i];
      InitHandsOver(side, m1, rest, i - 1);
    }
  }

  /** What the call is given: in every callback slot of the tree, a pointer the receiver can call through
      the handler of the last target that shares the slot, with the original code behind it. */
  lemma CallGetsCallables(side: Side, ms: Members, obj: Loc, mem: Memory, stubs: Stubs, i: nat)
    requires DistinctMembers(ms) && Settled(Machine(mem, stubs, map[]))
    requires LastAt(Targets(side, ms, [], obj, mem.data), i)
    ensures var t, before := Targets(side, ms, [], obj, mem.data)[i], Before(side, ms, obj, mem, stubs);
            && Callable(side.isHost, Handler(t.callee, side.guestCallback), ReadCode(before.mem.code, t.slot))
            && Unwrap(before.stubs, ReadCode(before.mem.code, t.slot)) == Unwrap(stubs, ReadCode(mem.code, t.slot))
  {
    hide Targets, InitAll, Exec, DistinctMembers, Settled, Callable, Unwrap;
    TargetPathsDistinct(side, ms, [], obj, mem.data);
    ExecInitHitsTargets(side, ms, [], obj, AtRoot(obj), Machine(mem, stubs, map[]));
    InitHandsOver(side, Machine(mem, stubs, map[]), Targets(side, ms, [], obj, mem.data), i);
  }

  // ----- out callbacks -----

  /** The slots behind the out-callback arguments; `args` gives the argument values. */
  function OutTargets(cs: seq<(nat, CType)>, args: nat -> Loc): (r: seq<Target>)
    ensures |r| == |cs| && forall k | 0 <= k < |cs| :: r[k] == Target([ArgName(cs[k].0)], args(cs[k].0), cs[k].1)
  {
    seq(|cs|, k requires 0 <= k < |cs| => Target([ArgName(cs[k].0)], args(cs[k].0), cs[k].1))
  }

  // ----- the trees the substituter really emits for -----

  ghost predicate NamedLike(m: Members, fields: seq<Field>) {
    && (forall c | c in m.callbacks :: exists fd | fd in fields :: fd.name == c.0)
    && (forall n | HasChild(m.children, n) :: exists fd | fd in fields :: fd.name == n)
  }

  lemma {:induction false} BuildIsDistinct(env: Env, u: set<CType>, t: CType, visited: set<CType>)
    requires Buildable(env, u, t, visited)
    ensures DistinctMembers(Build(env, u, t, visited).members)
    decreases |u - visited|, 1, 0
  {
    var target := if t.Ptr? then t.to else t;
    if target.Rec? {
      FieldsOfBuildable(env, u, t, visited);
      FieldsAreDistinct(env, u, FieldsOf(env, target), visited);
    }
  }

  lemma {:induction false} FieldsAreDistinct(env: Env, u: set<CType>, fields: seq<Field>, visited: set<CType>)
    requires BuildableFields(env, u, fields, visited)
    ensures var m := BuildFields(env, u, fields, visited);
            m.Some? ==> DistinctMembers(m.value) && NamedLike(m.value, fields)
    decreases |u - visited|, 0, |fields|
  {
    if fields != [] && BuildFields(env, u, fields, visited).Some? {
      hide Build, ReachesFunction, DistinctMembers, NamedLike;
      var fd, t := fields[0], fields[0].fieldType;
      var rest := BuildFields(env, u, fields[1..], visited).value;
      FirstAndRest(fields);
      FieldsAreDistinct(env, u, fields[1..], visited);
      OneMoreChildIsDistinct(fields, rest, NoCallbacksTree);
      if IsFunctionPointer(t) { OneMoreCallbackIsDistinct(fields, rest); }
      if !IsFunctionPointer(t) && t !in visited {
        VisitedGrows(u, visited, t);
        BuildIsDistinct(env, u, t, visited + {t});
        OneMoreChildIsDistinct(fields, rest, Build(env, u, t, visited + {t}));
      }
    } else {
      assert DistinctMembers(NoMembers) && NamedLike(NoMembers, fields);
    }
  }

  lemma OneMoreChildIsDistinct(fields: seq<Field>, m: Members, child: Tree)
    requires fields != [] && DistinctNames(fields) && DistinctMembers(m) && NamedLike(m, fields[1..])
    requires DistinctMembers(child.members)
    ensures NamedLike(m, fields)
    ensures DistinctMembers(Prepend(fields[0], child, m)) && NamedLike(Prepend(fields[0], child, m), fields)
  {
    FirstAndRest(fields);
  }

  lemma OneMoreCallbackIsDistinct(fields: seq<Field>, m: Members)
    requires fields != [] && DistinctNames(fields) && DistinctMembers(m) && NamedLike(m, fields[1..])
    requires IsFunctionPointer(fields[0].fieldType)
    ensures var m1 := m.(callbacks := [(fields[0].name, fields[0].fieldType.to)] + m.callbacks);
            DistinctMembers(m1) && NamedLike(m1, fields)
  {
    FirstAndRest(fields);
    hide DistinctNames;
    assert forall c | c in m.callbacks :: c.0 != fields[0].name;
  }

  function ArgName(i: nat): string { "arg" + Decimal(i + 1) }

  /** The argument list as one synthetic aggregate, its members named by position. */
  function TopMembers(r: ArgumentTree): Members {
    Members(TopCallbacks(r.callbacks), TopChildren(r.children))
  }

  function TopCallbacks(cs: seq<(nat, CType)>): (r: seq<(string, CType)>)
    ensures |r| == |cs| && forall i | 0 <= i < |r| :: r[i] == (ArgName(cs[i].0), cs[i].1)
  {
    if cs == [] then [] else [(ArgName(cs[0].0), cs[0].1)] + TopCallbacks(cs[1..])
  }

  function TopChildren(cs: seq<(nat, Tree)>): Children {
    if cs == [] then NoChild else Child(ArgName(cs[0].0), cs[0].1, TopChildren(cs[1..]))
  }

  lemma ArgNamesDiffer(i: nat, j: nat)
    requires i != j
    ensures ArgName(i) != ArgName(j)
  {
    if ArgName(i) == ArgName(j) {
      assert Decimal(i + 1) == ArgName(i)[3..] == ArgName(j)[3..] == Decimal(j + 1);
      DecimalIsInjective(i + 1, j + 1);
    }
  }

  /** The argument tree of any proc satisfies what CallRestoresCallbacks asks of it. */
  lemma ArgumentTreeIsDistinct(env: Env, params: seq<CType>, r: ArgumentTree)
    requires WellFormed(env) && (forall p | p in params :: !p.Fn?) && IsArgumentTree(env, params, |params|, r)
    ensures DistinctMembers(TopMembers(r))
  {
    forall i, j | 0 <= i < j < |r.callbacks|
      ensures TopCallbacks(r.callbacks)[i].0 != TopCallbacks(r.callbacks)[j].0
    {
      ArgNamesDiffer(r.callbacks[i].0, r.callbacks[j].0);
    }
    forall k | 0 <= k < |r.children|
      ensures DistinctMembers(r.children[k].1.members)
    {
      var (i, t) := r.children[k];
      assert (i, t) in r.children;
      UniverseIsClosed(env, params[i]);
      BuildIsDistinct(env, Universe(env, params[i]), params[i], {});
    }
    TopChildrenDistinct(r.children);
  }

  lemma {:induction false} TopChildrenDistinct(cs: seq<(nat, Tree)>)
    requires forall i, j | 0 <= i < j < |cs| :: cs[i].0 < cs[j].0
    requires forall k | 0 <= k < |cs| :: DistinctMembers(cs[k].1.members)
    ensures DistinctChildren(TopChildren(cs))
    decreases |cs|
  {
    if cs != [] {
      TopChildrenDistinct(cs[1..]);
      LaterNamesDiffer(cs[1..], cs[0].0);
    }
  }

  lemma {:induction false} LaterNamesDiffer(cs: seq<(nat, Tree)>, i: nat)
    requires forall k | 0 <= k < |cs| :: i < cs[k].0
    ensures !HasChild(TopChildren(cs), ArgName(i))
    decreases |cs|
  {
    if cs != [] {
      ArgNamesDiffer(i, cs[0].0);
      LaterNamesDiffer(cs[1..], i);
    }
  }
}
