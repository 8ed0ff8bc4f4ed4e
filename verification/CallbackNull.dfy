/** Null pointers in the emitted code: which of it tests a pointer before following it. */
module CallbackNull {
  import opened Wrappers
  import opened TypeGraph
  import opened CallbackTree
  import opened CallbackStubs
  import opened CallbackEmit

  /** No statement of the emitted code takes a member of a null object. */
  predicate Safe(side: Side, c: Code, vars: map<Path, Loc>, m: Machine)
    decreases c
  {
    match c
    case Done => true
    case NavChild(base, member, byValue, body, next) =>
      && base in vars && vars[base] != NullLoc
      && var at := side.memberAddress(vars[base], member);
      var p := if byValue then at else ReadData(m.mem.data, at);
      var enters := byValue || p != NullLoc;
      && (enters ==> Safe(side, body, vars[base + [member] := p], m))
      && Safe(side, next, vars, if enters then Exec(side, body, vars[base + [member] := p], m) else m)
    case CallInit(base, member, callee, next) =>
      && base in vars && vars[base] != NullLoc
      && Safe(side, next, vars, RunInit(side, m, base + [member], side.memberAddress(vars[base], member), callee))
    case CallFini(base, member, next) => Safe(side, next, vars, RunFini(m, base + [member]))
  }

  /** Members of an object that is not null are not at null. */
  ghost predicate MembersNotNull(side: Side) {
    forall obj, name | obj != NullLoc :: side.memberAddress(obj, name) != NullLoc
  }

  /** The emitted init follows no null pointer, whatever is in memory. */
  lemma {:induction false} InitIsSafe(side: Side, ms: Members, base: Path, vars: map<Path, Loc>, m: Machine)
    requires MembersNotNull(side) && base in vars && vars[base] != NullLoc
    ensures Safe(side, EmitInit(ms, base), vars, m)
    decreases ms, 1
  {
    forall x: Machine ensures Safe(side, EmitInits(ms.callbacks, base), vars, x) { InitsAreSafe(side, ms.callbacks, base, vars, x); }
    InitChildrenAreSafe(side, ms.children, base, EmitInits(ms.callbacks, base), vars, m);
  }

  lemma {:induction false} InitsAreSafe(side: Side, callbacks: seq<(string, CType)>, base: Path, vars: map<Path, Loc>, m: Machine)
    requires base in vars && vars[base] != NullLoc
    ensures Safe(side, EmitInits(callbacks, base), vars, m)
    decreases |callbacks|
  {
    if callbacks != [] {
      hide RunInit;
      var (name, callee) := callbacks[0];
      InitsAreSafe(side, callbacks[1..], base, vars, RunInit(side, m, base + [name], side.memberAddress(vars[base], name), callee));
    }
  }

  lemma {:induction false} InitChildrenAreSafe(side: Side, children: Children, base: Path, tail: Code, vars: map<Path, Loc>, m: Machine)
    requires MembersNotNull(side) && base in vars && vars[base] != NullLoc
    requires forall x: Machine :: Safe(side, tail, vars, x)
    ensures Safe(side, EmitInitChildren(children, base, tail), vars, m)
    decreases children, 0
  {
    if children.Child? {
      var at, path := side.memberAddress(vars[base], children.name), base + [children.name];
      var p := if children.tree.reach.ByValue? then at else ReadData(m.mem.data, at);
      var body := EmitInit(children.tree.members, path);
      if children.tree.reach.ByValue? || p != NullLoc {
        InitIsSafe(side, children.tree.members, path, vars[path := p], m);
        InitChildrenAreSafe(side, children.rest, base, tail, vars, Exec(side, body, vars[path := p], m));
      } else {
        InitChildrenAreSafe(side, children.rest, base, tail, vars, m);
      }
    }
  }

  /** Neither does the emitted fini, which navigates afresh. */
  lemma {:induction false} FiniIsSafe(side: Side, ms: Members, base: Path, vars: map<Path, Loc>, m: Machine)
    requires MembersNotNull(side) && base in vars && vars[base] != NullLoc
    ensures Safe(side, EmitFini(ms, base), vars, m)
    decreases ms, 1
  {
    forall x: Machine ensures Safe(side, EmitFinis(ms.callbacks, base), vars, x) { FinisAreSafe(side, ms.callbacks, base, vars, x); }
    FiniChildrenAreSafe(side, ms.children, base, EmitFinis(ms.callbacks, base), vars, m);
  }

  lemma {:induction false} FinisAreSafe(side: Side, callbacks: seq<(string, CType)>, base: Path, vars: map<Path, Loc>, m: Machine)
    ensures Safe(side, EmitFinis(callbacks, base), vars, m)
    decreases |callbacks|
  {
    if callbacks != [] { FinisAreSafe(side, callbacks[1..], base, vars, RunFini(m, base + [callbacks[0].0])); }
  }

  lemma {:induction false} FiniChildrenAreSafe(side: Side, children: Children, base: Path, tail: Code, vars: map<Path, Loc>, m: Machine)
    requires MembersNotNull(side) && base in vars && vars[base] != NullLoc
    requires forall x: Machine :: Safe(side, tail, vars, x)
    ensures Safe(side, EmitFiniChildren(children, base, tail), vars, m)
    decreases children, 0
  {
    if children.Child? {
      var at, path := side.memberAddress(vars[base], children.name), base + [children.name];
      var p := if children.tree.reach.ByValue? then at else ReadData(m.mem.data, at);
      var body := EmitFini(children.tree.members, path);
      if children.tree.reach.ByValue? || p != NullLoc {
        FiniIsSafe(side, children.tree.members, path, vars[path := p], m);
        FiniChildrenAreSafe(side, children.rest, base, tail, vars, Exec(side, body, vars[path := p], m));
      } else {
        FiniChildrenAreSafe(side, children.rest, base, tail, vars, m);
      }
    }
  }

  // ----- out callbacks -----

  /** The emitted out code: one init on `*arg` for each listed argument, without a null test. None: it
      has dereferenced null. */
  function ExecOut(side: Side, m: Machine, cs: seq<(nat, CType)>, args: nat -> Loc): Option<Machine>
    decreases |cs|
  {
    if cs == [] then Some(m)
    else if args(cs[0].0) == NullLoc then None
    else ExecOut(side, RunInit(side, m, [ArgName(cs[0].0)], args(cs[0].0), cs[0].1), cs[1..], args)
  }

  lemma {:induction false} ExecOutHitsTargets(side: Side, m: Machine, cs: seq<(nat, CType)>, args: nat -> Loc)
    ensures ExecOut(side, m, cs, args)
            == if exists k | 0 <= k < |cs| :: args(cs[k].0) == NullLoc then None else Some(InitAll(side, m, OutTargets(cs, args)))
    decreases |cs|
  {
    hide RunInit;
    if cs != [] && args(cs[0].0) != NullLoc {
      var ts := OutTargets(cs, args);
      assert ts[1..] == OutTargets(cs[1..], args);
      ExecOutHitsTargets(side, RunInit(side, m, ts[0].path, ts[0].slot, ts[0].callee), cs[1..], args);
      if k :| 0 <= k < |cs| && args(cs[k].0) == NullLoc { assert cs[1..][k - 1] == cs[k]; }
      if k :| 0 <= k < |cs[1..]| && args(cs[1..][k].0) == NullLoc { assert cs[k + 1] == cs[1..][k]; }
    }
  }

  /** The emitted out code runs if and only if no out argument is null, and then the caller gets, in every
      one the callee has filled, a pointer it can call, through the handler of the last argument that
      shares the slot and with the same code behind it; there is no restoring. */
  lemma OutCallbacksHandedBack(side: Side, m: Machine, params: seq<CType>, cs: seq<(nat, CType)>, args: nat -> Loc, k: nat)
    requires Settled(m) && ListsOutCallbacks(params, |params|, cs) && k < |cs|
    requires forall j | k < j < |cs| :: args(cs[j].0) != args(cs[k].0)
    ensures ExecOut(side, m, cs, args).Some? <==> forall j | 0 <= j < |cs| :: args(cs[j].0) != NullLoc
    ensures var end, slot := ExecOut(side, m, cs, args), args(cs[k].0);
            end.Some? ==>
              && Callable(side.isHost, Handler(cs[k].1, side.guestCallback), ReadCode(end.value.mem.code, slot))
              && Origin(end.value, slot) == Origin(m, slot)
  {
    hide Settled, InitAll, Callable;
    var ts := OutTargets(cs, args);
    ExecOutHitsTargets(side, m, cs, args);
    forall i, j | 0 <= i < j < |ts| ensures ts[i].path != ts[j].path {
      ArgNamesDiffer(cs[i].0, cs[j].0);
      assert ts[i].path[0] == ArgName(cs[i].0) && ts[j].path[0] == ArgName(cs[j].0);
    }
    InitHandsOver(side, m, ts, k);
  }

  /** A function with one out callback, called with null for it. */
  lemma NullOutArgument(side: Side, m: Machine, callee: CType)
    requires callee.Fn?
    ensures ListsOutCallbacks([Ptr(Ptr(callee))], 1, [(0, callee)])
    ensures ExecOut(side, m, [(0, callee)], _ => NullLoc) == None
  {
    assert [(0, callee)][0].0 == 0;
  }
}
