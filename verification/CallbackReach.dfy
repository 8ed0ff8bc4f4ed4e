/** The slots the emitted code works on are exactly the function pointers that can be reached from the
    arguments: walks over types (what `build` decides) and navigation through memory (what the emitted
    code does) meet in the same places. */
module CallbackReach {
  import opened Wrappers
  import opened TypeGraph
  import opened CallbackTree
  import opened CallbackStubs
  import opened CallbackEmit
  import opened CallbackLookup

  /** Where a walk to a function ends in memory, starting from the object at `at`: the address of the
      function pointer that its last step dereferences. None when it meets a null pointer before. */
  ghost function SlotOf(side: Side, data: map<Loc, Loc>, at: Loc, w: seq<Step>): Option<Loc>
    decreases |w|
  {
    if w == [] then None
    else match w[0]
      case Member(name) => SlotOf(side, data, side.memberAddress(at, name), w[1..])
      case Deref =>
        if |w| == 1 then Some(at)
        else if at !in data || data[at] == 0 then None
        else SlotOf(side, data, data[at], w[1..])
      case Index => None
  }

  /** Some target wraps slot x for the callee type fn. */
  ghost predicate HasTarget(ts: seq<Target>, x: Loc, fn: CType) {
    exists i | 0 <= i < |ts| :: ts[i].slot == x && ts[i].callee == fn
  }

  lemma HasTargetJoins(a: seq<Target>, b: seq<Target>, x: Loc, fn: CType)
    ensures HasTarget(a + b, x, fn) <==> HasTarget(a, x, fn) || HasTarget(b, x, fn)
  {
    if i :| 0 <= i < |a| && a[i].slot == x && a[i].callee == fn { assert (a + b)[i] == a[i]; }
    if i :| 0 <= i < |b| && b[i].slot == x && b[i].callee == fn { assert (a + b)[|a| + i] == b[i]; }
  }

  // ----- leaf walks and targets -----

  /** Every child of the aggregate carries callbacks, all the way down. */
  ghost predicate Carries(m: Members) {
    CarriesChildren(m.children)
  }

  ghost predicate CarriesChildren(children: Children) {
    match children
    case NoChild => true
    case Child(_, tree, rest) => tree.status.HasCallbacks? && Carries(tree.members) && CarriesChildren(rest)
  }

  lemma {:induction false} CallbackSlots(side: Side, callbacks: seq<(string, CType)>, base: Path, obj: Loc)
    ensures var ts := CallbackTargets(side, callbacks, base, obj);
            && |ts| == |callbacks|
            && forall i | 0 <= i < |ts| :: ts[i].slot == side.memberAddress(obj, callbacks[i].0) && ts[i].callee == callbacks[i].1
    decreases |callbacks|
  {
    if callbacks != [] { CallbackSlots(side, callbacks[1..], base, obj); }
  }

  /** The object that a child's members are found in, if navigation gets there. */
  ghost function ChildObject(side: Side, tree: Tree, at: Loc, data: map<Loc, Loc>): Option<Loc> {
    if tree.reach.ByValue? then Some(at) else if ReadData(data, at) == NullLoc then None else Some(ReadData(data, at))
  }

  lemma ChildTargetsUnfold(side: Side, children: Children, base: Path, obj: Loc, data: map<Loc, Loc>)
    requires children.Child?
    ensures var tree, at := children.tree, side.memberAddress(obj, children.name);
            var p := ChildObject(side, tree, at, data);
            ChildTargets(side, children, base, obj, data)
            == (if p.None? then [] else Targets(side, tree.members, base + [children.name], p.value, data))
               + ChildTargets(side, children.rest, base, obj, data)
  {
  }

  /** A leaf walk of a child, from the child's address on. */
  lemma LeafWalkSlot(side: Side, tree: Tree, at: Loc, data: map<Loc, Loc>, w: seq<Step>, fn: CType)
    requires LeafWalk(tree, w, fn)
    ensures var v, p := if tree.reach.ByPointer? then w[1..] else w, ChildObject(side, tree, at, data);
            MembersWalk(tree.members, v, fn) && SlotOf(side, data, at, w) == if p.None? then None else SlotOf(side, data, p.value, v)
  {
    assert w[1..] != [] || tree.reach.ByValue?;
  }

  lemma {:induction false} WalkHitsTarget(side: Side, m: Members, base: Path, obj: Loc, data: map<Loc, Loc>, w: seq<Step>, fn: CType)
    requires MembersWalk(m, w, fn) && SlotOf(side, data, obj, w).Some?
    ensures HasTarget(Targets(side, m, base, obj, data), SlotOf(side, data, obj, w).value, fn)
    decreases m, 1
  {
    var a := SlotOf(side, data, obj, w).value;
    HasTargetJoins(ChildTargets(side, m.children, base, obj, data), CallbackTargets(side, m.callbacks, base, obj), a, fn);
    if ChildrenWalk(m.children, w, fn) {
      ChildWalkHitsTarget(side, m.children, base, obj, data, w, fn);
    } else {
      var i :| 0 <= i < |m.callbacks| && m.callbacks[i] == (w[0].name, fn);
      CallbackSlots(side, m.callbacks, base, obj);
      assert w == [w[0], Deref];
      assert CallbackTargets(side, m.callbacks, base, obj)[i].slot == a;
    }
  }

  lemma {:induction false} ChildWalkHitsTarget(side: Side, children: Children, base: Path, obj: Loc, data: map<Loc, Loc>, w: seq<Step>, fn: CType)
    requires w != [] && w[0].Member? && ChildrenWalk(children, w, fn) && SlotOf(side, data, obj, w).Some?
    ensures HasTarget(ChildTargets(side, children, base, obj, data), SlotOf(side, data, obj, w).value, fn)
    decreases children, 0
  {
    var a, tree, at := SlotOf(side, data, obj, w).value, children.tree, side.memberAddress(obj, children.name);
    var p := ChildObject(side, tree, at, data);
    var own := if p.None? then [] else Targets(side, tree.members, base + [children.name], p.value, data);
    ChildTargetsUnfold(side, children, base, obj, data);
    HasTargetJoins(own, ChildTargets(side, children.rest, base, obj, data), a, fn);
    if children.name == w[0].name && LeafWalk(tree, w[1..], fn) {
      LeafWalkSlot(side, tree, at, data, w[1..], fn);
      WalkHitsTarget(side, tree.members, base + [children.name], p.value, data, if tree.reach.ByPointer? then w[1..][1..] else w[1..], fn);
    } else {
      ChildWalkHitsTarget(side, children.rest, base, obj, data, w, fn);
    }
  }

  lemma {:induction false} TargetHasWalk(side: Side, m: Members, base: Path, obj: Loc, data: map<Loc, Loc>, a: Loc, fn: CType) returns (w: seq<Step>)
    requires Carries(m) && HasTarget(Targets(side, m, base, obj, data), a, fn)
    ensures MembersWalk(m, w, fn) && SlotOf(side, data, obj, w) == Some(a)
    decreases m, 1
  {
    var own := CallbackTargets(side, m.callbacks, base, obj);
    HasTargetJoins(ChildTargets(side, m.children, base, obj, data), own, a, fn);
    if HasTarget(ChildTargets(side, m.children, base, obj, data), a, fn) {
      w := ChildTargetHasWalk(side, m.children, base, obj, data, a, fn);
    } else {
      var i :| 0 <= i < |own| && own[i].slot == a && own[i].callee == fn;
      CallbackSlots(side, m.callbacks, base, obj);
      w := [Member(m.callbacks[i].0), Deref];
      assert w[1..] == [Deref] && m.callbacks[i] in m.callbacks;
    }
  }

  lemma {:induction false} ChildTargetHasWalk(side: Side, children: Children, base: Path, obj: Loc, data: map<Loc, Loc>, a: Loc, fn: CType) returns (w: seq<Step>)
    requires CarriesChildren(children) && HasTarget(ChildTargets(side, children, base, obj, data), a, fn)
    ensures w != [] && w[0].Member? && ChildrenWalk(children, w, fn) && SlotOf(side, data, obj, w) == Some(a)
    decreases children, 0
  {
    var tree, at := children.tree, side.memberAddress(obj, children.name);
    var p := ChildObject(side, tree, at, data);
    var own := if p.None? then [] else Targets(side, tree.members, base + [children.name], p.value, data);
    ChildTargetsUnfold(side, children, base, obj, data);
    HasTargetJoins(own, ChildTargets(side, children.rest, base, obj, data), a, fn);
    if HasTarget(own, a, fn) {
      var v := TargetHasWalk(side, tree.members, base + [children.name], p.value, data, a, fn);
      var u := if tree.reach.ByPointer? then [Deref] + v else v;
      assert tree.reach.ByPointer? ==> u[1..] == v;
      LeafWalkSlot(side, tree, at, data, u, fn);
      w := [Member(children.name)] + u;
      assert w[1..] == u;
    } else {
      w := ChildTargetHasWalk(side, children.rest, base, obj, data, a, fn);
    }
  }

  // ----- argument lists -----

  lemma {:induction false} BuildCarries(env: Env, u: set<CType>, t: CType, visited: set<CType>)
    requires Closed(env, u) && t in u && visited <= u
    ensures Carries(Build(env, u, t, visited).members)
    decreases |u - visited|, 1, 0
  {
    var target := if t.Ptr? then t.to else t;
    if target.Rec? {
      SubtermsInside(env, u, t);
      FieldTypesInside(env, u, target);
      FieldsCarry(env, u, FieldsOf(env, target), visited);
    }
  }

  lemma {:induction false} FieldsCarry(env: Env, u: set<CType>, fields: seq<Field>, visited: set<CType>)
    requires Closed(env, u) && visited <= u && forall fd | fd in fields :: fd.fieldType in u
    ensures var m := BuildFields(env, u, fields, visited); m.Some? ==> Carries(m.value)
    decreases |u - visited|, 0, |fields|
  {
    if fields != [] && BuildFields(env, u, fields, visited).Some? {
      hide Build, ReachesFunction, Closed;
      var t := fields[0].fieldType;
      FieldsCarry(env, u, fields[1..], visited);
      if !IsFunctionPointer(t) && t !in visited {
        VisitedGrows(u, visited, t);
        BuildCarries(env, u, t, visited + {t});
      }
    }
  }

  /** The callback arguments and the aggregate ones make up the children of the top node. */
  lemma {:induction false} TopChildrenWalk(cs: seq<(nat, Tree)>, i: nat, w: seq<Step>, fn: CType)
    ensures ChildrenWalk(TopChildren(cs), [Member(ArgName(i))] + w, fn) <==> exists k | 0 <= k < |cs| :: cs[k].0 == i && LeafWalk(cs[k].1, w, fn)
    decreases |cs|
  {
    var v := [Member(ArgName(i))] + w;
    assert v[1..] == w;
    if cs != [] {
      TopChildrenWalk(cs[1..], i, w, fn);
      if cs[0].0 != i { ArgNamesDiffer(cs[0].0, i); }
      if k :| 0 <= k < |cs[1..]| && cs[1..][k].0 == i && LeafWalk(cs[1..][k].1, w, fn) { assert cs[k + 1].0 == i; }
      if k :| 0 <= k < |cs| && cs[k].0 == i && LeafWalk(cs[k].1, w, fn) { assert k > 0 ==> cs[1..][k - 1].0 == i; }
    }
  }

  lemma TopCallbackNamed(cs: seq<(nat, CType)>, i: nat, fn: CType)
    ensures (ArgName(i), fn) in TopCallbacks(cs) <==> (i, fn) in cs
  {
    if (i, fn) in cs {
      var k :| 0 <= k < |cs| && cs[k] == (i, fn);
      assert TopCallbacks(cs)[k] in TopCallbacks(cs);
    }
    if (ArgName(i), fn) in TopCallbacks(cs) {
      var k :| 0 <= k < |cs| && TopCallbacks(cs)[k] == (ArgName(i), fn);
      if cs[k].0 != i { ArgNamesDiffer(cs[k].0, i); }
      assert cs[k] == (i, fn);
    }
  }

  /** The leaves of an argument list below argument i are exactly the walks to a function from its type,
      each with the type of that function. */
  lemma ArgumentWalks(env: Env, params: seq<CType>, r: ArgumentTree, i: nat, w: seq<Step>, fn: CType)
    requires WellFormed(env) && (forall p | p in params :: !p.Fn?) && IsArgumentTree(env, params, |params|, r)
    requires i < |params| && !IsOutCallback(params[i])
    ensures MembersWalk(TopMembers(r), [Member(ArgName(i))] + w, fn) <==> FnWalk(env, params[i], w, fn)
  {
    hide LeafWalk, FnWalk, TreeOf, WellFormed, ChildrenWalk, ReachesFunction;
    var t, v := params[i], [Member(ArgName(i))] + w;
    assert v[1..] == w && t in params;
    TopChildrenWalk(r.children, i, w, fn);
    TopCallbackNamed(r.callbacks, i, fn);
    AtMostOneHeading(env, params, r, i);
    if IsFunctionPointer(t) {
      FunctionPointerWalk(env, t, w, fn);
    } else {
      AggregateWalk(env, t, w, fn);
    }
  }

  lemma AggregateWalk(env: Env, t: CType, w: seq<Step>, fn: CType)
    requires WellFormed(env) && !t.Fn? && IsAggregate(t) && !UnsupportedArgument(env, t)
    ensures FnWalk(env, t, w, fn) <==> TreeOf(env, t).status.HasCallbacks? && LeafWalk(TreeOf(env, t), w, fn)
  {
    hide FnWalk, LeafWalk, Build;
    UniverseIsClosed(env, t);
    BuildExact(env, Universe(env, t), t, {}, w, fn);
  }

  /** What the argument lists say of argument i. */
  lemma AtMostOneHeading(env: Env, params: seq<CType>, r: ArgumentTree, i: nat)
    requires IsArgumentTree(env, params, |params|, r) && i < |params| && !IsOutCallback(params[i])
    ensures forall fn :: (i, fn) in r.callbacks <==> IsFunctionPointer(params[i]) && fn == params[i].to
    ensures forall k | 0 <= k < |r.children| && r.children[k].0 == i ::
              IsAggregate(params[i]) && r.children[k].1 == TreeOf(env, params[i]) && TreeOf(env, params[i]).status.HasCallbacks?
    ensures IsAggregate(params[i]) && TreeOf(env, params[i]).status.HasCallbacks? ==> exists k | 0 <= k < |r.children| :: r.children[k].0 == i
    ensures !UnsupportedArgument(env, params[i])
  {
    hide TreeOf;
    var t := params[i];
    forall k | 0 <= k < |r.children| && r.children[k].0 == i
      ensures IsAggregate(t) && r.children[k].1 == TreeOf(env, t) && TreeOf(env, t).status.HasCallbacks?
    {
      assert (r.children[k].0, r.children[k].1) in r.children;
    }
    if IsAggregate(t) && TreeOf(env, t).status.HasCallbacks? {
      assert (i, TreeOf(env, t)) in r.children;
      var k :| 0 <= k < |r.children| && r.children[k] == (i, TreeOf(env, t));
    }
  }

  /** A pointer to a function of type fn, reached from argument i by the walk w without meeting null, is
      at address a. */
  ghost predicate Designates(env: Env, side: Side, params: seq<CType>, obj: Loc, data: map<Loc, Loc>, i: nat, w: seq<Step>, a: Loc, fn: CType) {
    && i < |params| && !IsOutCallback(params[i]) && FnWalk(env, params[i], w, fn)
    && SlotOf(side, data, side.memberAddress(obj, ArgName(i)), w) == Some(a)
  }

  lemma {:induction false} TopChildrenNamed(cs: seq<(nat, Tree)>, w: seq<Step>, fn: CType) returns (k: nat)
    requires w != [] && w[0].Member? && ChildrenWalk(TopChildren(cs), w, fn)
    ensures k < |cs| && w[0].name == ArgName(cs[k].0)
    decreases |cs|
  {
    k := 0;
    if !(ArgName(cs[0].0) == w[0].name && LeafWalk(cs[0].1, w[1..], fn)) {
      k := TopChildrenNamed(cs[1..], w, fn);
      k := k + 1;
    }
  }

  /** Every leaf of an argument list lies below some argument. */
  lemma TopWalkArgument(env: Env, params: seq<CType>, r: ArgumentTree, w: seq<Step>, fn: CType) returns (i: nat)
    requires IsArgumentTree(env, params, |params|, r) && MembersWalk(TopMembers(r), w, fn)
    ensures i < |params| && !IsOutCallback(params[i]) && w == [Member(ArgName(i))] + w[1..]
  {
    hide TreeOf, LeafWalk;
    if ChildrenWalk(TopChildren(r.children), w, fn) {
      var k := TopChildrenNamed(r.children, w, fn);
      assert (r.children[k].0, r.children[k].1) in r.children;
      i := r.children[k].0;
    } else {
      var k :| 0 <= k < |r.callbacks| && TopCallbacks(r.callbacks)[k] == (w[0].name, fn);
      assert (r.callbacks[k].0, r.callbacks[k].1) in r.callbacks;
      i := r.callbacks[k].0;
    }
  }

  lemma {:induction false} TopChildrenCarry(cs: seq<(nat, Tree)>)
    requires forall k | 0 <= k < |cs| :: cs[k].1.status.HasCallbacks? && Carries(cs[k].1.members)
    ensures CarriesChildren(TopChildren(cs))
    decreases |cs|
  {
    if cs != [] { TopChildrenCarry(cs[1..]); }
  }

  lemma ArgumentTreeCarries(env: Env, params: seq<CType>, r: ArgumentTree)
    requires IsArgumentTree(env, params, |params|, r)
    ensures Carries(TopMembers(r))
  {
    hide Build;
    forall k | 0 <= k < |r.children| ensures r.children[k].1.status.HasCallbacks? && Carries(r.children[k].1.members) {
      var (i, t) := r.children[k];
      assert (i, t) in r.children;
      UniverseIsClosed(env, params[i]);
      BuildCarries(env, Universe(env, params[i]), params[i], {});
    }
    TopChildrenCarry(r.children);
  }

  /** The slots the emitted code works on are exactly the function pointers that can be reached from the
      arguments, at any depth, without passing a null pointer, each under the type of its function:
      nothing is missed, nothing else touched. */
  lemma SlotsAreReachableCallbacks(env: Env, side: Side, params: seq<CType>, r: ArgumentTree, obj: Loc, data: map<Loc, Loc>, a: Loc, fn: CType)
    requires WellFormed(env) && (forall p | p in params :: !p.Fn?) && IsArgumentTree(env, params, |params|, r)
    ensures HasTarget(Targets(side, TopMembers(r), [], obj, data), a, fn)
            <==> exists i: nat, w :: Designates(env, side, params, obj, data, i, w, a, fn)
  {
    hide HasTarget, Targets, IsArgumentTree, MembersWalk, FnWalk, WellFormed, TopMembers, Carries;
    if HasTarget(Targets(side, TopMembers(r), [], obj, data), a, fn) {
      ArgumentTreeCarries(env, params, r);
      var v := TargetHasWalk(side, TopMembers(r), [], obj, data, a, fn);
      var i := TopWalkArgument(env, params, r, v, fn);
      ArgumentWalks(env, params, r, i, v[1..], fn);
      assert Designates(env, side, params, obj, data, i, v[1..], a, fn);
    }
    if i: nat, w :| Designates(env, side, params, obj, data, i, w, a, fn) {
      ArgumentWalks(env, params, r, i, w, fn);
      var v := [Member(ArgName(i))] + w;
      assert v[1..] == w;
      WalkHitsTarget(side, TopMembers(r), [], obj, data, v, fn);
    }
  }

  /** What the substituter resolves for an argument list are exactly the types of the functions that some
      walk from some argument reaches, out callbacks included. */
  lemma LooksUpExactly(env: Env, params: seq<CType>, r: ArgumentTree, c: CType)
    requires WellFormed(env) && (forall p | p in params :: !p.Fn?) && IsArgumentTree(env, params, |params|, r)
    ensures LooksUp(r, c) <==> exists i, w :: 0 <= i < |params| && FnWalk(env, params[i], w, c)
  {
    if LooksUp(r, c) { LookedUpIsReached(env, params, r, c); }
    if i, w :| 0 <= i < |params| && FnWalk(env, params[i], w, c) { ReachedIsLookedUp(env, params, r, i, w, c); }
  }

  lemma OutCallbackWalk(env: Env, t: CType, w: seq<Step>, c: CType)
    requires IsOutCallback(t)
    ensures FnWalk(env, t, w, c) <==> w == [Deref, Deref] && t == Ptr(Ptr(c)) && c.Fn?
  {
    FunctionPointerWalk(env, t.to, if w == [] then [] else w[1..], c);
    if w != [] && w[0] == Deref && w[1..] == [Deref] { assert w == [Deref] + [Deref]; }
  }

  lemma LookedUpIsReached(env: Env, params: seq<CType>, r: ArgumentTree, c: CType)
    requires WellFormed(env) && (forall p | p in params :: !p.Fn?) && IsArgumentTree(env, params, |params|, r) && LooksUp(r, c)
    ensures exists i, w :: 0 <= i < |params| && FnWalk(env, params[i], w, c)
  {
    hide FnWalk, Callees, TreeOf;
    if i: nat :| (i, c) in r.callbacks {
      FunctionPointerWalk(env, params[i], [Deref], c);
    } else if i: nat :| (i, c) in r.outCallbacks {
      OutCallbackWalk(env, params[i], [Deref, Deref], c);
    } else {
      var i: nat, t :| (i, t) in r.children && c in Callees(t);
      assert params[i] in params;
      TreeCarries(env, params[i]);
      var w := CalleeHasLeaf(t, c);
      AggregateWalk(env, params[i], w, c);
    }
  }

  lemma TreeCarries(env: Env, t: CType)
    ensures Carries(TreeOf(env, t).members)
  {
    hide Build;
    UniverseIsClosed(env, t);
    BuildCarries(env, Universe(env, t), t, {});
  }

  lemma ReachedIsLookedUp(env: Env, params: seq<CType>, r: ArgumentTree, i: int, w: seq<Step>, c: CType)
    requires WellFormed(env) && (forall p | p in params :: !p.Fn?) && IsArgumentTree(env, params, |params|, r)
    requires 0 <= i < |params| && FnWalk(env, params[i], w, c)
    ensures LooksUp(r, c)
  {
    hide FnWalk, Callees, TreeOf;
    var t, k: nat := params[i], i;
    assert t in params;
    if IsFunctionPointer(t) {
      FunctionPointerWalk(env, t, w, c);
      assert (k, c) in r.callbacks;
    } else if IsOutCallback(t) {
      OutCallbackWalk(env, t, w, c);
      assert (k, c) in r.outCallbacks;
    } else {
      AggregateWalk(env, t, w, c);
      assert (k, TreeOf(env, t)) in r.children;
      LeafIsCallee(TreeOf(env, t), w, c);
    }
  }

  /** The callees of a tree are the types at its leaves. */
  lemma {:induction false} CalleeHasLeaf(tree: Tree, c: CType) returns (w: seq<Step>)
    requires c in Callees(tree) && Carries(tree.members)
    ensures LeafWalk(tree, w, c)
    decreases tree
  {
    var m := tree.members;
    if x :| x in m.callbacks && x.1 == c {
      w := [Member(x.0), Deref];
      assert w[1..] == [Deref] && (w[0].name, c) == x;
    } else {
      w := ChildCalleeHasLeaf(m.children, c);
    }
    if tree.reach.ByPointer? {
      var v := w;
      w := [Deref] + v;
      assert w[1..] == v;
    }
  }

  lemma {:induction false} ChildCalleeHasLeaf(children: Children, c: CType) returns (w: seq<Step>)
    requires c in ChildrenCallees(children) && CarriesChildren(children)
    ensures w != [] && w[0].Member? && ChildrenWalk(children, w, c)
    decreases children
  {
    if c in Callees(children.tree) {
      var v := CalleeHasLeaf(children.tree, c);
      w := [Member(children.name)] + v;
      assert w[1..] == v;
    } else {
      w := ChildCalleeHasLeaf(children.rest, c);
    }
  }

  lemma {:induction false} LeafIsCallee(tree: Tree, w: seq<Step>, c: CType)
    requires LeafWalk(tree, w, c)
    ensures c in Callees(tree)
    decreases tree
  {
    var v := if tree.reach.ByPointer? then w[1..] else w;
    if ChildrenWalk(tree.members.children, v, c) {
      ChildLeafIsCallee(tree.members.children, v, c);
    } else {
      assert (v[0].name, c).1 == c;
    }
  }

  lemma {:induction false} ChildLeafIsCallee(children: Children, w: seq<Step>, c: CType)
    requires w != [] && w[0].Member? && ChildrenWalk(children, w, c)
    ensures c in ChildrenCallees(children)
    decreases children
  {
    if children.name == w[0].name && LeafWalk(children.tree, w[1..], c) {
      LeafIsCallee(children.tree, w[1..], c);
    } else {
      ChildLeafIsCallee(children.rest, w, c);
    }
  }

  /** What a callback slot holds during the call: a pointer with the original code behind it, which the
      receiver can call through the handler of a function type reached there. */
  ghost predicate HandedOver(side: Side, stubs: Stubs, mem: Memory, before: Machine, a: Loc, fn: CType) {
    && Callable(side.isHost, Handler(fn, side.guestCallback), ReadCode(before.mem.code, a))
    && Unwrap(before.stubs, ReadCode(before.mem.code, a)) == Unwrap(stubs, ReadCode(mem.code, a))
  }

  /** So every function pointer reachable from the arguments of a supported proc is handed over as one
      the receiver can call through the handler of its function type, unless walks to other types share
      its slot, when it is one of these; and after the call it is as it was exactly when it was wrapped
      and not null, or the call left it alone. */
  lemma ReachableCallbacksAreSubstituted(env: Env, side: Side, params: seq<CType>, r: ArgumentTree, obj: Loc, mem: Memory, stubs: Stubs,
                                         called: Machine, i: nat, w: seq<Step>, a: Loc, fn: CType)
    requires WellFormed(env) && (forall p | p in params :: !p.Fn?) && IsArgumentTree(env, params, |params|, r)
    requires Settled(Machine(mem, stubs, map[]))
    requires IsCall(side, TopMembers(r), obj, mem, Before(side, TopMembers(r), obj, mem, stubs), called)
    requires Designates(env, side, params, obj, mem.data, i, w, a, fn)
    ensures exists i': nat, w', fn' :: Designates(env, side, params, obj, mem.data, i', w', a, fn')
              && HandedOver(side, stubs, mem, Before(side, TopMembers(r), obj, mem, stubs), a, fn')
    ensures var end := After(side, TopMembers(r), obj, called);
            Unwrap(end.stubs, ReadCode(end.mem.code, a)) == Unwrap(stubs, ReadCode(mem.code, a))
            <==> Wraps(stubs, side.isHost, side.guestCallback, ReadCode(mem.code, a))
                 || Unwrap(called.stubs, ReadCode(called.mem.code, a)) == Unwrap(stubs, ReadCode(mem.code, a))
    ensures DistinctSlots(Targets(side, TopMembers(r), [], obj, mem.data)) ==>
              && HandedOver(side, stubs, mem, Before(side, TopMembers(r), obj, mem, stubs), a, fn)
              && (ReadCode(After(side, TopMembers(r), obj, called).mem.code, a) == ReadCode(mem.code, a)
                  <==> Wraps(stubs, side.isHost, side.guestCallback, ReadCode(mem.code, a)) || ReadCode(called.mem.code, a) == ReadCode(mem.code, a))
  {
    hide Targets, Before, After, IsArgumentTree, TopMembers, WellFormed, Settled, IsCall, Callable, Wraps, Designates, Unwrap;
    var ts := Targets(side, TopMembers(r), [], obj, mem.data);
    SlotsAreReachableCallbacks(env, side, params, r, obj, mem.data, a, fn);
    ArgumentTreeIsDistinct(env, params, r);
    assert HasSlot(ts, a);
    var k := LastTarget(ts, a);
    CallGetsCallables(side, TopMembers(r), obj, mem, stubs, k);
    SlotsAreReachableCallbacks(env, side, params, r, obj, mem.data, a, ts[k].callee);
    assert HandedOver(side, stubs, mem, Before(side, TopMembers(r), obj, mem, stubs), a, ts[k].callee);
    CallRestoresOrigins(side, TopMembers(r), obj, mem, stubs, called, a);
    if DistinctSlots(ts) {
      OneCallee(ts, k, fn);
      SlotIsRestored(side, TopMembers(r), obj, mem, stubs, called, a);
    }
  }

  lemma OneCallee(ts: seq<Target>, k: nat, fn: CType)
    requires DistinctSlots(ts) && k < |ts| && HasTarget(ts, ts[k].slot, fn)
    ensures ts[k].callee == fn
  {
  }
}
