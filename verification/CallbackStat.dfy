/** The worklist of TLC `stat`: which function-pointer types a type can meet, and the summary that
    records them. */
module CallbackStat {
  import opened TypeGraph

  /** What the worklist pushes for a function: its return type unless void, then its parameters. */
  function Signature(fn: CType): seq<CType>
    requires fn.Fn?
  {
    (if fn.ret == Void then [] else [fn.ret]) + fn.params
  }

  function FieldTypes(fields: seq<Field>): seq<CType> {
    seq(|fields|, i requires 0 <= i < |fields| => fields[i].fieldType)
  }

  /** The types the worklist visits next after t. */
  function Next(env: Env, t: CType): seq<CType> {
    match t
    case Ptr(to) => if to.Fn? then Signature(to) else [to]
    case Arr(elem) => [elem]
    case Rec(_) => FieldTypes(FieldsOf(env, t))
    case _ => []
  }

  ghost predicate IsPath(env: Env, p: seq<CType>) {
    p != [] && forall i | 0 <= i < |p| - 1 :: p[i + 1] in Next(env, p[i])
  }

  /** t is met from s through pointers, arrays, fields and signatures of function pointers. */
  ghost predicate Reaches(env: Env, s: CType, t: CType) {
    exists p :: IsPath(env, p) && p[0] == s && p[|p| - 1] == t
  }

  ghost predicate ReachedFromSome(env: Env, seeds: seq<CType>, t: CType) {
    exists s | s in seeds :: Reaches(env, s, t)
  }

  lemma ReachesSelf(env: Env, t: CType)
    ensures Reaches(env, t, t)
  {
    assert IsPath(env, [t]);
  }

  lemma ReachesStep(env: Env, s: CType, t: CType, n: CType)
    requires Reaches(env, s, t) && n in Next(env, t)
    ensures Reaches(env, s, n)
  {
    var p :| IsPath(env, p) && p[0] == s && p[|p| - 1] == t;
    hide Next;
    var q := p + [n];
    forall i | 0 <= i < |q| - 1 ensures q[i + 1] in Next(env, q[i]) {
      if i < |p| - 1 { assert p[i + 1] in Next(env, p[i]); }
    }
    assert IsPath(env, q) && q[0] == s && q[|q| - 1] == n;
  }

  lemma ReachesTransitive(env: Env, s: CType, t: CType, v: CType)
    requires Reaches(env, s, t) && Reaches(env, t, v)
    ensures Reaches(env, s, v)
  {
    var p :| IsPath(env, p) && p[0] == s && p[|p| - 1] == t;
    var q :| IsPath(env, q) && q[0] == t && q[|q| - 1] == v;
    var r := p + q[1..];
    assert IsPath(env, r) by {
      forall i | 0 <= i < |r| - 1 ensures r[i + 1] in Next(env, r[i]) {
        if i >= |p| - 1 { assert r[i] == q[i - (|p| - 1)] && r[i + 1] == q[i - (|p| - 1) + 1]; }
      }
    }
    assert r[|r| - 1] == v;
  }

  /** A set closed under Next contains everything reached from its members. */
  lemma {:induction false} ClosedSetHoldsPath(env: Env, c: set<CType>, p: seq<CType>)
    requires IsPath(env, p) && p[0] in c && forall x, n | x in c && n in Next(env, x) :: n in c
    ensures p[|p| - 1] in c
    decreases |p|
  {
    if |p| > 1 {
      assert p[1] in Next(env, p[0]);
      assert IsPath(env, p[1..]) by {
        forall i | 0 <= i < |p[1..]| - 1 ensures p[1..][i + 1] in Next(env, p[1..][i]) { assert p[i + 2] in Next(env, p[i + 1]); }
      }
      ClosedSetHoldsPath(env, c, p[1..]);
    }
  }

  // ----- the same as walks over types -----

  /** One step of a walk. Return and Param lead through a function pointer. */
  datatype Hop = Pointee | Element | FieldNamed(name: string) | Return | Param(k: nat)

  ghost predicate Hops(env: Env, t: CType, h: Hop, n: CType) {
    match h
    case Pointee => t.Ptr? && !t.to.Fn? && n == t.to
    case Element => t.Arr? && n == t.elem
    case FieldNamed(name) => t.Rec? && t.id in env && Field(name, n) in env[t.id].fields
    case Return => IsFunctionPointer(t) && t.to.ret != Void && n == t.to.ret
    case Param(k) => IsFunctionPointer(t) && k < |t.to.params| && n == t.to.params[k]
  }

  /** The walk w leads from t to v. */
  ghost predicate Arrives(env: Env, t: CType, w: seq<Hop>, v: CType)
    decreases |w|
  {
    if w == [] then t == v else exists n :: Hops(env, t, w[0], n) && Arrives(env, n, w[1..], v)
  }

  /** The worklist pushes exactly what one step leads to. */
  lemma NextIsHop(env: Env, t: CType, n: CType)
    ensures n in Next(env, t) <==> exists h :: Hops(env, t, h, n)
  {
    if n in Next(env, t) {
      match t
      case Ptr(to) =>
        if to.Fn? {
          if n in to.params {
            var k :| 0 <= k < |to.params| && to.params[k] == n;
            assert Hops(env, t, Param(k), n);
          } else {
            assert Hops(env, t, Return, n);
          }
        } else {
          assert Hops(env, t, Pointee, n);
        }
      case Arr(elem) => assert Hops(env, t, Element, n);
      case Rec(_) =>
        var i :| 0 <= i < |FieldsOf(env, t)| && FieldsOf(env, t)[i].fieldType == n;
        assert Field(FieldsOf(env, t)[i].name, n) == FieldsOf(env, t)[i];
        assert Hops(env, t, FieldNamed(FieldsOf(env, t)[i].name), n);
      case _ =>
    }
    if h :| Hops(env, t, h, n) {
      if h.FieldNamed? {
        var i :| 0 <= i < |FieldsOf(env, t)| && FieldsOf(env, t)[i] == Field(h.name, n);
        assert FieldTypes(FieldsOf(env, t))[i] == n;
      }
    }
  }

  lemma {:induction false} PathIsWalk(env: Env, p: seq<CType>) returns (w: seq<Hop>)
    requires IsPath(env, p)
    ensures Arrives(env, p[0], w, p[|p| - 1])
    decreases |p|
  {
    hide Next, Hops;
    w := [];
    if |p| > 1 {
      assert p[1] in Next(env, p[0]);
      assert IsPath(env, p[1..]) by {
        forall i | 0 <= i < |p[1..]| - 1 ensures p[1..][i + 1] in Next(env, p[1..][i]) { assert p[i + 2] in Next(env, p[i + 1]); }
      }
      var rest := PathIsWalk(env, p[1..]);
      NextIsHop(env, p[0], p[1]);
      var h :| Hops(env, p[0], h, p[1]);
      w := [h] + rest;
      assert w[1..] == rest;
    }
  }

  lemma {:induction false} WalkReaches(env: Env, t: CType, w: seq<Hop>, v: CType)
    requires Arrives(env, t, w, v)
    ensures Reaches(env, t, v)
    decreases |w|
  {
    hide Next, Hops, Reaches;
    ReachesSelf(env, t);
    if w != [] {
      var n :| Hops(env, t, w[0], n) && Arrives(env, n, w[1..], v);
      NextIsHop(env, t, n);
      ReachesStep(env, t, t, n);
      WalkReaches(env, n, w[1..], v);
      ReachesTransitive(env, t, n, v);
    }
  }

  lemma ReachesIsWalk(env: Env, t: CType, v: CType)
    ensures Reaches(env, t, v) <==> exists w :: Arrives(env, t, w, v)
  {
    if Reaches(env, t, v) {
      var p :| IsPath(env, p) && p[0] == t && p[|p| - 1] == v;
      var w := PathIsWalk(env, p);
    }
    if w :| Arrives(env, t, w, v) { WalkReaches(env, t, w, v); }
  }

  lemma {:induction false} WalksJoin(env: Env, t: CType, a: seq<Hop>, m: CType, b: seq<Hop>, v: CType)
    requires Arrives(env, t, a, m) && Arrives(env, m, b, v)
    ensures Arrives(env, t, a + b, v)
    decreases |a|
  {
    hide Hops;
    if a == [] {
      assert a + b == b;
    } else {
      var n :| Hops(env, t, a[0], n) && Arrives(env, n, a[1..], m);
      WalksJoin(env, n, a[1..], m, b, v);
      assert (a + b)[0] == a[0] && (a + b)[1..] == a[1..] + b;
    }
  }

  lemma NextInside(env: Env, u: set<CType>, t: CType)
    requires Closed(env, u) && t in u
    ensures forall n | n in Next(env, t) :: n in u
  {
    forall n | n in Next(env, t) ensures n in u {
      match t
      case Ptr(to) =>
        SelfSubterm(to);
        SelfSubterm(n);
        if to.Fn? { assert n in Subterms(to); }
      case Arr(elem) => SelfSubterm(elem);
      case Rec(_) =>
        var i :| 0 <= i < |FieldsOf(env, t)| && FieldsOf(env, t)[i].fieldType == n;
        assert FieldsOf(env, t)[i] in FieldsOf(env, t);
      case _ =>
    }
  }

  // ----- the summary -----

  datatype Direction = GuestToHost | HostToGuest

  datatype PerDirection<T> = PerDirection(guestToHost: T, hostToGuest: T)
  {
    function At(d: Direction): T { if d.GuestToHost? then guestToHost else hostToGuest }

    function With(d: Direction, x: T): PerDirection<T> { if d.GuestToHost? then this.(guestToHost := x) else this.(hostToGuest := x) }
  }

  /** The part of ManifestSummary stat fills: configured functions and callback signatures with
      their aliases. */
  class ManifestSummary {
    var functions: PerDirection<set<string>>
    var missingFunctions: PerDirection<set<string>>
    var callbacks: map<CType, string>

    constructor ()
      ensures functions == PerDirection({}, {}) == missingFunctions && callbacks == map[]
    {
      functions, missingFunctions, callbacks := PerDirection({}, {}), PerDirection({}, {}), map[];
    }

    /** The configured functions that were found, in either direction. */
    function AllFunctions(): set<string>
      reads this`functions
    {
      functions.guestToHost + functions.hostToGuest
    }

    /** `addCallbackSignature`: the first alias that is not empty stays. */
    method AddCallbackSignature(signature: CType, alias: string)
      modifies this`callbacks
      ensures callbacks.Keys == old(callbacks.Keys) + {signature}
      ensures forall s | s in old(callbacks) && (s != signature || old(callbacks)[s] != "") :: callbacks[s] == old(callbacks)[s]
      ensures signature !in old(callbacks) || old(callbacks)[signature] == "" ==> callbacks[signature] == alias
    {
      var known := if signature in callbacks then callbacks[signature] else "";
      callbacks := callbacks[signature := if alias != "" && known == "" then alias else known];
    }
  }

  /** What a collection starts from: a type, the alias it prefers for it, whether the type itself is a
      callback (or only a function whose signature is met), and the typedef names known at the time. */
  datatype Seed = Seed(root: CType, alias: string, included: bool, named: map<CType, string>)

  /** From root the callback type t is met: some walk arrives there, and not the empty one when the root
      is not included. */
  ghost predicate Meets(env: Env, root: CType, included: bool, t: CType) {
    IsFunctionPointer(t) && exists w :: Arrives(env, root, w, t) && (included || w != [])
  }

  /** Where the worklist starts: the seed, or the signature of the function it points to. */
  function Starts(seed: Seed): seq<CType> {
    if !seed.included && IsFunctionPointer(seed.root) then Signature(seed.root.to) else [seed.root]
  }

  /** Starting there, the worklist meets the same callbacks. */
  lemma StartsMeet(env: Env, seed: Seed, t: CType)
    ensures Meets(env, seed.root, seed.included, t) <==> IsFunctionPointer(t) && ReachedFromSome(env, Starts(seed), t)
  {
    hide Reaches, Next;
    if IsFunctionPointer(t) && ReachedFromSome(env, Starts(seed), t) {
      var s :| s in Starts(seed) && Reaches(env, s, t);
      ReachesIsWalk(env, s, t);
      var w :| Arrives(env, s, w, t);
      if !seed.included && IsFunctionPointer(seed.root) {
        SignatureIsNext(env, seed.root);
        NextIsHop(env, seed.root, s);
        var h :| Hops(env, seed.root, h, s);
        assert ([h] + w)[0] == h && ([h] + w)[1..] == w;
        assert Arrives(env, seed.root, [h] + w, t);
      }
    }
    if Meets(env, seed.root, seed.included, t) {
      var w :| Arrives(env, seed.root, w, t) && (seed.included || w != []);
      if !seed.included && IsFunctionPointer(seed.root) {
        var n :| Hops(env, seed.root, w[0], n) && Arrives(env, n, w[1..], t);
        NextIsHop(env, seed.root, n);
        SignatureIsNext(env, seed.root);
        WalkReaches(env, n, w[1..], t);
        assert n in Starts(seed);
      } else {
        WalkReaches(env, seed.root, w, t);
        assert seed.root in Starts(seed);
      }
    }
  }

  lemma SignatureIsNext(env: Env, t: CType)
    requires IsFunctionPointer(t)
    ensures Next(env, t) == Signature(t.to)
  {
  }

  ghost predicate CollectInv(env: Env, u: set<CType>, seeds: seq<CType>, stack: seq<CType>, visited: set<CType>) {
    && (forall x | x in stack :: x in u && ReachedFromSome(env, seeds, x))
    && visited <= u
    && (forall v | v in visited :: ReachedFromSome(env, seeds, v))
    && (forall s | s in seeds :: s in stack || s in visited)
    && (forall v, n | v in visited && n in Next(env, v) :: n in stack || n in visited)
  }

  lemma CollectStarts(env: Env, u: set<CType>, seeds: seq<CType>)
    requires Closed(env, u) && forall s | s in seeds :: s in u
    ensures CollectInv(env, u, seeds, seeds, {})
  {
    forall s | s in seeds ensures Reaches(env, s, s) { ReachesSelf(env, s); }
  }

  lemma CollectSeen(env: Env, u: set<CType>, seeds: seq<CType>, stack: seq<CType>, top: CType, visited: set<CType>)
    requires CollectInv(env, u, seeds, stack + [top], visited) && top in visited
    ensures CollectInv(env, u, seeds, stack, visited)
  {
    hide ReachedFromSome;
    assert forall x | x in stack :: x in stack + [top];
  }

  lemma CollectNew(env: Env, u: set<CType>, seeds: seq<CType>, stack: seq<CType>, top: CType, visited: set<CType>)
    requires Closed(env, u) && CollectInv(env, u, seeds, stack + [top], visited) && top !in visited
    ensures CollectInv(env, u, seeds, stack + Next(env, top), visited + {top})
    ensures |u - (visited + {top})| < |u - visited|
  {
    hide Reaches, Next;
    assert top in stack + [top] && forall x | x in stack :: x in stack + [top];
    NextInside(env, u, top);
    var s :| s in seeds && Reaches(env, s, top);
    forall n | n in Next(env, top) ensures ReachedFromSome(env, seeds, n) { ReachesStep(env, s, top, n); }
    assert top in u - visited;
    SetShrinks(u - (visited + {top}), u - visited);
  }

  lemma CollectDone(env: Env, u: set<CType>, seeds: seq<CType>, visited: set<CType>, t: CType)
    requires CollectInv(env, u, seeds, [], visited)
    ensures t in visited <==> ReachedFromSome(env, seeds, t)
  {
    if s :| s in seeds && Reaches(env, s, t) {
      var p :| IsPath(env, p) && p[0] == s && p[|p| - 1] == t;
      ClosedSetHoldsPath(env, visited, p);
    }
  }

  /** The alias a callback met from a seed gets: only the seed itself carries the preferred one. */
  function AliasFor(seed: Seed, t: CType): string {
    if seed.alias != "" && t == seed.root && seed.included then seed.alias
    else if t in seed.named then seed.named[t] else ""
  }

  /** The callbacks among the visited types have been recorded; one without an alias got its own. */
  ghost predicate Gained(before: map<CType, string>, now: map<CType, string>, visited: set<CType>, alias: CType -> string) {
    && (forall t :: t in now <==> t in before || (IsFunctionPointer(t) && t in visited))
    && (forall t | t in now ::
          now[t] == if t in before && (before[t] != "" || !IsFunctionPointer(t) || t !in visited) then before[t] else alias(t))
  }

  method RecordVisited(summary: ManifestSummary, t: CType, alias: CType -> string, ghost before: map<CType, string>, ghost visited: set<CType>)
    requires Gained(before, summary.callbacks, visited, alias) && t !in visited
    modifies summary`callbacks
    ensures Gained(before, summary.callbacks, visited + {t}, alias)
  {
    if IsFunctionPointer(t) {
      summary.AddCallbackSignature(t, alias(t));
      assert forall s :: s in summary.callbacks <==> s in summary.callbacks.Keys;
    }
  }

  /** `now` is `before` plus the callbacks that the seed meets; an alias once set stays, and a callback
      without one gets the preferred alias if it is the seed, or else the name of its typedef. */
  ghost predicate GainedFrom(env: Env, before: map<CType, string>, now: map<CType, string>, seed: Seed) {
    && (forall t :: t in now <==> t in before || Meets(env, seed.root, seed.included, t))
    && (forall t | t in now ::
          now[t] == if t in before && (before[t] != "" || !Meets(env, seed.root, seed.included, t)) then before[t] else AliasFor(seed, t))
  }

  /** `collectCallbackSignatures`. */
  method CollectCallbackSignatures(summary: ManifestSummary, env: Env, seed: Seed)
    modifies summary`callbacks
    ensures GainedFrom(env, old(summary.callbacks), summary.callbacks, seed)
  {
    hide *;
    var alias := t => AliasFor(seed, t);
    ghost var seeds := Starts(seed);
    var stack := StartStack(seed);
    ghost var u := CollectPrepared(env, seed);
    ghost var before := summary.callbacks;
    var visited := {};
    GainedNothing(before, alias);
    while stack != []
      invariant CollectInv(env, u, seeds, stack, visited)
      invariant Gained(before, summary.callbacks, visited, alias)
      decreases |u - visited|, |stack|
    {
      var top, rest := stack[|stack| - 1], stack[..|stack| - 1];
      assert stack == rest + [top];
      stack := rest;
      if top in visited {
        CollectSeen(env, u, seeds, rest, top, visited);
        continue;
      }
      CollectNew(env, u, seeds, rest, top, visited);
      RecordVisited(summary, top, alias, before, visited);
      visited := visited + {top};
      stack := PushNext(env, rest, top);
    }
    CollectFinished(env, u, visited, before, summary.callbacks, seed, alias);
  }

  lemma GainedNothing(before: map<CType, string>, alias: CType -> string)
    ensures Gained(before, before, {}, alias)
  {
  }

  lemma CollectFinished(env: Env, u: set<CType>, visited: set<CType>, before: map<CType, string>, now: map<CType, string>,
                        seed: Seed, alias: CType -> string)
    requires CollectInv(env, u, Starts(seed), [], visited) && Gained(before, now, visited, alias)
    requires forall t :: alias(t) == AliasFor(seed, t)
    ensures GainedFrom(env, before, now, seed)
  {
    hide CollectInv, Starts, Meets, ReachedFromSome;
    forall t ensures Meets(env, seed.root, seed.included, t) <==> IsFunctionPointer(t) && t in visited {
      CollectDone(env, u, Starts(seed), visited, t);
      StartsMeet(env, seed, t);
    }
  }

  lemma CollectPrepared(env: Env, seed: Seed) returns (u: set<CType>)
    ensures Closed(env, u) && CollectInv(env, u, Starts(seed), Starts(seed), {})
  {
    u := Universe(env, seed.root);
    UniverseIsClosed(env, seed.root);
    StartsInside(env, u, seed);
    CollectStarts(env, u, Starts(seed));
  }

  method StartStack(seed: Seed) returns (stack: seq<CType>)
    ensures stack == Starts(seed)
  {
    if seed.included || !IsFunctionPointer(seed.root) {
      stack := [seed.root];
    } else {
      stack := PushSignature([], seed.root.to);
    }
  }

  lemma StartsInside(env: Env, u: set<CType>, seed: Seed)
    requires Closed(env, u) && seed.root in u
    ensures forall s | s in Starts(seed) :: s in u
  {
    NextInside(env, u, seed.root);
  }

  function PushSignature(stack: seq<CType>, fn: CType): seq<CType>
    requires fn.Fn?
  {
    (if fn.ret != Void then stack + [fn.ret] else stack) + fn.params
  }

  method PushNext(env: Env, stack: seq<CType>, t: CType) returns (r: seq<CType>)
    ensures r == stack + Next(env, t)
  {
    r := stack;
    if IsFunctionPointer(t) {
      r := PushSignature(r, t.to);
    } else if t.Ptr? {
      r := r + [t.to];
    } else if t.Arr? {
      r := r + [t.elem];
    } else if t.Rec? {
      var fields := FieldsOf(env, t);
      for i := 0 to |fields|
        invariant r == stack + FieldTypes(fields)[..i]
      {
        assert FieldTypes(fields)[..i + 1] == FieldTypes(fields)[..i] + [fields[i].fieldType];
        r := r + [fields[i].fieldType];
      }
      assert FieldTypes(fields)[..|fields|] == FieldTypes(fields);
    }
  }
}
