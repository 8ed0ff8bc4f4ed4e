/** C types as a graph: records refer to their fields through an environment, so a type may reach
    itself. Types are canonical, and two types are equal when their type strings are. */
module TypeGraph {

  datatype CType =
    | Prim(name: string)
    | Ptr(to: CType)
    | Arr(elem: CType)
    | Fn(ret: CType, params: seq<CType>)     // without a prototype: no parameters
    | Rec(id: string)

  const Void := Prim("void")

  datatype Field = Field(name: string, fieldType: CType)
  datatype Record = Record(isUnion: bool, fields: seq<Field>)

  type Env = map<string, Record>

  predicate IsFunctionPointer(t: CType) { t.Ptr? && t.to.Fn? }

  /** `getDecl()->fields()`; a record that is only declared has none. */
  function FieldsOf(env: Env, t: CType): seq<Field>
    requires t.Rec?
  {
    if t.id in env then env[t.id].fields else []
  }

  predicate IsUnion(env: Env, t: CType) { t.Rec? && t.id in env && env[t.id].isUnion }

  /** No field has a function type, only pointers to functions, as in C; and member names are distinct,
      which is a premise: anonymous members all have the empty name. */
  ghost predicate WellFormed(env: Env) {
    forall id, i | id in env && 0 <= i < |env[id].fields| ::
      && !env[id].fields[i].fieldType.Fn?
      && forall j | 0 <= j < i :: env[id].fields[j].name != env[id].fields[i].name
  }

  // ----- walks -----

  datatype Step = Deref | Index | Member(name: string)

  /** Following `w` from a value of type t arrives at a function of type fn. */
  ghost predicate FnWalk(env: Env, t: CType, w: seq<Step>, fn: CType)
    decreases |w|
  {
    if w == [] then t.Fn? && t == fn
    else match w[0]
      case Deref => t.Ptr? && FnWalk(env, t.to, w[1..], fn)
      case Index => t.Arr? && FnWalk(env, t.elem, w[1..], fn)
      case Member(f) =>
        t.Rec? && t.id in env && exists fd | fd in env[t.id].fields :: fd.name == f && FnWalk(env, fd.fieldType, w[1..], fn)
  }

  ghost predicate ReachesFunction(env: Env, t: CType) {
    exists w, fn :: FnWalk(env, t, w, fn)
  }

  // ----- the finite set of types a walk can meet -----

  function Subterms(t: CType): set<CType> {
    match t
    case Prim(_) => {t}
    case Ptr(to) => {t} + Subterms(to)
    case Arr(elem) => {t} + Subterms(elem)
    case Fn(ret, params) => {t} + Subterms(ret) + set p, x | p in params && x in Subterms(p) :: x
    case Rec(_) => {t}
  }

  lemma {:induction false} SubtermsNest(t: CType, x: CType, y: CType)
    requires x in Subterms(t) && y in Subterms(x)
    ensures y in Subterms(t)
    decreases t
  {
    if x != t {
      match t
      case Prim(_) =>
      case Ptr(to) => SubtermsNest(to, x, y);
      case Arr(elem) => SubtermsNest(elem, x, y);
      case Rec(_) =>
      case Fn(ret, params) =>
        if x in Subterms(ret) {
          SubtermsNest(ret, x, y);
        } else {
          var p :| p in params && x in Subterms(p);
          SubtermsNest(p, x, y);
        }
    }
  }

  lemma SelfSubterm(t: CType)
    ensures t in Subterms(t)
  {
  }

  function Universe(env: Env, t: CType): set<CType> {
    Subterms(t) + set id, i, x | id in env && 0 <= i < |env[id].fields| && x in Subterms(env[id].fields[i].fieldType) :: x
  }

  /** A set of types closed under taking parts and under record fields. */
  ghost predicate Closed(env: Env, u: set<CType>) {
    && (forall x, y | x in u && y in Subterms(x) :: y in u)
    && (forall x, fd | x in u && x.Rec? && fd in FieldsOf(env, x) :: fd.fieldType in u)
  }

  lemma UniverseIsClosed(env: Env, t: CType)
    ensures Closed(env, Universe(env, t)) && t in Universe(env, t)
  {
    var u := Universe(env, t);
    forall x, y | x in u && y in Subterms(x)
      ensures y in u
    {
      if x in Subterms(t) {
        SubtermsNest(t, x, y);
      } else {
        var id, i :| id in env && 0 <= i < |env[id].fields| && x in Subterms(env[id].fields[i].fieldType);
        SubtermsNest(env[id].fields[i].fieldType, x, y);
      }
    }
    forall x, fd | x in u && x.Rec? && fd in FieldsOf(env, x)
      ensures fd.fieldType in u
    {
      var i :| 0 <= i < |env[x.id].fields| && env[x.id].fields[i] == fd;
      SelfSubterm(fd.fieldType);
    }
    SelfSubterm(t);
  }

  // ----- containsFunctionPointer -----

  /** Removing all outer pointers and arrays. */
  function Strip(t: CType): CType {
    match t
    case Ptr(to) => Strip(to)
    case Arr(elem) => Strip(elem)
    case _ => t
  }

  lemma {:induction false} StripWalks(env: Env, t: CType)
    ensures ReachesFunction(env, Strip(t)) ==> ReachesFunction(env, t)
    ensures Strip(t) in Subterms(t)
  {
    match t
    case Ptr(to) =>
      StripWalks(env, to);
      if w, fn :| FnWalk(env, to, w, fn) { assert FnWalk(env, t, [Deref] + w, fn) by { assert ([Deref] + w)[1..] == w; } }
    case Arr(elem) =>
      StripWalks(env, elem);
      if w, fn :| FnWalk(env, elem, w, fn) { assert FnWalk(env, t, [Index] + w, fn) by { assert ([Index] + w)[1..] == w; } }
    case _ =>
  }

  lemma FieldReaches(env: Env, t: CType, fd: Field)
    requires t.Rec? && fd in FieldsOf(env, t) && ReachesFunction(env, fd.fieldType)
    ensures ReachesFunction(env, t)
  {
    var w, fn :| FnWalk(env, fd.fieldType, w, fn);
    assert ([Member(fd.name)] + w)[1..] == w;
    assert FnWalk(env, t, [Member(fd.name)] + w, fn);
  }

  /** The visited set explains every field it owes except through the stack. */
  ghost predicate VisitedUpTo(env: Env, stack: seq<CType>, visited: set<CType>) {
    forall v, fd | v in visited && v.Rec? && fd in FieldsOf(env, v) :: fd.fieldType in stack || Strip(fd.fieldType) in visited
  }

  lemma {:induction false} VisitedHasNoWalk(env: Env, visited: set<CType>, t: CType, w: seq<Step>, fn: CType)
    requires VisitedUpTo(env, [], visited) && Strip(t) in visited
    requires forall v | v in visited :: !v.Fn?
    ensures !FnWalk(env, t, w, fn)
    decreases |w|
  {
    if w != [] {
      match w[0]
      case Deref => if t.Ptr? { VisitedHasNoWalk(env, visited, t.to, w[1..], fn); }
      case Index => if t.Arr? { VisitedHasNoWalk(env, visited, t.elem, w[1..], fn); }
      case Member(f) =>
        if t.Rec? {
          forall fd | fd in FieldsOf(env, t)
            ensures !FnWalk(env, fd.fieldType, w[1..], fn)
          {
            VisitedHasNoWalk(env, visited, fd.fieldType, w[1..], fn);
          }
        }
    }
  }

  /** The loop invariant: everything stacked is part of t's walk, everything reached and not a
      function is visited or still owed by the stack. */
  ghost predicate WalkInv(env: Env, t: CType, u: set<CType>, stack: seq<CType>, visited: set<CType>) {
    && (forall x | x in stack :: x in u && (ReachesFunction(env, x) ==> ReachesFunction(env, t)))
    && visited <= u && (forall v | v in visited :: !v.Fn?)
    && (t in stack || Strip(t) in visited)
    && VisitedUpTo(env, stack, visited)
  }

  lemma PopSeen(env: Env, t: CType, u: set<CType>, stack: seq<CType>, visited: set<CType>, top: CType)
    requires WalkInv(env, t, u, stack + [top], visited) && Strip(top) in visited
    ensures WalkInv(env, t, u, stack, visited)
  {
    hide Strip, ReachesFunction;
    assert forall x | x in stack :: x in stack + [top];
  }

  lemma PopNew(env: Env, t: CType, u: set<CType>, stack: seq<CType>, visited: set<CType>, top: CType, pushed: seq<CType>)
    requires Closed(env, u) && WalkInv(env, t, u, stack + [top], visited)
    requires !Strip(top).Fn? && stack <= pushed
    requires Strip(top).Rec? ==> forall fd | fd in FieldsOf(env, Strip(top)) :: fd.fieldType in pushed
    requires forall x | x in pushed ::
               x in stack || (Strip(top).Rec? && exists fd | fd in FieldsOf(env, Strip(top)) :: fd.fieldType == x)
    ensures WalkInv(env, t, u, pushed, visited + {Strip(top)})
  {
    StripWalks(env, top);
    hide Strip, ReachesFunction;
    var s := Strip(top);
    assert top in stack + [top] && forall x | x in stack :: x in stack + [top] && x in pushed;
    forall x | x in pushed
      ensures x in u && (ReachesFunction(env, x) ==> ReachesFunction(env, t))
    {
      if x !in stack {
        var fd :| fd in FieldsOf(env, s) && fd.fieldType == x;
        if ReachesFunction(env, x) { FieldReaches(env, s, fd); }
      }
    }
  }

  /** `CallbackTree::containsFunctionPointer`: a worklist with one visited set for the whole walk. */
  method ContainsFunctionPointer(env: Env, t: CType) returns (found: bool)
    ensures found <==> ReachesFunction(env, t)
  {
    ghost var u := Universe(env, t);
    UniverseIsClosed(env, t);
    hide Universe, Closed, Strip;
    var stack, visited := [t], {};
    while stack != []
      invariant WalkInv(env, t, u, stack, visited)
      decreases |u - visited|, |stack|
    {
      hide FnWalk, ReachesFunction;
      var top, rest := stack[|stack| - 1], stack[..|stack| - 1];
      assert stack == rest + [top];
      stack := rest;
      var stripped := StripOuter(top);
      if stripped in visited {
        PopSeen(env, t, u, rest, visited, top);
        continue;
      }
      StrippedIsNew(env, t, u, rest + [top], visited, top);
      if stripped.Fn? {
        return true;
      }
      if stripped.Rec? {
        stack := PushFieldTypes(FieldsOf(env, stripped), stack);
      }
      PopNew(env, t, u, rest, visited, top, stack);
      visited := visited + {stripped};
    }
    forall w, fn ensures !FnWalk(env, t, w, fn) { VisitedHasNoWalk(env, visited, t, w, fn); }
    return false;
  }

  lemma StrippedIsNew(env: Env, t: CType, u: set<CType>, stack: seq<CType>, visited: set<CType>, top: CType)
    requires Closed(env, u) && WalkInv(env, t, u, stack, visited) && top in stack && Strip(top) !in visited
    ensures |u - (visited + {Strip(top)})| < |u - visited|
    ensures Strip(top).Fn? ==> ReachesFunction(env, t)
  {
    StripWalks(env, top);
    assert Strip(top) in u - visited;
    SetShrinks(u - (visited + {Strip(top)}), u - visited);
    if Strip(top).Fn? { assert FnWalk(env, Strip(top), [], Strip(top)); }
  }

  method StripOuter(t: CType) returns (r: CType)
    ensures r == Strip(t)
  {
    r := t;
    while r.Ptr? || r.Arr?
      invariant Strip(r) == Strip(t)
      decreases r
    {
      r := if r.Ptr? then r.to else r.elem;
    }
  }

  method PushFieldTypes(fields: seq<Field>, stack: seq<CType>) returns (r: seq<CType>)
    ensures stack <= r
    ensures forall fd | fd in fields :: fd.fieldType in r
    ensures forall x | x in r :: x in stack || exists fd | fd in fields :: fd.fieldType == x
  {
    r := stack;
    for i := 0 to |fields|
      invariant stack <= r
      invariant forall k | 0 <= k < i :: fields[k].fieldType in r
      invariant forall x | x in r :: x in stack || exists fd | fd in fields :: fd.fieldType == x
    {
      r := r + [fields[i].fieldType];
    }
  }

  lemma SetShrinks<T>(a: set<T>, b: set<T>)
    requires a < b
    ensures |a| < |b|
  {
    var d := b - a;
    assert b == a + d && d != {};
  }
}
