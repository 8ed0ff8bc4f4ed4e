/** The tree of callbacks reachable from one argument, and how it is built from the type graph. */
module CallbackTree {
  import opened Wrappers
  import opened TypeGraph

  datatype Status = HasCallbacks | NoCallbacks | Unsupported
  datatype Reach = ByValue | ByPointer

  /** `members` holds the direct callbacks, by member name with the callee's function type, and the
      nested aggregates that carry callbacks themselves. */
  datatype Tree = Tree(status: Status, reach: Reach, members: Members)
  datatype Members = Members(callbacks: seq<(string, CType)>, children: Children)
  datatype Children = NoChild | Child(name: string, tree: Tree, rest: Children)

  const NoMembers := Members([], NoChild)
  const UnsupportedTree := Tree(Unsupported, ByValue, NoMembers)
  const NoCallbacksTree := Tree(NoCallbacks, ByValue, NoMembers)

  function Prepend(fd: Field, child: Tree, m: Members): Members {
    if child.status.HasCallbacks? then m.(children := Child(fd.name, child, m.children)) else m
  }

  // ----- what build computes -----

  /** `visited` are the member types on the path to T; u is a closed set of types, which bounds how
      often it can grow. */
  ghost function Build(env: Env, u: set<CType>, t: CType, visited: set<CType>): Tree
    requires Closed(env, u) && t in u && visited <= u
    decreases |u - visited|, 1, 0
  {
    if t.Ptr? && t.to.Ptr? && ReachesFunction(env, t.to.to) then UnsupportedTree
    else
      var target := if t.Ptr? then t.to else t;
      if target.Arr? && ReachesFunction(env, target.elem) then UnsupportedTree
      else if IsUnion(env, target) && ReachesFunction(env, target) then UnsupportedTree
      else if !target.Rec? then NoCallbacksTree
      else
        SubtermsInside(env, u, t);
        match BuildFields(env, u, FieldsOf(env, target), visited)
        case None => UnsupportedTree
        case Some(m) =>
          if m.callbacks == [] && m.children == NoChild then NoCallbacksTree
          else Tree(HasCallbacks, if t.Ptr? then ByPointer else ByValue, m)
  }

  ghost function BuildFields(env: Env, u: set<CType>, fields: seq<Field>, visited: set<CType>): Option<Members>
    requires Closed(env, u) && visited <= u && forall fd | fd in fields :: fd.fieldType in u
    decreases |u - visited|, 0, |fields|
  {
    if fields == [] then Some(NoMembers)
    else
      var fd, t := fields[0], fields[0].fieldType;
      if IsFunctionPointer(t) then
        match BuildFields(env, u, fields[1..], visited)
        case None => None
        case Some(m) => Some(m.(callbacks := [(fd.name, t.to)] + m.callbacks))
      else if t in visited then
        if ReachesFunction(env, t) then None else BuildFields(env, u, fields[1..], visited)
      else
        VisitedGrows(u, visited, t);
        var child := Build(env, u, t, visited + {t});
        if child.status.Unsupported? then None
        else
          match BuildFields(env, u, fields[1..], visited)
          case None => None
          case Some(m) => Some(Prepend(fd, child, m))
  }

  lemma VisitedGrows(u: set<CType>, visited: set<CType>, t: CType)
    requires t in u && t !in visited
    ensures |u - (visited + {t})| < |u - visited|
  {
    assert t in u - visited;
    SetShrinks(u - (visited + {t}), u - visited);
  }

  lemma SubtermsInside(env: Env, u: set<CType>, t: CType)
    requires Closed(env, u) && t in u
    ensures t.Ptr? ==> t.to in u
  {
    if t.Ptr? { SelfSubterm(t.to); }
  }

  // ----- walks in the tree -----

  /** `w` is a leaf of the tree with callee type fn: it dereferences ByPointer nodes, goes down child
      members, and ends by dereferencing a callback member. */
  ghost predicate LeafWalk(tree: Tree, w: seq<Step>, fn: CType)
    decreases tree
  {
    && tree.status.HasCallbacks?
    && (tree.reach.ByPointer? ==> w != [] && w[0] == Deref)
    && MembersWalk(tree.members, if tree.reach.ByPointer? then w[1..] else w, fn)
  }

  ghost predicate MembersWalk(m: Members, w: seq<Step>, fn: CType)
    decreases m
  {
    && w != [] && w[0].Member?
    && ((w[1..] == [Deref] && (w[0].name, fn) in m.callbacks) || ChildrenWalk(m.children, w, fn))
  }

  ghost predicate ChildrenWalk(children: Children, w: seq<Step>, fn: CType)
    requires w != [] && w[0].Member?
    decreases children
  {
    match children
    case NoChild => false
    case Child(name, tree, rest) => (name == w[0].name && LeafWalk(tree, w[1..], fn)) || ChildrenWalk(rest, w, fn)
  }

  /** `w` follows struct members held by value or behind one pointer, never meets the type of an
      earlier member again (`seen`), and ends at the function of a function-pointer member. */
  ghost predicate MarshalWalk(env: Env, t: CType, seen: set<CType>, w: seq<Step>)
    decreases |w|, 1
  {
    var target := if t.Ptr? then t.to else t;
    && (t.Ptr? ==> w != [] && w[0] == Deref)
    && target.Rec? && !(target.id in env && env[target.id].isUnion)
    && MarshalFields(env, FieldsOf(env, target), seen, if t.Ptr? then w[1..] else w)
  }

  ghost predicate MarshalFields(env: Env, fields: seq<Field>, seen: set<CType>, w: seq<Step>)
    decreases |w|, 0
  {
    && w != [] && w[0].Member?
    && exists fd | fd in fields ::
         && fd.name == w[0].name
         && if IsFunctionPointer(fd.fieldType) then w[1..] == [Deref]
            else fd.fieldType !in seen && MarshalWalk(env, fd.fieldType, seen + {fd.fieldType}, w[1..])
  }

  ghost predicate FieldsWalk(env: Env, fields: seq<Field>, w: seq<Step>, fn: CType) {
    && w != [] && w[0].Member?
    && exists fd | fd in fields :: fd.name == w[0].name && FnWalk(env, fd.fieldType, w[1..], fn)
  }

  ghost predicate DistinctNames(fields: seq<Field>) {
    forall i, j | 0 <= j < i < |fields| :: fields[j].name != fields[i].name
  }

  /** What build is called on: never a function or a pointer to one, which its callers handle. */
  ghost predicate Buildable(env: Env, u: set<CType>, t: CType, visited: set<CType>) {
    WellFormed(env) && Closed(env, u) && t in u && visited <= u && !t.Fn? && !IsFunctionPointer(t)
  }

  ghost predicate BuildableFields(env: Env, u: set<CType>, fields: seq<Field>, visited: set<CType>) {
    && WellFormed(env) && Closed(env, u) && visited <= u && DistinctNames(fields)
    && forall fd | fd in fields :: fd.fieldType in u && !fd.fieldType.Fn?
  }

  lemma FnWalkOfFields(env: Env, t: CType, w: seq<Step>, fn: CType)
    requires !t.Fn? && !IsFunctionPointer(t)
    requires var target := if t.Ptr? then t.to else t; target.Rec?
    ensures var target := if t.Ptr? then t.to else t;
            FnWalk(env, t, w, fn) <==>
              (t.Ptr? ==> w != [] && w[0] == Deref) && FieldsWalk(env, FieldsOf(env, target), if t.Ptr? then w[1..] else w, fn)
  {
  }

  lemma FieldsOfBuildable(env: Env, u: set<CType>, t: CType, visited: set<CType>)
    requires Buildable(env, u, t, visited)
    requires var target := if t.Ptr? then t.to else t; target.Rec?
    ensures BuildableFields(env, u, FieldsOf(env, if t.Ptr? then t.to else t), visited)
  {
    SubtermsInside(env, u, t);
    var target := if t.Ptr? then t.to else t;
    forall fd | fd in FieldsOf(env, target)
      ensures fd.fieldType in u && !fd.fieldType.Fn?
    {
      var i :| 0 <= i < |FieldsOf(env, target)| && FieldsOf(env, target)[i] == fd;
    }
  }

  lemma FirstAndRest(fields: seq<Field>)
    requires fields != [] && DistinctNames(fields)
    ensures DistinctNames(fields[1..])
    ensures forall fd | fd in fields :: fd == fields[0] || fd in fields[1..]
    ensures forall fd | fd in fields[1..] :: fd in fields && fd.name != fields[0].name
  {
  }

  // ----- the tree is exact -----

  /** The types build gives up on without a search: not records, so no member can be named. */
  lemma NonRecordHasNoWalk(env: Env, u: set<CType>, t: CType, visited: set<CType>, w: seq<Step>, fn: CType)
    requires Buildable(env, u, t, visited)
    requires !(if t.Ptr? then t.to else t).Rec?
    ensures Build(env, u, t, visited).status.NoCallbacks? ==> !FnWalk(env, t, w, fn)
    ensures !Build(env, u, t, visited).status.HasCallbacks?
  {
    if FnWalk(env, t, w, fn) {
      if t.Arr? {
        assert FnWalk(env, t.elem, w[1..], fn);
      } else {
        assert t.Ptr? && FnWalk(env, t.to, w[1..], fn);
        assert w[1..] != [];
        if t.to.Arr? {
          assert FnWalk(env, t.to.elem, w[1..][1..], fn);
        } else {
          assert FnWalk(env, t.to.to, w[1..][1..], fn);
        }
      }
    }
  }

  lemma {:induction false} BuildExact(env: Env, u: set<CType>, t: CType, visited: set<CType>, w: seq<Step>, fn: CType)
    requires Buildable(env, u, t, visited)
    ensures var tree := Build(env, u, t, visited);
            && (tree.status.NoCallbacks? ==> !FnWalk(env, t, w, fn))
            && (tree.status.HasCallbacks? ==> (FnWalk(env, t, w, fn) <==> LeafWalk(tree, w, fn)))
            && (tree.status.HasCallbacks? && LeafWalk(tree, w, fn) ==> MarshalWalk(env, t, visited, w))
    decreases |u - visited|, 1, 0
  {
    var target := if t.Ptr? then t.to else t;
    if !target.Rec? {
      NonRecordHasNoWalk(env, u, t, visited, w, fn);
    } else {
      FieldsOfBuildable(env, u, t, visited);
      FnWalkOfFields(env, t, w, fn);
      var v := if t.Ptr? && w != [] then w[1..] else w;
      BuildFieldsExact(env, u, FieldsOf(env, target), visited, v, fn);
      if IsUnion(env, target) && FnWalk(env, t, w, fn) {
        assert FnWalk(env, target, v, fn);
      }
    }
  }

  lemma {:induction false} BuildFieldsExact(env: Env, u: set<CType>, fields: seq<Field>, visited: set<CType>, w: seq<Step>, fn: CType)
    requires BuildableFields(env, u, fields, visited)
    ensures var m := BuildFields(env, u, fields, visited);
            m.Some? ==>
              && (FieldsWalk(env, fields, w, fn) <==> MembersWalk(m.value, w, fn))
              && (MembersWalk(m.value, w, fn) ==> MarshalFields(env, fields, visited, w))
    decreases |u - visited|, 0, |fields|
  {
    hide FnWalk, MarshalWalk, LeafWalk, FieldsWalk, MarshalFields, MembersWalk, Build;
    if fields == [] {
      NoFieldsNoWalk(env, visited, w, fn);
    } else if BuildFields(env, u, fields, visited).Some? {
      var fd, t := fields[0], fields[0].fieldType;
      FirstAndRest(fields);
      BuildFieldsExact(env, u, fields[1..], visited, w, fn);
      if IsFunctionPointer(t) {
        FunctionPointerWalk(env, t, if w == [] then [] else w[1..], fn);
        CallbackMemberWalks(fd, BuildFields(env, u, fields[1..], visited).value, w, fn);
      } else if t !in visited {
        VisitedGrows(u, visited, t);
        BuildExact(env, u, t, visited + {t}, if w == [] then [] else w[1..], fn);
        ChildMemberWalks(fd, Build(env, u, t, visited + {t}), BuildFields(env, u, fields[1..], visited).value, w, fn);
      }
      FieldsWalkSplits(env, fields, visited, w, fn);
    }
  }

  lemma NoFieldsNoWalk(env: Env, visited: set<CType>, w: seq<Step>, fn: CType)
    ensures !FieldsWalk(env, [], w, fn) && !MarshalFields(env, [], visited, w) && !MembersWalk(NoMembers, w, fn)
  {
  }

  lemma FunctionPointerWalk(env: Env, t: CType, w: seq<Step>, fn: CType)
    requires IsFunctionPointer(t)
    ensures FnWalk(env, t, w, fn) <==> w == [Deref] && fn == t.to
  {
    if w != [] && w[0] == Deref { assert w == [Deref] + w[1..]; }
  }

  lemma CallbackMemberWalks(fd: Field, m: Members, w: seq<Step>, fn: CType)
    requires IsFunctionPointer(fd.fieldType)
    ensures MembersWalk(m.(callbacks := [(fd.name, fd.fieldType.to)] + m.callbacks), w, fn) <==>
              (w != [] && w[0] == Member(fd.name) && w[1..] == [Deref] && fn == fd.fieldType.to) || MembersWalk(m, w, fn)
  {
    assert forall c :: c in [(fd.name, fd.fieldType.to)] + m.callbacks <==> c == (fd.name, fd.fieldType.to) || c in m.callbacks;
  }

  lemma ChildMemberWalks(fd: Field, child: Tree, m: Members, w: seq<Step>, fn: CType)
    ensures MembersWalk(Prepend(fd, child, m), w, fn) <==>
              (w != [] && w[0] == Member(fd.name) && LeafWalk(child, w[1..], fn)) || MembersWalk(m, w, fn)
  {
  }

  lemma FieldsWalkSplits(env: Env, fields: seq<Field>, visited: set<CType>, w: seq<Step>, fn: CType)
    requires fields != [] && DistinctNames(fields)
    ensures FieldsWalk(env, fields, w, fn) <==>
              (w != [] && w[0] == Member(fields[0].name) && FnWalk(env, fields[0].fieldType, w[1..], fn)) || FieldsWalk(env, fields[1..], w, fn)
    ensures MarshalFields(env, fields, visited, w) <==>
              (w != [] && w[0] == Member(fields[0].name) &&
                 if IsFunctionPointer(fields[0].fieldType) then w[1..] == [Deref]
                 else fields[0].fieldType !in visited && MarshalWalk(env, fields[0].fieldType, visited + {fields[0].fieldType}, w[1..]))
              || MarshalFields(env, fields[1..], visited, w)
  {
    FirstAndRest(fields);
  }

  // ----- the status is exact -----

  /** A tree with callbacks has a leaf. */
  lemma {:induction false} HasCallbacksHasWalk(env: Env, u: set<CType>, t: CType, visited: set<CType>) returns (w: seq<Step>, fn: CType)
    requires Buildable(env, u, t, visited) && Build(env, u, t, visited).status.HasCallbacks?
    ensures FnWalk(env, t, w, fn)
    decreases |u - visited|, 1, 0
  {
    var target := if t.Ptr? then t.to else t;
    FieldsOfBuildable(env, u, t, visited);
    var v, callee := MembersHaveWalk(env, u, FieldsOf(env, target), visited);
    w, fn := if t.Ptr? then [Deref] + v else v, callee;
    assert t.Ptr? ==> w[1..] == v;
    FnWalkOfFields(env, t, w, fn);
  }

  lemma {:induction false} MembersHaveWalk(env: Env, u: set<CType>, fields: seq<Field>, visited: set<CType>) returns (w: seq<Step>, fn: CType)
    requires BuildableFields(env, u, fields, visited)
    requires var m := BuildFields(env, u, fields, visited); m.Some? && m.value != NoMembers
    ensures FieldsWalk(env, fields, w, fn)
    decreases |u - visited|, 0, |fields|
  {
    var fd, t := fields[0], fields[0].fieldType;
    FirstAndRest(fields);
    if IsFunctionPointer(t) {
      w, fn := [Member(fd.name), Deref], t.to;
      assert w[1..] == [Deref];
      FunctionPointerWalk(env, t, w[1..], fn);
    } else if t !in visited && (VisitedGrows(u, visited, t); Build(env, u, t, visited + {t}).status.HasCallbacks?) {
      var v, callee := HasCallbacksHasWalk(env, u, t, visited + {t});
      w, fn := [Member(fd.name)] + v, callee;
      assert w[1..] == v;
    } else {
      w, fn := MembersHaveWalk(env, u, fields[1..], visited);
    }
  }

  /** An unsupported type has a walk to a function that cannot be marshalled. */
  lemma {:induction false} UnsupportedHasBadWalk(env: Env, u: set<CType>, t: CType, visited: set<CType>) returns (w: seq<Step>, fn: CType)
    requires Buildable(env, u, t, visited) && Build(env, u, t, visited).status.Unsupported?
    ensures FnWalk(env, t, w, fn) && !MarshalWalk(env, t, visited, w)
    decreases |u - visited|, 1, 0
  {
    var target := if t.Ptr? then t.to else t;
    if t.Ptr? && t.to.Ptr? {
      var v, callee :| FnWalk(env, t.to.to, v, callee);
      w, fn := [Deref, Deref] + v, callee;
      assert w[1..] == [Deref] + v && w[1..][1..] == v;
      assert FnWalk(env, t.to, w[1..], fn);
    } else if target.Arr? {
      var v, callee :| FnWalk(env, target.elem, v, callee);
      assert ([Index] + v)[1..] == v;
      assert FnWalk(env, target, [Index] + v, callee);
      fn := callee;
      w := if t.Ptr? then [Deref] + ([Index] + v) else [Index] + v;
      assert t.Ptr? ==> w[1..] == [Index] + v;
    } else if IsUnion(env, target) && ReachesFunction(env, target) {
      var v, callee :| FnWalk(env, target, v, callee);
      w, fn := if t.Ptr? then [Deref] + v else v, callee;
      assert t.Ptr? ==> w[1..] == v;
    } else {
      FieldsOfBuildable(env, u, t, visited);
      var v, callee := UnsupportedFieldHasBadWalk(env, u, FieldsOf(env, target), visited);
      w, fn := if t.Ptr? then [Deref] + v else v, callee;
      assert t.Ptr? ==> w[1..] == v;
      FnWalkOfFields(env, t, w, fn);
    }
  }

  lemma {:induction false} UnsupportedFieldHasBadWalk(env: Env, u: set<CType>, fields: seq<Field>, visited: set<CType>) returns (w: seq<Step>, fn: CType)
    requires BuildableFields(env, u, fields, visited) && BuildFields(env, u, fields, visited).None?
    ensures FieldsWalk(env, fields, w, fn) && !MarshalFields(env, fields, visited, w)
    decreases |u - visited|, 0, |fields|
  {
    var fd, t := fields[0], fields[0].fieldType;
    FirstAndRest(fields);
    if !IsFunctionPointer(t) && t in visited && ReachesFunction(env, t) {
      var v, callee :| FnWalk(env, t, v, callee);
      w, fn := [Member(fd.name)] + v, callee;
      assert w[1..] == v;
    } else if !IsFunctionPointer(t) && t !in visited
              && (VisitedGrows(u, visited, t); Build(env, u, t, visited + {t}).status.Unsupported?) {
      var v, callee := UnsupportedHasBadWalk(env, u, t, visited + {t});
      w, fn := [Member(fd.name)] + v, callee;
      assert w[1..] == v;
    } else {
      w, fn := UnsupportedFieldHasBadWalk(env, u, fields[1..], visited);
      assert w[0].name != fd.name;
    }
    FieldsWalkSplits(env, fields, visited, w, fn);
  }

  /** What `build` decides, on any type but a function or a pointer to one: NoCallbacks exactly when
      no function is reachable, Unsupported exactly when some walk to a function is not an access
      path through structs held by value or behind one pointer (or meets a member type twice), and
      otherwise a tree whose leaves are exactly the walks to a function, each with the type of the function
      it arrives at. */
  lemma BuildClassifies(env: Env, u: set<CType>, t: CType, visited: set<CType>)
    requires Buildable(env, u, t, visited)
    ensures var tree := Build(env, u, t, visited);
            && (tree.status.NoCallbacks? <==> !ReachesFunction(env, t))
            && (tree.status.Unsupported? <==> exists w, fn :: FnWalk(env, t, w, fn) && !MarshalWalk(env, t, visited, w))
            && (tree.status.HasCallbacks? ==> forall w, fn :: FnWalk(env, t, w, fn) <==> LeafWalk(tree, w, fn))
  {
    hide FnWalk, MarshalWalk, LeafWalk, Build;
    var tree := Build(env, u, t, visited);
    forall w, fn
      ensures tree.status.NoCallbacks? ==> !FnWalk(env, t, w, fn)
      ensures tree.status.HasCallbacks? ==> (FnWalk(env, t, w, fn) <==> LeafWalk(tree, w, fn))
      ensures tree.status.HasCallbacks? && FnWalk(env, t, w, fn) ==> MarshalWalk(env, t, visited, w)
    {
      BuildExact(env, u, t, visited, w, fn);
    }
    if tree.status.Unsupported? {
      var w, fn := UnsupportedHasBadWalk(env, u, t, visited);
      assert FnWalk(env, t, w, fn) && !MarshalWalk(env, t, visited, w);
    } else if tree.status.HasCallbacks? {
      var w, fn := HasCallbacksHasWalk(env, u, t, visited);
    }
  }

  // ----- the pass itself -----

  function AppendChildren(a: Children, b: Children): Children {
    match a
    case NoChild => b
    case Child(name, tree, rest) => Child(name, tree, AppendChildren(rest, b))
  }

  function Append(a: Members, b: Members): Members {
    Members(a.callbacks + b.callbacks, AppendChildren(a.children, b.children))
  }

  ghost function AppendTo(a: Option<Members>, b: Option<Members>): Option<Members> {
    if a.None? || b.None? then None else Some(Append(a.value, b.value))
  }

  lemma {:induction false} AppendChildrenAssociates(a: Children, b: Children, c: Children)
    ensures AppendChildren(AppendChildren(a, b), c) == AppendChildren(a, AppendChildren(b, c))
  {
    if a.Child? { AppendChildrenAssociates(a.rest, b, c); }
  }

  lemma AppendAssociates(a: Members, b: Members, c: Members)
    ensures Append(Append(a, b), c) == Append(a, Append(b, c))
  {
    AppendChildrenAssociates(a.children, b.children, c.children);
  }

  lemma {:induction false} AppendNothing(a: Children)
    ensures AppendChildren(a, NoChild) == a
  {
    if a.Child? { AppendNothing(a.rest); }
  }

  function AddCallback(node: Members, fd: Field): Members
    requires IsFunctionPointer(fd.fieldType)
  {
    node.(callbacks := node.callbacks + [(fd.name, fd.fieldType.to)])
  }

  function AddChild(node: Members, fd: Field, child: Tree): Members {
    if child.status.HasCallbacks? then node.(children := AppendChildren(node.children, Child(fd.name, child, NoChild))) else node
  }

  /** What one iteration of build's field loop makes of a field; None to give up. */
  ghost function Iterate(env: Env, u: set<CType>, fd: Field, visited: set<CType>, node: Members): Option<Members>
    requires Closed(env, u) && visited <= u && fd.fieldType in u
  {
    if IsFunctionPointer(fd.fieldType) then Some(AddCallback(node, fd))
    else if fd.fieldType in visited then (if ReachesFunction(env, fd.fieldType) then None else Some(node))
    else
      var child := Build(env, u, fd.fieldType, visited + {fd.fieldType});
      if child.status.Unsupported? then None else Some(AddChild(node, fd, child))
  }

  /** One iteration of build's field loop: what was collected so far, then the remaining fields. */
  lemma FieldIteration(env: Env, u: set<CType>, fields: seq<Field>, i: nat, visited: set<CType>, node: Members)
    requires Closed(env, u) && visited <= u && i < |fields| && forall fd | fd in fields :: fd.fieldType in u
    ensures AppendTo(Some(node), BuildFields(env, u, fields[i..], visited))
            == AppendTo(Iterate(env, u, fields[i], visited, node), BuildFields(env, u, fields[i + 1..], visited))
  {
    hide Closed, ReachesFunction, Build;
    var fd, ft := fields[i], fields[i].fieldType;
    var rest := BuildFields(env, u, fields[i + 1..], visited);
    assert fields[i..][0] == fd && fields[i..][1..] == fields[i + 1..];
    assert node.callbacks + [] == node.callbacks;
    AppendNothing(node.children);
    if rest.Some? {
      if IsFunctionPointer(ft) {
        AppendAssociates(node, Members([(fd.name, ft.to)], NoChild), rest.value);
      } else if ft !in visited {
        VisitedGrows(u, visited, ft);
        var child := Build(env, u, ft, visited + {ft});
        var one := Members([], Child(fd.name, child, NoChild));
        AppendAssociates(node, one, rest.value);
        assert child.status.HasCallbacks? ==> Append(one, rest.value) == Prepend(fd, child, rest.value) by {
          assert [] + rest.value.callbacks == rest.value.callbacks;
          assert AppendChildren(NoChild, rest.value.children) == rest.value.children;
        }
        assert child.status.HasCallbacks? ==> Append(node, one) == AddChild(node, fd, child);
      }
    }
  }

  /** `CallbackTree::build`. `visited` is shared by the whole recursion and handed back unchanged. */
  method BuildTree(env: Env, ghost u: set<CType>, t: CType, visited: set<CType>) returns (tree: Tree, after: set<CType>)
    requires Closed(env, u) && t in u && visited <= u
    ensures tree == Build(env, u, t, visited) && after == visited
    decreases |u - visited|, 1
  {
    hide ReachesFunction, Closed, BuildFields;
    after := visited;
    var target, throughPointer := t, false;
    if t.Ptr? {
      if t.to.Ptr? {
        var found := ContainsFunctionPointer(env, t.to.to);
        if found { return UnsupportedTree, after; }
      }
      target, throughPointer := t.to, true;
    }
    if target.Arr? {
      var found := ContainsFunctionPointer(env, target.elem);
      if found { return UnsupportedTree, after; }
    }
    if IsUnion(env, target) {
      var found := ContainsFunctionPointer(env, target);
      if found { return UnsupportedTree, after; }
    }
    if !target.Rec? { return NoCallbacksTree, after; }

    SubtermsInside(env, u, t);
    FieldTypesInside(env, u, target);
    var node: Option<Members>;
    node, after := CollectFields(env, u, FieldsOf(env, target), visited);
    if node.None? { return UnsupportedTree, after; }
    if node.value.callbacks == [] && node.value.children == NoChild { return NoCallbacksTree, after; }
    tree := Tree(HasCallbacks, if throughPointer then ByPointer else ByValue, node.value);
  }

  /** build's loop over the fields of a record; None when it returns `unsupported()`. */
  method CollectFields(env: Env, ghost u: set<CType>, fields: seq<Field>, visited: set<CType>) returns (r: Option<Members>, after: set<CType>)
    requires Closed(env, u) && visited <= u && forall fd | fd in fields :: fd.fieldType in u
    ensures r == BuildFields(env, u, fields, visited) && after == visited
    decreases |u - visited|, 0
  {
    hide ReachesFunction, Closed, BuildFields, Build;
    after := visited;
    var node := NoMembers;
    AppendToNothing(env, u, fields, visited);
    for i := 0 to |fields|
      invariant after == visited
      invariant BuildFields(env, u, fields, visited) == AppendTo(Some(node), BuildFields(env, u, fields[i..], visited))
    {
      var fd := fields[i];
      FieldIteration(env, u, fields, i, visited, node);
      if IsFunctionPointer(fd.fieldType) {
        node := AddCallback(node, fd);
        continue;
      }
      if fd.fieldType in after {
        var found := ContainsFunctionPointer(env, fd.fieldType);
        if found { return None, after; }
        continue;
      }
      VisitedGrows(u, visited, fd.fieldType);
      var child: Tree;
      child, after := BuildTree(env, u, fd.fieldType, after + {fd.fieldType});
      after := after - {fd.fieldType};
      if child.status.Unsupported? { return None, after; }
      node := AddChild(node, fd, child);
    }
    NoFieldsLeft(env, u, visited, node);
    assert fields[|fields|..] == [];
    r := Some(node);
  }

  lemma AppendToNothing(env: Env, u: set<CType>, fields: seq<Field>, visited: set<CType>)
    requires Closed(env, u) && visited <= u && forall fd | fd in fields :: fd.fieldType in u
    ensures fields[0..] == fields
    ensures AppendTo(Some(NoMembers), BuildFields(env, u, fields, visited)) == BuildFields(env, u, fields, visited)
  {
    hide BuildFields;
    var m := BuildFields(env, u, fields, visited);
    if m.Some? { assert [] + m.value.callbacks == m.value.callbacks; }
  }

  lemma NoFieldsLeft(env: Env, u: set<CType>, visited: set<CType>, node: Members)
    requires Closed(env, u) && visited <= u
    ensures AppendTo(Some(node), BuildFields(env, u, [], visited)) == Some(node)
  {
    AppendNothing(node.children);
    assert node.callbacks + [] == node.callbacks;
  }

  lemma FieldTypesInside(env: Env, u: set<CType>, t: CType)
    requires Closed(env, u) && t in u && t.Rec?
    ensures forall fd | fd in FieldsOf(env, t) :: fd.fieldType in u
  {
  }

  /** The tree of one argument type, as `buildArgumentTree` asks for it. */
  ghost function TreeOf(env: Env, t: CType): Tree {
    UniverseIsClosed(env, t);
    Build(env, Universe(env, t), t, {})
  }

  /** The arguments of one proc, by position: callbacks passed in, pointers the callee fills with a
      callback, and aggregates carrying callbacks. */
  datatype ArgumentTree = ArgumentTree(status: Status, callbacks: seq<(nat, CType)>, children: seq<(nat, Tree)>, outCallbacks: seq<(nat, CType)>)

  predicate IsOutCallback(t: CType) { t.Ptr? && IsFunctionPointer(t.to) }

  ghost predicate UnsupportedArgument(env: Env, t: CType) {
    !IsFunctionPointer(t) && !(t.Ptr? && IsFunctionPointer(t.to)) && TreeOf(env, t).status.Unsupported?
  }

  predicate IsAggregate(t: CType) { !IsFunctionPointer(t) && !IsOutCallback(t) }

  /** The list names exactly the callback arguments among the first n, in order. */
  ghost predicate ListsCallbacks(params: seq<CType>, n: nat, cs: seq<(nat, CType)>)
    requires n <= |params|
  {
    && (forall i: nat, c :: (i, c) in cs <==> i < n && c.Fn? && params[i] == Ptr(c))
    && (forall i, j | 0 <= i < j < |cs| :: cs[i].0 < cs[j].0)
  }

  ghost predicate ListsOutCallbacks(params: seq<CType>, n: nat, cs: seq<(nat, CType)>)
    requires n <= |params|
  {
    && (forall i: nat, c :: (i, c) in cs <==> i < n && c.Fn? && params[i] == Ptr(Ptr(c)))
    && (forall i, j | 0 <= i < j < |cs| :: cs[i].0 < cs[j].0)
  }

  ghost predicate ListsAggregates(env: Env, params: seq<CType>, n: nat, cs: seq<(nat, Tree)>)
    requires n <= |params|
  {
    && (forall i: nat, t :: (i, t) in cs <==>
          i < n && !IsFunctionPointer(params[i]) && !(params[i].Ptr? && IsFunctionPointer(params[i].to))
          && t == TreeOf(env, params[i]) && t.status.HasCallbacks?)
    && (forall i, j | 0 <= i < j < |cs| :: cs[i].0 < cs[j].0)
    && (forall i | 0 <= i < n :: !UnsupportedArgument(env, params[i]))
  }

  ghost predicate IsArgumentTree(env: Env, params: seq<CType>, n: nat, r: ArgumentTree)
    requires n <= |params|
  {
    && ListsCallbacks(params, n, r.callbacks)
    && ListsOutCallbacks(params, n, r.outCallbacks)
    && ListsAggregates(env, params, n, r.children)
  }

  lemma OneMoreCallback(params: seq<CType>, n: nat, cs: seq<(nat, CType)>)
    requires n < |params| && ListsCallbacks(params, n, cs)
    ensures ListsCallbacks(params, n + 1, if IsFunctionPointer(params[n]) then cs + [(n, params[n].to)] else cs)
  {
    forall k | 0 <= k < |cs| ensures cs[k].0 < n { assert (cs[k].0, cs[k].1) in cs; }
    if IsFunctionPointer(params[n]) {
      var last := (n, params[n].to);
      OneMorePair(cs, last);
      var now := cs + [last];
      forall i: nat, c: CType ensures (i, c) in now <==> i < n + 1 && c.Fn? && params[i] == Ptr(c) {
        assert (i, c) in now <==> (i, c) in cs || (i, c) == last;
      }
      assert ListsCallbacks(params, n + 1, now);
    }
  }

  lemma OneMorePair(cs: seq<(nat, CType)>, last: (nat, CType))
    requires forall i, j | 0 <= i < j < |cs| :: cs[i].0 < cs[j].0
    requires forall k | 0 <= k < |cs| :: cs[k].0 < last.0
    ensures forall x :: x in cs + [last] <==> x in cs || x == last
    ensures forall i, j | 0 <= i < j < |cs + [last]| :: (cs + [last])[i].0 < (cs + [last])[j].0
  {
  }

  lemma OneMoreOutCallback(params: seq<CType>, n: nat, cs: seq<(nat, CType)>)
    requires n < |params| && ListsOutCallbacks(params, n, cs)
    ensures ListsOutCallbacks(params, n + 1, if IsOutCallback(params[n]) then cs + [(n, params[n].to.to)] else cs)
  {
    forall k | 0 <= k < |cs| ensures cs[k].0 < n { assert (cs[k].0, cs[k].1) in cs; }
    if IsOutCallback(params[n]) {
      var last := (n, params[n].to.to);
      OneMorePair(cs, last);
      var now := cs + [last];
      forall i: nat, c: CType ensures (i, c) in now <==> i < n + 1 && c.Fn? && params[i] == Ptr(Ptr(c)) {
        assert (i, c) in now <==> (i, c) in cs || (i, c) == last;
      }
      assert ListsOutCallbacks(params, n + 1, now);
    }
  }

  lemma OneMoreAggregate(env: Env, params: seq<CType>, n: nat, cs: seq<(nat, Tree)>)
    requires n < |params| && ListsAggregates(env, params, n, cs)
    requires !UnsupportedArgument(env, params[n])
    ensures ListsAggregates(env, params, n + 1,
              if IsAggregate(params[n]) && TreeOf(env, params[n]).status.HasCallbacks? then cs + [(n, TreeOf(env, params[n]))] else cs)
  {
    hide TreeOf;
    forall k | 0 <= k < |cs| ensures cs[k].0 < n { assert (cs[k].0, cs[k].1) in cs; }
  }

  class CallbackSubstituterPass {
    const env: Env
    var treeCache: map<CType, Tree>

    constructor (env: Env)
      ensures Valid() && this.env == env
    {
      this.env := env;
      treeCache := map[];
    }

    ghost predicate Valid()
      reads this
    {
      forall t | t in treeCache :: treeCache[t] == TreeOf(env, t)
    }

    method CachedTree(t: CType) returns (tree: Tree)
      requires Valid()
      modifies this
      ensures Valid() && tree == TreeOf(env, t)
    {
      hide Build;
      if t !in treeCache {
        UniverseIsClosed(env, t);
        var built, _ := BuildTree(env, Universe(env, t), t, {});
        treeCache := treeCache[t := built];
      }
      tree := treeCache[t];
    }

    lemma NoneUnsupported(params: seq<CType>, cs: seq<(nat, Tree)>)
      requires ListsAggregates(env, params, |params|, cs)
      ensures forall i | 0 <= i < |params| :: !UnsupportedArgument(env, params[i])
    {
    }

    lemma NothingListed(params: seq<CType>)
      ensures ListsCallbacks(params, 0, []) && ListsOutCallbacks(params, 0, []) && ListsAggregates(env, params, 0, [])
    {
    }

    /** `buildArgumentTree`: Unsupported when some aggregate argument is, NoCallbacks when nothing
        needs wrapping, otherwise every argument is listed under exactly the heading it belongs to. */
    method BuildArgumentTree(params: seq<CType>) returns (r: ArgumentTree)
      requires Valid()
      modifies this
      ensures Valid()
      ensures r.status.Unsupported? <==> exists i | 0 <= i < |params| :: UnsupportedArgument(env, params[i])
      ensures !r.status.Unsupported? ==> IsArgumentTree(env, params, |params|, r)
      ensures r.status.NoCallbacks? <==> !r.status.Unsupported? && r.callbacks == [] && r.children == [] && r.outCallbacks == []
    {
      NothingListed(params);
      hide TreeOf, ListsCallbacks, ListsOutCallbacks, ListsAggregates;
      r := ArgumentTree(HasCallbacks, [], [], []);
      for i := 0 to |params|
        invariant Valid() && r.status.HasCallbacks? && IsArgumentTree(env, params, i, r)
      {
        var t := params[i];
        OneMoreCallback(params, i, r.callbacks);
        OneMoreOutCallback(params, i, r.outCallbacks);
        if !UnsupportedArgument(env, t) { OneMoreAggregate(env, params, i, r.children); }
        if IsFunctionPointer(t) {
          r := r.(callbacks := r.callbacks + [(i, t.to)]);
        } else if IsOutCallback(t) {
          r := r.(outCallbacks := r.outCallbacks + [(i, t.to.to)]);
        } else {
          var tree := CachedTree(t);
          if tree.status.Unsupported? {
            return ArgumentTree(Unsupported, [], [], []);
          }
          if tree.status.HasCallbacks? {
            r := r.(children := r.children + [(i, tree)]);
          }
        }
      }
      NoneUnsupported(params, r.children);
      if r.callbacks == [] && r.children == [] && r.outCallbacks == [] {
        r := r.(status := NoCallbacks);
      }
    }
  }
}
