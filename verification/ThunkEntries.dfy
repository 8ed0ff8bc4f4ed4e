/** The entries of the thunk database (ThunkDatabase.cpp): how a JSON document describes them, how
    one document is layered over another, and what a lookup by name or alias means. */
module ThunkEntries {
  import opened Wrappers
  import J = JsonValue
  import VarExp

  /** Entries are plain C structs, so every text in them ends at its first NUL. */
  datatype ForwardThunk = ForwardThunk(name: string, alias: seq<string>, guestThunk: string, hostThunk: string, hostLibrary: string)

  datatype ReversedThunk = ReversedThunk(name: string, alias: seq<string>, fileName: string, thunks: seq<string>)

  /** A forward entry and the whole name it is stored under. */
  datatype Forward = Forward(key: string, thunk: ForwardThunk)

  datatype Reversed = Reversed(key: string, thunk: ReversedThunk)

  type Vars = map<string, string>

  const NUL: char := 0 as char

  /** What `c_str()` shows of a string. */
  function CStr(s: string): (r: string)
    ensures r <= s && NUL !in r && (|r| < |s| ==> s[|r|] == 0 as char)
    ensures NUL !in s ==> r == s
  {
    if s == "" || s[0] == NUL then "" else [s[0]] + CStr(s[1..])
  }

  function CStrs(ss: seq<string>): (r: seq<string>)
    ensures |r| == |ss| && forall k | 0 <= k < |r| :: r[k] == CStr(ss[k])
  {
    if ss == [] then [] else [CStr(ss[0])] + CStrs(ss[1..])
  }

  // ----- JSON to entries -----

  function Text(b: J.bytes): (r: string)
    ensures |r| == |b| && forall k | 0 <= k < |r| :: r[k] == b[k] as char
  {
    seq(|b|, i requires 0 <= i < |b| => b[i] as char)
  }

  function Field(obj: seq<J.Member>, key: string): Option<J.Json> {
    if obj == [] then None else if Text(obj[0].key) == key then Some(obj[0].value) else Field(obj[1..], key)
  }

  /** `jsonString`: a string that is there and not empty. */
  function JsonString(obj: seq<J.Member>, key: string): Option<string> {
    var f := Field(obj, key);
    if f.Some? && f.value.Str? && f.value.s != [] then Some(Text(f.value.s)) else None
  }

  /** `jsonStringArray`: the non-empty strings of an array. */
  function JsonStringArray(obj: seq<J.Member>, key: string): seq<string> {
    var f := Field(obj, key);
    if f.Some? && f.value.Array? then NonEmptyStrings(f.value.items) else []
  }

  function NonEmptyStrings(items: seq<J.Json>): seq<string> {
    if items == [] then []
    else (if items[0].Str? && items[0].s != [] then [Text(items[0].s)] else []) + NonEmptyStrings(items[1..])
  }

  function Var(vars: Vars, name: string): string { if name in vars then vars[name] else "" }

  /** A field that is a path: left out it takes a default, if there is one; otherwise its ${...} are
      expanded. A field of the wrong type gives nothing. */
  function PathField(obj: seq<J.Member>, key: string, vars: Vars, missing: Option<string>): Option<string> {
    if Field(obj, key).None? then missing
    else match JsonString(obj, key)
      case None => None
      case Some(path) => Some(VarExp.Expand(path, name => Var(vars, name)))
  }

  function Under(dir: string, file: string): Option<string> { if dir == "" then None else Some(dir + "/" + file) }

  function MakeForward(name: string, alias: seq<string>, guest: string, host: string, library: string): Forward {
    Forward(name, ForwardThunk(CStr(name), CStrs(alias), CStr(guest), CStr(host), CStr(library)))
  }

  /** The entry an item of "forwardThunks" describes; an incomplete item describes none. */
  function ForwardOf(item: J.Json, vars: Vars): (r: Option<Forward>)
    ensures r.Some? ==> r.value.key != "" && r.value.thunk.name == CStr(r.value.key)
  {
    var gtl, htl := Var(vars, "GTL_DIR"), Var(vars, "HTL_DIR");
    match item
    case Str(s) =>
      var name := Text(s);
      if name != "" && gtl != "" && htl != ""
      then Some(MakeForward(name, [], gtl + "/" + name + ".so", htl + "/" + name + "_HTL.so", name + ".so")) else None
    case Object(obj) =>
      (match JsonString(obj, "name")
       case None => None
       case Some(name) =>
         var guest := PathField(obj, "guestThunk", vars, Under(gtl, name + ".so"));
         var host := PathField(obj, "hostThunk", vars, Under(htl, name + "_HTL.so"));
         var library := PathField(obj, "hostLibrary", vars, Some(name + ".so"));
         if guest.None? || host.None? || library.None? then None
         else Some(MakeForward(name, JsonStringArray(obj, "alias"), guest.value, host.value, library.value)))
    case _ => None
  }

  function ReversedOf(item: J.Json): (r: Option<Reversed>)
    ensures r.Some? ==> r.value.key != "" && r.value.thunk.name == CStr(r.value.key)
  {
    match item
    case Object(obj) =>
      (match JsonString(obj, "name")
       case None => None
       case Some(name) =>
         match JsonString(obj, "fileName")
         case None => None
         case Some(file) =>
           Some(Reversed(name, ReversedThunk(CStr(name), CStrs(JsonStringArray(obj, "alias")), CStr(file),
                                             CStrs(JsonStringArray(obj, "thunks"))))))
    case _ => None
  }

  function ForwardsOf(items: seq<J.Json>, vars: Vars): (r: seq<Forward>)
    ensures forall e | e in r :: e.thunk.name == CStr(e.key)
  {
    if items == [] then []
    else (match ForwardOf(items[0], vars) case None => [] case Some(e) => [e]) + ForwardsOf(items[1..], vars)
  }

  function ReversedsOf(items: seq<J.Json>): seq<Reversed> {
    if items == [] then []
    else (match ReversedOf(items[0]) case None => [] case Some(e) => [e]) + ReversedsOf(items[1..])
  }

  /** The items of an array field of the document; none when it is absent or no array. */
  function ArrayField(doc: J.Json, key: string): seq<J.Json> {
    if !doc.Object? then []
    else match Field(doc.members, key)
      case None => []
      case Some(v) => if v.Array? then v.items else []
  }

  /** The shorthand form, a bare name, means the same as an object with nothing but that name. */
  lemma ShorthandIsBareName(name: J.bytes, key: J.bytes, vars: Vars)
    requires name != [] && Text(key) == "name" && Var(vars, "GTL_DIR") != "" && Var(vars, "HTL_DIR") != ""
    ensures ForwardOf(J.Str(name), vars) == ForwardOf(J.Object([J.Member(key, J.Str(name))]), vars)
    ensures ForwardOf(J.Str(name), vars).Some?
  {
    var obj := [J.Member(key, J.Str(name))];
    hide CStr, VarExp.Expand;
    var text := Text(name);
    assert text != "";
    OneField(obj[0], "name");
    OneField(obj[0], "guestThunk");
    OneField(obj[0], "hostThunk");
    OneField(obj[0], "hostLibrary");
    OneField(obj[0], "alias");
    hide Field;
    JoinPath(Var(vars, "GTL_DIR"), text, ".so");
    JoinPath(Var(vars, "HTL_DIR"), text, "_HTL.so");
  }

  lemma OneField(m: J.Member, key: string)
    ensures Field([m], key) == if |Text(m.key)| == |key| && Text(m.key) == key then Some(m.value) else None
  {
    assert [m][1..] == [];
  }

  lemma JoinPath(dir: string, name: string, suffix: string)
    ensures dir + "/" + name + suffix == dir + "/" + (name + suffix)
  {
  }

  /** An object that spells everything out gives exactly what it says, whatever the variables are. */
  lemma WrittenOutEntry(obj: seq<J.Member>, vars: Vars, name: string, guest: string, host: string, library: string)
    requires JsonString(obj, "name") == Some(name) && JsonString(obj, "guestThunk") == Some(guest)
    requires JsonString(obj, "hostThunk") == Some(host) && JsonString(obj, "hostLibrary") == Some(library)
    requires '$' !in guest && '$' !in host && '$' !in library
    requires NUL !in name && NUL !in guest && NUL !in host && NUL !in library
    ensures ForwardOf(J.Object(obj), vars)
            == Some(Forward(name, ForwardThunk(name, CStrs(JsonStringArray(obj, "alias")), guest, host, library)))
  {
    hide PathField, JsonStringArray, Under, Var;
    ExpandedPath(obj, "guestThunk", vars, Under(Var(vars, "GTL_DIR"), name + ".so"), guest);
    ExpandedPath(obj, "hostThunk", vars, Under(Var(vars, "HTL_DIR"), name + "_HTL.so"), host);
    ExpandedPath(obj, "hostLibrary", vars, Some(name + ".so"), library);
  }

  lemma ExpandedPath(obj: seq<J.Member>, key: string, vars: Vars, missing: Option<string>, path: string)
    requires JsonString(obj, key) == Some(path) && '$' !in path
    ensures PathField(obj, key, vars, missing) == Some(path)
  {
    hide VarExp.Expand;
    VarExp.PlainTextExpands(path, name => Var(vars, name));
  }

  lemma {:induction false} ForwardsOfMore(items: seq<J.Json>, item: J.Json, vars: Vars)
    ensures ForwardsOf(items + [item], vars) ==
            ForwardsOf(items, vars) + (if ForwardOf(item, vars).None? then [] else [ForwardOf(item, vars).value])
  {
    hide ForwardOf;
    if items == [] {
      assert [item][1..] == [] && [] + [item] == [item];
    } else {
      assert (items + [item])[1..] == items[1..] + [item];
      ForwardsOfMore(items[1..], item, vars);
    }
  }

  lemma {:induction false} ReversedsOfMore(items: seq<J.Json>, item: J.Json)
    ensures ReversedsOf(items + [item]) == ReversedsOf(items) + (if ReversedOf(item).None? then [] else [ReversedOf(item).value])
  {
    hide ReversedOf;
    if items == [] {
      assert [item][1..] == [] && [] + [item] == [item];
    } else {
      assert (items + [item])[1..] == items[1..] + [item];
      ReversedsOfMore(items[1..], item);
    }
  }

  // ----- layering forward entries -----

  function Position(es: seq<Forward>, key: string): (r: Option<nat>)
    ensures r.Some? ==> r.value < |es| && es[r.value].key == key && forall k | 0 <= k < r.value :: es[k].key != key
    ensures r.None? ==> forall k | 0 <= k < |es| :: es[k].key != key
  {
    if es == [] then None
    else if es[0].key == key then Some(0)
    else match Position(es[1..], key)
      case None => None
      case Some(k) =>
        assert forall i | 0 < i < k + 1 :: es[i] == es[1..][i - 1];
        Some(k + 1)
  }

  /** `upsertForward`. */
  function Upsert(es: seq<Forward>, e: Forward, overwrite: bool): seq<Forward> {
    match Position(es, e.key)
    case None => es + [e]
    case Some(k) => if overwrite then es[k := e] else es
  }

  function Layered(es: seq<Forward>, more: seq<Forward>, overwrite: bool): seq<Forward>
    decreases |more|
  {
    if more == [] then es else Layered(Upsert(es, more[0], overwrite), more[1..], overwrite)
  }

  predicate DistinctKeys(es: seq<Forward>) { forall i, j | 0 <= i < j < |es| :: es[i].key != es[j].key }

  predicate Contains(es: seq<Forward>, key: string) { exists k | 0 <= k < |es| :: es[k].key == key }

  /** The entry stored under a key. */
  function ByKey(es: seq<Forward>, key: string): Option<Forward> {
    match Position(es, key) case None => None case Some(k) => Some(es[k])
  }

  /** The last entry of a list with a key. */
  function LastOf(es: seq<Forward>, key: string): Option<Forward> {
    if es == [] then None
    else if es[|es| - 1].key == key then Some(es[|es| - 1]) else LastOf(es[..|es| - 1], key)
  }

  lemma {:induction false} LayeredMore(es: seq<Forward>, more: seq<Forward>, e: Forward, overwrite: bool)
    ensures Layered(es, more + [e], overwrite) == Upsert(Layered(es, more, overwrite), e, overwrite)
    decreases |more|
  {
    hide Upsert;
    if more == [] {
      assert [] + [e] == [e] && [e][1..] == [];
    } else {
      assert (more + [e])[1..] == more[1..] + [e];
      LayeredMore(Upsert(es, more[0], overwrite), more[1..], e, overwrite);
    }
  }

  /** Layering keeps keys distinct and in order, and it changes nothing before its own additions
      except, when it overwrites, the entries whose key it names again. */
  lemma {:induction false} LayeredShape(es: seq<Forward>, more: seq<Forward>, overwrite: bool)
    requires DistinctKeys(es)
    ensures var r := Layered(es, more, overwrite);
            && DistinctKeys(r) && |es| <= |r|
            && (forall k | 0 <= k < |es| :: r[k].key == es[k].key)
            && (!overwrite ==> r[..|es|] == es)
            && (forall k | |es| <= k < |r| :: Contains(more, r[k].key))
    decreases |more|
  {
    hide Upsert, Position;
    if more != [] {
      var next := Upsert(es, more[0], overwrite);
      UpsertShape(es, more[0], overwrite);
      LayeredShape(next, more[1..], overwrite);
      var r := Layered(es, more, overwrite);
      assert more[0].key == more[0].key && Contains(more, more[0].key);
      forall k | |es| <= k < |r| ensures Contains(more, r[k].key) {
        if k >= |next| {
          var i :| 0 <= i < |more[1..]| && more[1..][i].key == r[k].key;
          assert more[i + 1].key == r[k].key;
        }
      }
    }
  }

  lemma UpsertShape(es: seq<Forward>, e: Forward, overwrite: bool)
    requires DistinctKeys(es)
    ensures var r := Upsert(es, e, overwrite);
            && DistinctKeys(r) && |es| <= |r| <= |es| + 1
            && (forall k | 0 <= k < |es| :: r[k].key == es[k].key)
            && (!overwrite ==> r[..|es|] == es)
            && (|r| > |es| ==> r[|es|] == e)
  {
  }

  /** In an overwriting load the last entry of a name is the one that is stored. */
  lemma {:induction false} OverwritingLoadKeepsTheLast(es: seq<Forward>, more: seq<Forward>, key: string)
    ensures ByKey(Layered(es, more, true), key) == if LastOf(more, key).Some? then LastOf(more, key) else ByKey(es, key)
    decreases |more|
  {
    if more != [] {
      var init, e := more[..|more| - 1], more[|more| - 1];
      OverwritingLoadKeepsTheLast(es, init, key);
      assert more == init + [e];
      LayeredMore(es, init, e, true);
      assert Layered(es, more, true) == Upsert(Layered(es, init, true), e, true);
      UpsertByKey(Layered(es, init, true), e, true, key);
    }
  }

  /** In a layered pack an entry that is there stays, and of its own entries the first is stored. */
  lemma {:induction false} PackKeepsTheFirst(es: seq<Forward>, more: seq<Forward>, key: string)
    ensures ByKey(Layered(es, more, false), key) == if ByKey(es, key).Some? then ByKey(es, key) else ByKey(more, key)
    decreases |more|
  {
    if more != [] {
      PackKeepsTheFirst(Upsert(es, more[0], false), more[1..], key);
      UpsertByKey(es, more[0], false, key);
    }
  }

  lemma UpsertByKey(es: seq<Forward>, e: Forward, overwrite: bool, key: string)
    ensures ByKey(Upsert(es, e, overwrite), key) ==
            if key == e.key && (overwrite || ByKey(es, key).None?) then Some(e) else ByKey(es, key)
  {
    var r := Upsert(es, e, overwrite);
    assert forall k | 0 <= k < |es| :: r[k].key == es[k].key;
    var at, was := Position(r, key), Position(es, key);
    assert was.Some? ==> at.Some?;
    assert was.Some? && at.Some? ==> !(at.value < was.value) && !(was.value < at.value);
    if was.None? && key == e.key {
      assert r[|es|] == e && at.Some?;
    }
  }

  // ----- layering reversed entries -----

  /** `known` is what the index resolved before the document: in a pack, entries by these names are
      skipped; entries of the document itself are not compared with each other. */
  function LayeredReversed(es: seq<Reversed>, more: seq<Reversed>, known: set<string>, overwrite: bool): (r: seq<Reversed>)
    ensures |es| <= |r| && r[..|es|] == es
    decreases |more|
  {
    if more == [] then es
    else if !overwrite && more[0].key in known then LayeredReversed(es, more[1..], known, overwrite)
    else LayeredReversed(es + [more[0]], more[1..], known, overwrite)
  }

  lemma {:induction false} LayeredReversedMore(es: seq<Reversed>, more: seq<Reversed>, e: Reversed, known: set<string>, overwrite: bool)
    ensures var r := LayeredReversed(es, more, known, overwrite);
            LayeredReversed(es, more + [e], known, overwrite) == if !overwrite && e.key in known then r else r + [e]
    decreases |more|
  {
    if more == [] {
      assert [] + [e] == [e] && [e][1..] == [];
    } else {
      assert (more + [e])[1..] == more[1..] + [e];
      LayeredReversedMore(if !overwrite && more[0].key in known then es else es + [more[0]], more[1..], e, known, overwrite);
    }
  }

  // ----- lookup -----

  /** The names an entry answers to. */
  function ForwardNames(es: seq<Forward>): (r: seq<seq<string>>)
    ensures |r| == |es| && forall k | 0 <= k < |r| :: r[k] == [es[k].thunk.name] + es[k].thunk.alias
  {
    seq(|es|, k requires 0 <= k < |es| => [es[k].thunk.name] + es[k].thunk.alias)
  }

  function ReversedNames(es: seq<Reversed>): (r: seq<seq<string>>)
    ensures |r| == |es| && forall k | 0 <= k < |r| :: r[k] == [es[k].thunk.name] + es[k].thunk.alias
  {
    seq(|es|, k requires 0 <= k < |es| => [es[k].thunk.name] + es[k].thunk.alias)
  }

  /** A linear scan: the first entry in list order that has the name or alias. */
  function FirstMatch(names: seq<seq<string>>, name: string): (r: Option<nat>)
    ensures r.Some? ==> r.value < |names| && name in names[r.value] && forall k | 0 <= k < r.value :: name !in names[k]
    ensures r.None? ==> forall k | 0 <= k < |names| :: name !in names[k]
  {
    if names == [] then None
    else if name in names[0] then Some(0)
    else match FirstMatch(names[1..], name)
      case None => None
      case Some(k) =>
        assert forall i | 0 < i < k + 1 :: names[i] == names[1..][i - 1];
        Some(k + 1)
  }

  /** The index gives every name its first match and nothing else. */
  predicate IsIndex(index: map<string, nat>, names: seq<seq<string>>) {
    && (forall n | n in index :: FirstMatch(names, n) == Some(index[n]))
    && (forall k, n | 0 <= k < |names| && n in names[k] :: n in index)
  }

  /** More entries at the end never change what a name resolves to. */
  lemma FirstMatchStays(names: seq<seq<string>>, more: seq<seq<string>>, name: string)
    requires |names| <= |more| && more[..|names|] == names
    ensures FirstMatch(names, name).Some? ==> FirstMatch(more, name) == FirstMatch(names, name)
  {
    assert forall k | 0 <= k < |names| :: more[k] == names[k];
  }

  predicate DistinctNames(es: seq<Forward>) { forall i, j | 0 <= i < j < |es| :: es[i].thunk.name != es[j].thunk.name }

  /** No two of the keys differ only behind their first NUL. */
  predicate ClashFree(keys: set<string>) { forall a, b | a in keys && b in keys && CStr(a) == CStr(b) :: a == b }

  function KeysOf(es: seq<Forward>): (r: set<string>)
    ensures forall k | 0 <= k < |es| :: es[k].key in r
  {
    set e | e in es :: e.key
  }

  predicate NamesFollowKeys(es: seq<Forward>) { forall e | e in es :: e.thunk.name == CStr(e.key) }

  lemma {:induction false} LayeredKeys(es: seq<Forward>, more: seq<Forward>, overwrite: bool)
    requires NamesFollowKeys(es) && NamesFollowKeys(more)
    ensures KeysOf(Layered(es, more, overwrite)) == KeysOf(es) + KeysOf(more)
    ensures NamesFollowKeys(Layered(es, more, overwrite))
    decreases |more|
  {
    if more != [] {
      hide Upsert, NamesFollowKeys, KeysOf;
      UpsertKeys(es, more[0], overwrite);
      HeadKeys(more);
      LayeredKeys(Upsert(es, more[0], overwrite), more[1..], overwrite);
    } else {
      assert KeysOf(more) == {};
    }
  }

  lemma HeadKeys(more: seq<Forward>)
    requires more != [] && NamesFollowKeys(more)
    ensures KeysOf(more) == {more[0].key} + KeysOf(more[1..])
    ensures more[0].thunk.name == CStr(more[0].key) && NamesFollowKeys(more[1..])
  {
    assert more == [more[0]] + more[1..];
  }

  lemma UpsertKeys(es: seq<Forward>, e: Forward, overwrite: bool)
    requires NamesFollowKeys(es) && e.thunk.name == CStr(e.key)
    ensures KeysOf(Upsert(es, e, overwrite)) == KeysOf(es) + {e.key} && NamesFollowKeys(Upsert(es, e, overwrite))
  {
    var r, at := Upsert(es, e, overwrite), Position(es, e.key);
    forall key ensures key in KeysOf(r) <==> key in KeysOf(es) || key == e.key {
      if key in KeysOf(es) {
        var k :| 0 <= k < |es| && es[k].key == key;
        assert r[k].key == key;
      }
      if key == e.key {
        var k := if at.Some? then at.value else |es|;
        assert r[k].key == key;
      }
    }
  }

  /** The names of the entries a document leaves behind, as C strings, are unique if and only if no two
      names written in the document, or stored before, differ only behind their first NUL. */
  lemma NamesAreUnique(es: seq<Forward>, more: seq<Forward>, overwrite: bool)
    requires DistinctKeys(es) && NamesFollowKeys(es) && NamesFollowKeys(more)
    ensures DistinctNames(Layered(es, more, overwrite)) <==> ClashFree(KeysOf(es) + KeysOf(more))
  {
    LayeredShape(es, more, overwrite);
    LayeredKeys(es, more, overwrite);
    StoredNamesAreUnique(Layered(es, more, overwrite));
  }

  lemma StoredNamesAreUnique(es: seq<Forward>)
    requires DistinctKeys(es) && NamesFollowKeys(es)
    ensures DistinctNames(es) <==> ClashFree(KeysOf(es))
  {
    if i, j :| 0 <= i < j < |es| && es[i].thunk.name == es[j].thunk.name {
      assert es[i] in es && es[j] in es;
      assert CStr(es[i].key) == CStr(es[j].key) && es[i].key != es[j].key;
    }
    if a, b :| a in KeysOf(es) && b in KeysOf(es) && CStr(a) == CStr(b) && a != b {
      var i :| 0 <= i < |es| && es[i].key == a;
      var j :| 0 <= j < |es| && es[j].key == b;
      assert es[i] in es && es[j] in es;
      assert es[if i < j then i else j].thunk.name == es[if i < j then j else i].thunk.name;
    }
  }

  /** In particular, names without a NUL never clash. */
  lemma PlainNamesAreUnique(es: seq<Forward>, more: seq<Forward>, overwrite: bool)
    requires DistinctKeys(es) && NamesFollowKeys(es) && NamesFollowKeys(more)
    requires forall key | key in KeysOf(es) + KeysOf(more) :: NUL !in key
    ensures DistinctNames(Layered(es, more, overwrite))
  {
    NamesAreUnique(es, more, overwrite);
  }

  /** A document with the two names "a" and "a" followed by a NUL is stored as two entries of one name. */
  lemma NamesMayClash(vars: Vars)
    requires Var(vars, "GTL_DIR") != "" && Var(vars, "HTL_DIR") != ""
    ensures var doc := [J.Str([0x61, 0]), J.Str([0x61])];
            var es := Layered([], ForwardsOf(doc, vars), true);
            DistinctKeys(es) && !DistinctNames(es)
  {
    hide CStr, Text, ForwardsOf, Layered, NamesFollowKeys, KeysOf, DistinctNames;
    var x, y: J.bytes := [0x61, 0], [0x61];
    var more := ForwardsOf([J.Str(x), J.Str(y)], vars);
    TwoShorthands(x, y, vars);
    NulIsCutOff();
    assert Text(x) in {} + KeysOf(more) && Text(y) in {} + KeysOf(more);
    NoKeys();
    LayeredShape([], more, true);
    NamesAreUnique([], more, true);
  }

  lemma NulIsCutOff()
    ensures Text([0x61, 0]) != Text([0x61]) && CStr(Text([0x61, 0])) == CStr(Text([0x61]))
  {
    var a, b := Text([0x61, 0]), Text([0x61]);
    assert a[1..] == [NUL] && CStr([NUL]) == "" && b[1..] == "" && CStr("") == "";
    assert a[0] == b[0] == 'a';
  }

  lemma NoKeys()
    ensures KeysOf([]) == {} && NamesFollowKeys([])
  {
  }

  lemma TwoShorthands(x: J.bytes, y: J.bytes, vars: Vars)
    requires x != [] && y != [] && Var(vars, "GTL_DIR") != "" && Var(vars, "HTL_DIR") != ""
    ensures var more := ForwardsOf([J.Str(x), J.Str(y)], vars);
            KeysOf(more) == {Text(x), Text(y)} && NamesFollowKeys(more)
  {
    hide ForwardOf, Text;
    var doc := [J.Str(x), J.Str(y)];
    ShorthandKey(x, vars);
    ShorthandKey(y, vars);
    assert doc[1..] == [J.Str(y)] && doc[1..][1..] == [];
    var e, f := ForwardOf(doc[0], vars).value, ForwardOf(doc[1], vars).value;
    assert ForwardsOf([J.Str(y)], vars) == [f] + ForwardsOf([J.Str(y)][1..], vars) == [f];
    assert ForwardsOf(doc, vars) == [e] + ForwardsOf(doc[1..], vars) == [e, f];
    assert ForwardsOf(doc, vars)[0].key == Text(x) && ForwardsOf(doc, vars)[1].key == Text(y);
  }

  lemma ShorthandKey(name: J.bytes, vars: Vars)
    requires name != [] && Var(vars, "GTL_DIR") != "" && Var(vars, "HTL_DIR") != ""
    ensures ForwardOf(J.Str(name), vars).Some? && ForwardOf(J.Str(name), vars).value.key == Text(name)
  {
    assert Text(name) != "";
  }
}
