/** The thunk database and the server that layers packs under it as they are discovered
    (ThunkDatabase.cpp, HostServer.cpp). */
module ThunkDatabase {
  import opened Wrappers
  import opened ThunkEntries

  /** A JSON file as it is read: None when it cannot be opened or parsed. */
  type File = Option<J.Json>

  class ThunkDatabase {
    var forwardThunks: seq<ForwardThunk>
    var reversedThunks: seq<ReversedThunk>
    var forwardThunkMap: map<string, nat>
    var reversedThunkMap: map<string, nat>
    var forwardIndex: map<string, nat>
    ghost var forwards: seq<Forward>
    ghost var reverseds: seq<Reversed>

    /** The lists hold the entries, and the index of upsertForward is the inverse of their keys. */
    ghost predicate Stored()
      reads this
    {
      && |forwardThunks| == |forwards| && |reversedThunks| == |reverseds|
      && (forall k | 0 <= k < |forwards| :: forwards[k].thunk == forwardThunks[k] && forwards[k].thunk.name == CStr(forwards[k].key))
      && (forall k | 0 <= k < |reverseds| :: reverseds[k].thunk == reversedThunks[k])
      && (forall k | 0 <= k < |forwards| :: forwards[k].key in forwardIndex && forwardIndex[forwards[k].key] == k)
      && (forall n | n in forwardIndex :: forwardIndex[n] < |forwards| && forwards[forwardIndex[n]].key == n)
    }

    /** Both lookup indexes agree with a linear scan. */
    ghost predicate Valid()
      reads this
    {
      Stored() && IsIndex(forwardThunkMap, ForwardNames(forwards)) && IsIndex(reversedThunkMap, ReversedNames(reverseds))
    }

    constructor ()
      ensures Valid() && forwards == [] && reverseds == []
    {
      forwardThunks, reversedThunks := [], [];
      forwardThunkMap, reversedThunkMap, forwardIndex := map[], map[], map[];
      forwards, reverseds := [], [];
    }

    /** Forward keys are unique at any time. */
    lemma KeysAreUnique()
      requires Stored()
      ensures DistinctKeys(forwards)
    {
      forall i, j | 0 <= i < j < |forwards| ensures forwards[i].key != forwards[j].key {
        assert forwardIndex[forwards[i].key] == i && forwardIndex[forwards[j].key] == j;
      }
    }

    /** `upsertForward`. */
    method UpsertForward(e: Forward, overwrite: bool)
      requires Stored() && e.thunk.name == CStr(e.key)
      modifies this`forwardThunks, this`forwardIndex, this`forwards
      ensures Stored() && forwards == Upsert(old(forwards), e, overwrite)
    {
      hide CStr;
      ghost var at := Position(forwards, e.key);
      assert at.Some? <==> e.key in forwardIndex;
      if e.key in forwardIndex && !overwrite {
        return;
      }
      var info := e.thunk;
      if e.key in forwardIndex {
        var k := forwardIndex[e.key];
        forwardThunks, forwards := forwardThunks[k := info], forwards[k := e];
      } else {
        forwardIndex := forwardIndex[e.key := |forwardThunks|];
        forwardThunks, forwards := forwardThunks + [info], forwards + [e];
      }
    }

    /** The loop over "forwardThunks". */
    method LoadForwards(items: seq<J.Json>, vars: Vars, overwrite: bool)
      requires Stored()
      modifies this`forwardThunks, this`forwardIndex, this`forwards
      ensures Stored() && forwards == Layered(old(forwards), ForwardsOf(items, vars), overwrite)
    {
      hide Upsert, Layered, ForwardOf, ForwardsOf, Stored;
      LayeredNothing(forwards, vars, overwrite);
      for i := 0 to |items|
        invariant Stored() && forwards == Layered(old(forwards), ForwardsOf(items[..i], vars), overwrite)
      {
        ForwardsOfMore(items[..i], items[i], vars);
        assert items[..i + 1] == items[..i] + [items[i]];
        var e := ForwardOf(items[i], vars);
        if e.None? {
          assert ForwardsOf(items[..i], vars) + [] == ForwardsOf(items[..i], vars);
          continue;
        }
        LayeredMore(old(forwards), ForwardsOf(items[..i], vars), e.value, overwrite);
        UpsertForward(e.value, overwrite);
      }
      assert items[..|items|] == items;
    }

    lemma LayeredNothing(es: seq<Forward>, vars: Vars, overwrite: bool)
      ensures Layered(es, ForwardsOf([], vars), overwrite) == es
    {
    }

    /** The loop over "reversedThunks"; the index is the one from before the document. */
    method LoadReverseds(items: seq<J.Json>, overwrite: bool)
      requires Stored()
      modifies this`reversedThunks, this`reverseds
      ensures Stored() && reverseds == LayeredReversed(old(reverseds), ReversedsOf(items), reversedThunkMap.Keys, overwrite)
    {
      hide LayeredReversed, ReversedOf, ReversedsOf, CStr, CStrs, Stored;
      ghost var known := reversedThunkMap.Keys;
      LayeredReversedNothing(reverseds, known, overwrite);
      for i := 0 to |items|
        invariant Stored() && reverseds == LayeredReversed(old(reverseds), ReversedsOf(items[..i]), known, overwrite)
      {
        ReversedsOfMore(items[..i], items[i]);
        assert items[..i + 1] == items[..i] + [items[i]];
        var e := ReversedOf(items[i]);
        if e.None? {
          assert ReversedsOf(items[..i]) + [] == ReversedsOf(items[..i]);
          continue;
        }
        LayeredReversedMore(old(reverseds), ReversedsOf(items[..i]), e.value, known, overwrite);
        if !overwrite && e.value.key in reversedThunkMap {
          continue;
        }
        AppendReversed(e.value);
      }
      assert items[..|items|] == items;
    }

    method AppendReversed(e: Reversed)
      requires Stored()
      modifies this`reversedThunks, this`reverseds
      ensures Stored() && reverseds == old(reverseds) + [e]
    {
      hide CStr;
      reversedThunks, reverseds := reversedThunks + [e.thunk], reverseds + [e];
    }

    lemma LayeredReversedNothing(es: seq<Reversed>, known: set<string>, overwrite: bool)
      ensures LayeredReversed(es, ReversedsOf([]), known, overwrite) == es
    {
    }

    /** `loadJsonDatabase`. */
    method LoadJsonDatabase(file: File, vars: Vars, overwrite: bool) returns (ok: bool)
      requires Stored()
      modifies this`forwardThunks, this`forwardIndex, this`forwards, this`reversedThunks, this`reverseds
      ensures Stored() && ok == IsDatabase(file)
      ensures forwards == Layered(old(forwards), Forwards(file, vars), overwrite)
      ensures reverseds == LayeredReversed(old(reverseds), Reverseds(file), reversedThunkMap.Keys, overwrite)
    {
      hide Stored, ForwardsOf, ReversedsOf;
      if file.None? || !file.value.Object? {
        return false;
      }
      LoadForwards(ArrayField(file.value, "forwardThunks"), vars, overwrite);
      LoadReverseds(ArrayField(file.value, "reversedThunks"), overwrite);
      ok := true;
    }

    /** `rebuildIndexes`. */
    method RebuildIndexes()
      requires Stored()
      modifies this`forwardThunkMap, this`reversedThunkMap
      ensures Valid()
    {
      ghost var f, r := ForwardNames(forwards), ReversedNames(reverseds);
      forwardThunkMap := IndexEntries(seq(|forwardThunks|, k requires 0 <= k < |forwardThunks| reads this =>
        [forwardThunks[k].name] + forwardThunks[k].alias), f);
      reversedThunkMap := IndexEntries(seq(|reversedThunks|, k requires 0 <= k < |reversedThunks| reads this =>
        [reversedThunks[k].name] + reversedThunks[k].alias), r);
    }

    /** `load`: the document is the whole database; a file that is none leaves it empty. */
    method Load(file: File, vars: Vars) returns (ok: bool)
      modifies this
      ensures Valid() && ok == IsDatabase(file)
      ensures forwards == Layered([], Forwards(file, vars), true)
      ensures reverseds == Reverseds(file)
    {
      hide Forwards, Reverseds, Layered, LayeredReversed, IsIndex;
      forwardThunks, reversedThunks := [], [];
      forwardThunkMap, reversedThunkMap, forwardIndex := map[], map[], map[];
      forwards, reverseds := [], [];
      ok := LoadJsonDatabase(file, vars, true);
      assert reversedThunkMap.Keys == {} && [] + Reverseds(file) == Reverseds(file);
      AllReversed([], Reverseds(file), {});
      RebuildIndexes();
    }

    /** `loadPack`: a pack goes under what is there, with its own directories as defaults. */
    method LoadPack(file: File, guestThunkDir: string, hostThunkDir: string, vars: Vars) returns (ok: bool)
      requires Valid()
      modifies this
      ensures Valid() && ok == IsDatabase(file)
      ensures forwards == Layered(old(forwards), Forwards(file, PackVars(vars, guestThunkDir, hostThunkDir)), false)
      ensures reverseds == LayeredReversed(old(reverseds), Reverseds(file), Resolved(old(reverseds)), false)
    {
      assert reversedThunkMap.Keys == Resolved(reverseds) by { IndexKeys(reversedThunkMap, reverseds); }
      var packVars := PackVars(vars, guestThunkDir, hostThunkDir);
      ok := LoadJsonDatabase(file, packVars, false);
      RebuildIndexes();
    }

    /** `forwardThunk`: the first entry in list order that has the name or alias. */
    method FindForward(name: string) returns (r: Option<ForwardThunk>)
      requires Valid()
      ensures r == LookupForward(forwards, name)
    {
      if name !in forwardThunkMap {
        return None;
      }
      assert FirstMatch(ForwardNames(forwards), name) == Some(forwardThunkMap[name]);
      r := Some(forwardThunks[forwardThunkMap[name]]);
    }

    /** `reversedThunk`. */
    method FindReversed(name: string) returns (r: Option<ReversedThunk>)
      requires Valid()
      ensures r == LookupReversed(reverseds, name)
    {
      if name !in reversedThunkMap {
        return None;
      }
      assert FirstMatch(ReversedNames(reverseds), name) == Some(reversedThunkMap[name]);
      r := Some(reversedThunks[reversedThunkMap[name]]);
    }
  }

  /** `indexEntries`: names and aliases of the entries in order; emplace keeps the first. */
  method IndexEntries(items: seq<seq<string>>, ghost names: seq<seq<string>>) returns (index: map<string, nat>)
    requires items == names
    ensures IsIndex(index, names)
  {
    hide FirstMatch;
    index := map[];
    for i := 0 to |items|
      invariant IndexUpTo(index, names, i)
    {
      index := AddNames(index, items, i);
    }
  }

  /** The names of the first i entries have their first match. */
  ghost predicate IndexUpTo(index: map<string, nat>, names: seq<seq<string>>, i: nat)
    requires i <= |names|
  {
    && (forall n | n in index :: index[n] < i && FirstMatch(names, n) == Some(index[n]))
    && (forall k, n | 0 <= k < i && n in names[k] :: n in index)
  }

  method AddNames(before: map<string, nat>, names: seq<seq<string>>, i: nat) returns (index: map<string, nat>)
    requires i < |names| && IndexUpTo(before, names, i)
    ensures IndexUpTo(index, names, i + 1)
  {
    hide FirstMatch;
    index := before;
    var own := names[i];
    for j := 0 to |own|
      invariant forall n | n in before :: n in index
      invariant forall n | n in index :: index[n] <= i && FirstMatch(names, n) == Some(index[n])
      invariant forall l | 0 <= l < j :: own[l] in index
    {
      if own[j] !in index {
        assert own[j] in names[i];
        assert FirstMatch(names, own[j]) == Some(i);
        index := index[own[j] := i];
      }
    }
  }

  // ----- what a file adds -----

  predicate IsDatabase(file: File) { file.Some? && file.value.Object? }

  function Forwards(file: File, vars: Vars): (r: seq<Forward>)
    ensures forall e | e in r :: e.thunk.name == CStr(e.key)
  {
    if IsDatabase(file) then ForwardsOf(ArrayField(file.value, "forwardThunks"), vars) else []
  }

  function Reverseds(file: File): seq<Reversed> {
    if IsDatabase(file) then ReversedsOf(ArrayField(file.value, "reversedThunks")) else []
  }

  function PackVars(vars: Vars, guestThunkDir: string, hostThunkDir: string): Vars {
    vars["GTL_DIR" := guestThunkDir]["HTL_DIR" := hostThunkDir]
  }

  /** A bare name in the JSON of a thunk pack stands for the thunks in that pack's own directories,
      whatever the variables say. */
  lemma PackShorthand(text: J.bytes, vars: Vars, guestThunkDir: string, hostThunkDir: string)
    requires text != [] && guestThunkDir != "" && hostThunkDir != ""
    requires NUL !in Text(text) && NUL !in guestThunkDir && NUL !in hostThunkDir
    ensures var name := Text(text);
            ForwardOf(J.Str(text), PackVars(vars, guestThunkDir, hostThunkDir))
            == Some(Forward(name, ForwardThunk(name, [], guestThunkDir + "/" + name + ".so",
                                               hostThunkDir + "/" + name + "_HTL.so", name + ".so")))
  {
    var name := Text(text);
    assert name != "";
    var guest, host := guestThunkDir + "/" + name + ".so", hostThunkDir + "/" + name + "_HTL.so";
    assert NUL !in guest && NUL !in host && NUL !in name + ".so";
    assert CStrs([]) == [];
  }

  function Resolved(es: seq<Reversed>): set<string> {
    set k, n | 0 <= k < |es| && n in [es[k].thunk.name] + es[k].thunk.alias :: n
  }

  lemma IndexKeys(index: map<string, nat>, es: seq<Reversed>)
    requires IsIndex(index, ReversedNames(es))
    ensures index.Keys == Resolved(es)
  {
  }

  lemma {:induction false} AllReversed(es: seq<Reversed>, more: seq<Reversed>, known: set<string>)
    ensures LayeredReversed(es, more, known, true) == es + more
    decreases |more|
  {
    if more != [] {
      AllReversed(es + [more[0]], more[1..], known);
      assert es + [more[0]] + more[1..] == es + more;
    }
  }

  function LookupForward(es: seq<Forward>, name: string): Option<ForwardThunk> {
    match FirstMatch(ForwardNames(es), name) case None => None case Some(k) => Some(es[k].thunk)
  }

  function LookupReversed(es: seq<Reversed>, name: string): Option<ReversedThunk> {
    match FirstMatch(ReversedNames(es), name) case None => None case Some(k) => Some(es[k].thunk)
  }

  // ----- the server -----

  /** A file name as its directories and last part; empty for a null or empty path. */
  type Path = seq<string>

  /** `parent_path`: the root is its own parent. */
  function Parent(p: Path): Path { if p == [] || p == ["/"] then p else p[..|p| - 1] }

  /** The thunk pack that a guest thunk in <prefix>/<arch>/lib/x86_64-LoreGTL/<name>.so belongs to. */
  function PackOf(guestThunk: Path): Option<Path> {
    var gtlDir := Parent(guestThunk);
    if gtlDir == [] || gtlDir[|gtlDir| - 1] != "x86_64-LoreGTL" then None
    else
      var prefix := Parent(Parent(Parent(gtlDir)));
      if prefix == [] then None else Some(prefix)
  }

  /** The standard layout of a pack leads back to its prefix, and only a thunk in a directory of that
      name leads anywhere. */
  lemma PackLayout(prefix: Path, arch: string, lib: string, dir: string, file: string)
    requires prefix != []
    ensures PackOf(prefix + [arch, lib, dir, file]) == if dir == "x86_64-LoreGTL" then Some(prefix) else None
  {
    var p := prefix + [arch, lib, dir, file];
    assert Parent(p) == prefix + [arch, lib, dir];
    assert Parent(prefix + [arch, lib, dir]) == prefix + [arch, lib];
    assert Parent(prefix + [arch, lib]) == prefix + [arch];
    assert Parent(prefix + [arch]) == prefix;
  }

  /** Any other path: the directory must have that name, and the prefix is what lies three levels above it,
      the root at least for an absolute path, and not nothing for a relative one. */
  lemma PackOfPath(p: Path)
    requires |p| >= 2 && forall k | 0 < k < |p| :: p[k] != "/"
    ensures PackOf(p) ==
              if p[|p| - 2] != "x86_64-LoreGTL" then None
              else if |p| > 4 then Some(p[..|p| - 4])
              else if p[0] == "/" then Some(["/"]) else None
  {
    var dir := Parent(p);
    assert dir == p[..|p| - 1] && dir[|dir| - 1] == p[|p| - 2];
    var a, b, c := Parent(dir), Parent(Parent(dir)), Parent(Parent(Parent(dir)));
    if |p| > 4 {
      assert a == p[..|p| - 2] && b == p[..|p| - 3] && c == p[..|p| - 4];
    } else if p[0] == "/" {
      assert p[..1] == ["/"];
      if |p| == 4 {
        assert a == p[..2] && b == p[..1];
      } else if |p| == 3 {
        assert a == p[..1];
      }
    } else if |p| == 4 {
      assert a == p[..2] && a != ["/"] && b == p[..1] && b != ["/"] && c == [];
    } else if |p| == 3 {
      assert a == p[..1] && a != ["/"] && b == [];
    } else {
      assert dir == p[..1] && dir != ["/"] && a == [];
    }
  }

  /** What the file system holds when a pack is looked for: its normalised prefix, its directories as
      text, and its JSON, if that exists. */
  datatype PackFiles = PackFiles(normal: string, gtlDir: string, htlDir: string, json: Option<File>)

  datatype Request = Request(path: Path, name: string, isReverse: bool, files: PackFiles)

  datatype ThunkInfo = Neither | ForwardInfo(forward: ForwardThunk) | ReversedInfo(reversed: ReversedThunk)

  /** What of the server's state decides an answer. */
  datatype Layers = Layers(forwards: seq<Forward>, reverseds: seq<Reversed>, loaded: set<string>)

  /** Whether a request makes the server look for a pack it has not met. */
  predicate Discovers(l: Layers, q: Request, autoDiscover: bool) {
    && !q.isReverse && LookupForward(l.forwards, q.name).None?
    && autoDiscover && q.path != [] && PackOf(q.path).Some? && q.files.normal !in l.loaded
  }

  /** The state after a request. */
  function After(l: Layers, q: Request, autoDiscover: bool, vars: Vars): Layers {
    if !Discovers(l, q, autoDiscover) then l
    else
      var met := l.(loaded := l.loaded + {q.files.normal});
      match q.files.json
      case None => met
      case Some(file) =>
        met.(forwards := Layered(l.forwards, Forwards(file, PackVars(vars, q.files.gtlDir, q.files.htlDir)), false),
             reverseds := LayeredReversed(l.reverseds, Reverseds(file), Resolved(l.reverseds), false))
  }

  /** The answer to a request, given the state after it. */
  function Answer(l: Layers, q: Request): ThunkInfo {
    if q.isReverse then
      (match LookupReversed(l.reverseds, q.name) case None => Neither case Some(t) => ReversedInfo(t))
    else
      (match LookupForward(l.forwards, q.name) case None => Neither case Some(t) => ForwardInfo(t))
  }

  class HostServer {
    var thunkDatabase: ThunkDatabase
    var loadedPackPrefixes: set<string>
    var vars: Vars
    var autoDiscover: bool

    ghost predicate Valid()
      reads this, thunkDatabase
    {
      thunkDatabase.Valid()
    }

    ghost function State(): Layers
      reads this, thunkDatabase
    {
      Layers(thunkDatabase.forwards, thunkDatabase.reverseds, loadedPackPrefixes)
    }

    /** `configureThunkDiscovery`, with the override file if one is configured. */
    constructor (vars: Vars, override: Option<File>, autoDiscover: bool)
      ensures Valid() && fresh(thunkDatabase) && this.vars == vars && this.autoDiscover == autoDiscover
      ensures var file := if override.None? then None else override.value;
              State() == Layers(Layered([], Forwards(file, vars), true), Reverseds(file), {})
    {
      this.vars, this.autoDiscover, loadedPackPrefixes := vars, autoDiscover, {};
      var db := new ThunkDatabase();
      thunkDatabase := db;
      new;
      if override.Some? {
        var _ := db.Load(override.value, vars);
      }
    }

    /** `getThunkInfo`. */
    method GetThunkInfo(q: Request) returns (r: ThunkInfo)
      requires Valid()
      modifies this`loadedPackPrefixes, thunkDatabase
      ensures Valid() && State() == After(old(State()), q, autoDiscover, vars)
      ensures q.isReverse ==> r == (match LookupReversed(State().reverseds, q.name) case None => Neither case Some(t) => ReversedInfo(t))
      ensures !q.isReverse ==> r == (match LookupForward(State().forwards, q.name) case None => Neither case Some(t) => ForwardInfo(t))
      ensures r == Answer(State(), q)
    {
      hide LookupForward, LookupReversed, Layered, LayeredReversed, Resolved;
      if q.isReverse {
        var t := thunkDatabase.FindReversed(q.name);
        return if t.None? then Neither else ReversedInfo(t.value);
      }
      var t := ResolveForwardThunk(q);
      r := if t.None? then Neither else ForwardInfo(t.value);
    }

    /** `resolveForwardThunk`. */
    method ResolveForwardThunk(q: Request) returns (r: Option<ForwardThunk>)
      requires Valid() && !q.isReverse
      modifies this`loadedPackPrefixes, thunkDatabase
      ensures Valid() && State() == After(old(State()), q, autoDiscover, vars)
      ensures r == LookupForward(State().forwards, q.name)
    {
      hide LookupForward, LookupReversed, Layered, LayeredReversed, Resolved;
      r := thunkDatabase.FindForward(q.name);
      if r.Some? {
        return;
      }
      if !autoDiscover || q.path == [] {
        return None;
      }
      var prefix := PackOf(q.path);
      if prefix.None? || q.files.normal in loadedPackPrefixes {
        return None;
      }
      loadedPackPrefixes := loadedPackPrefixes + {q.files.normal};
      if q.files.json.Some? {
        var _ := thunkDatabase.LoadPack(q.files.json.value, q.files.gtlDir, q.files.htlDir, vars);
      }
      r := thunkDatabase.FindForward(q.name);
    }
  }

  // ----- runs -----

  function AfterAll(l: Layers, qs: seq<Request>, autoDiscover: bool, vars: Vars): Layers
    decreases |qs|
  {
    if qs == [] then l else AfterAll(After(l, qs[0], autoDiscover, vars), qs[1..], autoDiscover, vars)
  }

  /** Later lists extend earlier ones: entries are neither removed, changed nor moved. */
  predicate Extends(l: Layers, m: Layers) {
    && l.forwards <= m.forwards && l.reverseds <= m.reverseds && l.loaded <= m.loaded
  }

  lemma AfterExtends(l: Layers, q: Request, autoDiscover: bool, vars: Vars)
    requires DistinctKeys(l.forwards)
    ensures Extends(l, After(l, q, autoDiscover, vars)) && DistinctKeys(After(l, q, autoDiscover, vars).forwards)
  {
    hide Layered, LayeredReversed, DistinctKeys, Resolved, LookupForward;
    if Discovers(l, q, autoDiscover) && q.files.json.Some? {
      var more := Forwards(q.files.json.value, PackVars(vars, q.files.gtlDir, q.files.htlDir));
      LayeredShape(l.forwards, more, false);
    }
  }

  /** Over every sequence of requests, whatever packs they discover: a name that resolves, forward or
      reversed, keeps its entry, and forward keys stay unique. */
  lemma {:induction false} ResolvedNamesStay(l: Layers, qs: seq<Request>, autoDiscover: bool, vars: Vars, name: string)
    requires DistinctKeys(l.forwards)
    ensures var m := AfterAll(l, qs, autoDiscover, vars);
            && Extends(l, m) && DistinctKeys(m.forwards)
            && (LookupForward(l.forwards, name).Some? ==> LookupForward(m.forwards, name) == LookupForward(l.forwards, name))
            && (LookupReversed(l.reverseds, name).Some? ==> LookupReversed(m.reverseds, name) == LookupReversed(l.reverseds, name))
    decreases |qs|
  {
    if qs != [] {
      var next := After(l, qs[0], autoDiscover, vars);
      AfterExtends(l, qs[0], autoDiscover, vars);
      ExtensionResolves(l, next, name);
      ResolvedNamesStay(next, qs[1..], autoDiscover, vars, name);
    }
  }

  lemma ExtensionResolves(l: Layers, m: Layers, name: string)
    requires Extends(l, m)
    ensures LookupForward(l.forwards, name).Some? ==> LookupForward(m.forwards, name) == LookupForward(l.forwards, name)
    ensures LookupReversed(l.reverseds, name).Some? ==> LookupReversed(m.reverseds, name) == LookupReversed(l.reverseds, name)
  {
    FirstMatchStays(ForwardNames(l.forwards), ForwardNames(m.forwards), name);
    FirstMatchStays(ReversedNames(l.reverseds), ReversedNames(m.reverseds), name);
  }

  /** Two equal requests in a run get the same answer unless the first found nothing. */
  lemma AnswersStay(l: Layers, q: Request, qs: seq<Request>, autoDiscover: bool, vars: Vars)
    requires DistinctKeys(l.forwards)
    ensures var first := After(l, q, autoDiscover, vars);
            var again := After(AfterAll(first, qs, autoDiscover, vars), q, autoDiscover, vars);
            Answer(first, q) != Neither ==> Answer(again, q) == Answer(first, q)
  {
    hide LookupForward, LookupReversed, After;
    var first := After(l, q, autoDiscover, vars);
    AfterExtends(l, q, autoDiscover, vars);
    ResolvedNamesStay(first, qs + [q], autoDiscover, vars, q.name);
    AfterAllMore(first, qs, q, autoDiscover, vars);
  }

  lemma {:induction false} AfterAllMore(l: Layers, qs: seq<Request>, q: Request, autoDiscover: bool, vars: Vars)
    ensures AfterAll(l, qs + [q], autoDiscover, vars) == After(AfterAll(l, qs, autoDiscover, vars), q, autoDiscover, vars)
    decreases |qs|
  {
    hide After;
    if qs == [] {
      assert [] + [q] == [q] && [q][1..] == [];
    } else {
      assert (qs + [q])[1..] == qs[1..] + [q];
      AfterAllMore(After(l, qs[0], autoDiscover, vars), qs[1..], q, autoDiscover, vars);
    }
  }

  /** A pack is layered at most once: after a discovery no later request of the run discovers a pack
      of the same prefix. */
  lemma PackIsLayeredOnce(l: Layers, q: Request, qs: seq<Request>, again: Request, autoDiscover: bool, vars: Vars)
    requires DistinctKeys(l.forwards) && Discovers(l, q, autoDiscover) && again.files.normal == q.files.normal
    ensures !Discovers(AfterAll(After(l, q, autoDiscover, vars), qs, autoDiscover, vars), again, autoDiscover)
  {
    var first := After(l, q, autoDiscover, vars);
    assert q.files.normal in first.loaded;
    AfterExtends(l, q, autoDiscover, vars);
    ResolvedNamesStay(first, qs, autoDiscover, vars, q.name);
  }

  /** With discovery switched off, and by reverse requests in any case, a run changes nothing. */
  lemma {:induction false} NothingDiscovered(l: Layers, qs: seq<Request>, autoDiscover: bool, vars: Vars)
    requires !autoDiscover || forall q | q in qs :: q.isReverse
    ensures AfterAll(l, qs, autoDiscover, vars) == l
    decreases |qs|
  {
    if qs != [] {
      assert qs[0] in qs && forall q | q in qs[1..] :: q in qs;
      NothingDiscovered(l, qs[1..], autoDiscover, vars);
    }
  }

  /** A forward request for a name that is not resolved, from a thunk in the standard layout of a pack that
      has not been met, layers that pack under what is there: an entry that is there stays, of its own
      entries the first of a name is stored, with its own directories for the variables, and of its
      reversed entries those whose name was not resolved come behind. */
  lemma PackIsLayered(l: Layers, q: Request, vars: Vars, prefix: Path, arch: string, lib: string, file: string, key: string)
    requires !q.isReverse && LookupForward(l.forwards, q.name) == None
    requires prefix != [] && q.path == prefix + [arch, lib, "x86_64-LoreGTL", file] && q.files.normal !in l.loaded && q.files.json.Some?
    ensures var m, doc := After(l, q, true, vars), q.files.json.value;
            && m.loaded == l.loaded + {q.files.normal}
            && ByKey(m.forwards, key)
               == (if ByKey(l.forwards, key).Some? then ByKey(l.forwards, key)
                   else ByKey(Forwards(doc, vars["GTL_DIR" := q.files.gtlDir]["HTL_DIR" := q.files.htlDir]), key))
            && |l.reverseds| <= |m.reverseds| && m.reverseds[..|l.reverseds|] == l.reverseds
            && forall e :: e in m.reverseds[|l.reverseds|..] <==> e in Reverseds(doc) && LookupReversed(l.reverseds, e.key) == None
  {
    hide LookupForward, Layered, LayeredReversed, ByKey, Resolved, Reverseds, Forwards, LookupReversed;
    PackLayout(prefix, arch, lib, "x86_64-LoreGTL", file);
    var doc := q.files.json.value;
    PackKeepsTheFirst(l.forwards, Forwards(doc, PackVars(vars, q.files.gtlDir, q.files.htlDir)), key);
    ReversedsUnder(l.reverseds, Reverseds(doc), Resolved(l.reverseds));
    forall e | e in Reverseds(doc) ensures e.key in Resolved(l.reverseds) <==> LookupReversed(l.reverseds, e.key).Some? {
      ResolvedIsFound(l.reverseds, e.key);
    }
  }

  lemma ResolvedIsFound(es: seq<Reversed>, name: string)
    ensures name in Resolved(es) <==> LookupReversed(es, name).Some?
  {
    var at := FirstMatch(ReversedNames(es), name);
    if at.Some? { assert name in ReversedNames(es)[at.value]; }
  }

  lemma {:induction false} ReversedsUnder(es: seq<Reversed>, more: seq<Reversed>, known: set<string>)
    ensures var r := LayeredReversed(es, more, known, false);
            |es| <= |r| && r[..|es|] == es && forall e :: e in r[|es|..] <==> e in more && e.key !in known
    decreases |more|
  {
    if more != [] {
      var r := LayeredReversed(es, more, known, false);
      assert forall e :: e in more <==> e == more[0] || e in more[1..];
      if more[0].key in known {
        ReversedsUnder(es, more[1..], known);
      } else {
        ReversedsUnder(es + [more[0]], more[1..], known);
        assert r[..|es|] == r[..|es| + 1][..|es|] && r[|es|] == r[..|es| + 1][|es|];
        assert r[|es|..] == [r[|es|]] + r[|es| + 1..];
      }
    }
  }

  // ----- names over a run -----

  /** The forward names that the thunk packs discovered in a run are written with. */
  function PackKeys(l: Layers, qs: seq<Request>, autoDiscover: bool, vars: Vars): set<string>
    decreases |qs|
  {
    if qs == [] then {}
    else
      var q := qs[0];
      (if Discovers(l, q, autoDiscover) && q.files.json.Some?
       then KeysOf(Forwards(q.files.json.value, PackVars(vars, q.files.gtlDir, q.files.htlDir))) else {})
      + PackKeys(After(l, q, autoDiscover, vars), qs[1..], autoDiscover, vars)
  }

  lemma AfterKeys(l: Layers, q: Request, autoDiscover: bool, vars: Vars)
    requires NamesFollowKeys(l.forwards)
    ensures var m := After(l, q, autoDiscover, vars);
            && NamesFollowKeys(m.forwards)
            && KeysOf(m.forwards) == KeysOf(l.forwards) + PackKeys(l, [q], autoDiscover, vars)
  {
    hide Layered, LayeredReversed, KeysOf, NamesFollowKeys, Forwards, Resolved, Discovers;
    if Discovers(l, q, autoDiscover) && q.files.json.Some? {
      var more := Forwards(q.files.json.value, PackVars(vars, q.files.gtlDir, q.files.htlDir));
      DocumentNamesFollow(q.files.json.value, PackVars(vars, q.files.gtlDir, q.files.htlDir));
      LayeredKeys(l.forwards, more, false);
    }
    assert [q][1..] == [];
  }

  lemma DocumentNamesFollow(file: File, vars: Vars)
    ensures NamesFollowKeys(Forwards(file, vars))
  {
  }

  lemma {:induction false} RunKeys(l: Layers, qs: seq<Request>, autoDiscover: bool, vars: Vars)
    requires NamesFollowKeys(l.forwards)
    ensures var m := AfterAll(l, qs, autoDiscover, vars);
            NamesFollowKeys(m.forwards) && KeysOf(m.forwards) == KeysOf(l.forwards) + PackKeys(l, qs, autoDiscover, vars)
    decreases |qs|
  {
    hide After, KeysOf, NamesFollowKeys, Forwards, Discovers;
    if qs != [] {
      AfterKeys(l, qs[0], autoDiscover, vars);
      assert [qs[0]][1..] == [];
      RunKeys(After(l, qs[0], autoDiscover, vars), qs[1..], autoDiscover, vars);
    }
  }

  /** After loading a document and answering any sequence of requests, the names of the forward entries
      are unique as C strings if and only if no two names written in that document and in the packs
      discovered since differ only behind their first NUL. */
  lemma NamesStayUnique(file: File, reverseds: seq<Reversed>, qs: seq<Request>, autoDiscover: bool, vars: Vars)
    ensures var start := Layers(Layered([], Forwards(file, vars), true), reverseds, {});
            DistinctNames(AfterAll(start, qs, autoDiscover, vars).forwards)
            <==> ClashFree(KeysOf(Forwards(file, vars)) + PackKeys(start, qs, autoDiscover, vars))
  {
    hide Layered, KeysOf, NamesFollowKeys, Forwards, PackKeys, AfterAll, DistinctNames, ClashFree;
    var start := Layers(Layered([], Forwards(file, vars), true), reverseds, {});
    NoKeys();
    DocumentNamesFollow(file, vars);
    LayeredShape([], Forwards(file, vars), true);
    LayeredKeys([], Forwards(file, vars), true);
    assert {} + KeysOf(Forwards(file, vars)) == KeysOf(Forwards(file, vars));
    RunKeys(start, qs, autoDiscover, vars);
    ResolvedNamesStay(start, qs, autoDiscover, vars, "");
    StoredNamesAreUnique(AfterAll(start, qs, autoDiscover, vars).forwards);
  }
}
