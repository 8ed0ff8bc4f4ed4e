/** What a JSON document of thunks says, item by item as it is written, and that the database answers with
    exactly that. */
module ThunkWritten {
  import opened Wrappers
  import opened ThunkEntries
  import opened ThunkDatabase

  // ----- members of an object -----

  /** The key is written in these characters. */
  predicate Keyed(m: J.Member, key: string) {
    |m.key| == |key| && forall k | 0 <= k < |key| :: m.key[k] as char == key[k]
  }

  ghost predicate DistinctMembers(obj: seq<J.Member>) {
    forall i, j | 0 <= i < j < |obj| :: obj[i].key != obj[j].key
  }

  ghost predicate Has(obj: seq<J.Member>, key: string, v: J.Json) {
    DistinctMembers(obj) && exists m | m in obj :: Keyed(m, key) && m.value == v
  }

  ghost predicate Lacks(obj: seq<J.Member>, key: string) { forall m | m in obj :: !Keyed(m, key) }

  lemma KeyedIsText(m: J.Member, key: string)
    ensures Keyed(m, key) <==> Text(m.key) == key
  {
  }

  lemma SameKey(a: J.Member, b: J.Member, key: string)
    requires Keyed(a, key) && Keyed(b, key)
    ensures a.key == b.key
  {
    forall k | 0 <= k < |a.key| ensures a.key[k] == b.key[k] { assert a.key[k] as char == key[k] == b.key[k] as char; }
  }

  lemma {:induction false} HasIsField(obj: seq<J.Member>, key: string, v: J.Json)
    requires Has(obj, key, v)
    ensures Field(obj, key) == Some(v)
    decreases |obj|
  {
    var k :| 0 <= k < |obj| && Keyed(obj[k], key) && obj[k].value == v;
    KeyedIsText(obj[0], key);
    if k > 0 {
      if Keyed(obj[0], key) { SameKey(obj[0], obj[k], key); }
      assert obj[1..][k - 1] == obj[k] && obj[k] in obj[1..];
      HasIsField(obj[1..], key, v);
    }
  }

  lemma {:induction false} LacksIsNoField(obj: seq<J.Member>, key: string)
    requires Lacks(obj, key)
    ensures Field(obj, key) == None
    decreases |obj|
  {
    if obj != [] {
      assert obj[0] in obj && forall m | m in obj[1..] :: m in obj;
      KeyedIsText(obj[0], key);
      LacksIsNoField(obj[1..], key);
    }
  }

  /** A text as it is written in JSON: not empty and without NUL. */
  predicate Plain(b: J.bytes) { b != [] && 0 !in b }

  lemma PlainText(b: J.bytes)
    requires Plain(b)
    ensures Text(b) != "" && CStr(Text(b)) == Text(b)
  {
    assert NUL !in Text(b);
  }

  // ----- arrays of strings -----

  ghost predicate WritesStrings(items: seq<J.Json>, texts: seq<J.bytes>) {
    |items| == |texts| && forall k | 0 <= k < |items| :: items[k] == J.Str(texts[k]) && Plain(texts[k])
  }

  function Texts(texts: seq<J.bytes>): (r: seq<string>)
    ensures |r| == |texts| && forall k | 0 <= k < |r| :: r[k] == Text(texts[k])
  {
    seq(|texts|, k requires 0 <= k < |texts| => Text(texts[k]))
  }

  /** Of an array the non-empty strings count, in order, and nothing else. */
  lemma {:induction false} StringsCollected(a: seq<J.Json>, b: seq<J.Json>, item: J.Json)
    ensures NonEmptyStrings(a + b) == NonEmptyStrings(a) + NonEmptyStrings(b)
    ensures NonEmptyStrings([item]) == match item case Str(s) => (if s == [] then [] else [Text(s)]) case _ => []
    decreases |a|
  {
    assert [item][1..] == [] && NonEmptyStrings([]) == [];
    if a == [] {
      assert a + b == b;
    } else {
      assert (a + b)[1..] == a[1..] + b && (a + b)[0] == a[0];
      StringsCollected(a[1..], b, item);
    }
  }

  lemma {:induction false} WrittenStrings(items: seq<J.Json>, texts: seq<J.bytes>)
    requires WritesStrings(items, texts)
    ensures CStrs(NonEmptyStrings(items)) == Texts(texts)
    decreases |items|
  {
    if items != [] {
      PlainText(texts[0]);
      WrittenStrings(items[1..], texts[1..]);
      assert NonEmptyStrings(items) == [Text(texts[0])] + NonEmptyStrings(items[1..]);
      assert Texts(texts) == [Text(texts[0])] + Texts(texts[1..]);
    }
  }

  /** The array under the key holds these texts; left out, it holds none. */
  ghost predicate HasStrings(obj: seq<J.Member>, key: string, texts: seq<J.bytes>) {
    || (Lacks(obj, key) && texts == [])
    || exists items :: Has(obj, key, J.Array(items)) && WritesStrings(items, texts)
  }

  lemma StringsField(obj: seq<J.Member>, key: string, texts: seq<J.bytes>)
    requires HasStrings(obj, key, texts)
    ensures CStrs(JsonStringArray(obj, key)) == Texts(texts)
  {
    if Lacks(obj, key) && texts == [] {
      LacksIsNoField(obj, key);
      assert Texts(texts) == [];
    } else {
      var items :| Has(obj, key, J.Array(items)) && WritesStrings(items, texts);
      HasIsField(obj, key, J.Array(items));
      WrittenStrings(items, texts);
    }
  }

  lemma StringField(obj: seq<J.Member>, key: string, text: J.bytes)
    requires Has(obj, key, J.Str(text)) && Plain(text)
    ensures JsonString(obj, key) == Some(Text(text)) && CStr(Text(text)) == Text(text) && Text(text) != ""
  {
    HasIsField(obj, key, J.Str(text));
    PlainText(text);
  }

  // ----- reversed thunks -----

  /** A reversed entry as a document writes it. */
  datatype WrittenReversed = WrittenReversed(name: J.bytes, fileName: J.bytes, alias: seq<J.bytes>, thunks: seq<J.bytes>)

  ghost predicate WritesReversed(item: J.Json, w: WrittenReversed) {
    && item.Object? && Plain(w.name) && Plain(w.fileName)
    && Has(item.members, "name", J.Str(w.name)) && Has(item.members, "fileName", J.Str(w.fileName))
    && HasStrings(item.members, "alias", w.alias) && HasStrings(item.members, "thunks", w.thunks)
  }

  /** What is written: four texts and lists of texts, taken over as they are. */
  function EntryOf(w: WrittenReversed): ReversedThunk {
    ReversedThunk(Text(w.name), Texts(w.alias), Text(w.fileName), Texts(w.thunks))
  }

  /** An object that writes out a reversed entry gives exactly that entry. */
  lemma WrittenOutReversed(item: J.Json, w: WrittenReversed)
    requires WritesReversed(item, w)
    ensures ReversedOf(item) == Some(Reversed(Text(w.name), EntryOf(w)))
  {
    hide Has, HasStrings, JsonString, JsonStringArray, CStr, CStrs;
    StringField(item.members, "name", w.name);
    StringField(item.members, "fileName", w.fileName);
    StringsField(item.members, "alias", w.alias);
    StringsField(item.members, "thunks", w.thunks);
  }

  lemma {:induction false} WrittenReverseds(items: seq<J.Json>, ws: seq<WrittenReversed>)
    requires |items| == |ws| && forall k | 0 <= k < |items| :: WritesReversed(items[k], ws[k])
    ensures var es := ReversedsOf(items); |es| == |ws| && forall k | 0 <= k < |es| :: es[k].thunk == EntryOf(ws[k])
    decreases |items|
  {
    hide WritesReversed, ReversedOf;
    if items != [] {
      WrittenOutReversed(items[0], ws[0]);
      WrittenReverseds(items[1..], ws[1..]);
      assert ReversedsOf(items) == [ReversedOf(items[0]).value] + ReversedsOf(items[1..]);
    }
  }

  /** The document lists these items under the key. */
  ghost predicate Lists(file: File, key: string, items: seq<J.Json>) {
    file.Some? && file.value.Object? && Has(file.value.members, key, J.Array(items))
  }

  lemma ListedItems(file: File, key: string, items: seq<J.Json>)
    requires Lists(file, key, items)
    ensures IsDatabase(file) && ArrayField(file.value, key) == items
  {
    HasIsField(file.value.members, key, J.Array(items));
  }

  /** The query is the name or an alias of the entry. */
  predicate Answers(w: WrittenReversed, query: string) {
    query == Text(w.name) || query in Texts(w.alias)
  }

  /** A document is loaded and asked for a reversed thunk: the answer is the first entry written in it whose
      name or alias is asked for, with the name, file, aliases and thunks it writes, or none. */
  method LoadAndFindReversed(file: File, vars: Vars, query: string, ghost items: seq<J.Json>, ghost ws: seq<WrittenReversed>)
    returns (r: Option<ReversedThunk>)
    requires Lists(file, "reversedThunks", items)
    requires |items| == |ws| && forall k | 0 <= k < |items| :: WritesReversed(items[k], ws[k])
    ensures forall k | 0 <= k < |ws| && Answers(ws[k], query) && (forall j | 0 <= j < k :: !Answers(ws[j], query)) ::
              r == Some(EntryOf(ws[k]))
    ensures (forall k | 0 <= k < |ws| :: !Answers(ws[k], query)) ==> r == None
  {
    hide Lists, WritesReversed, ReversedsOf, FirstMatch, Layered, EntryOf;
    ListedItems(file, "reversedThunks", items);
    WrittenReverseds(items, ws);
    var db := new ThunkDatabase();
    var ok := db.Load(file, vars);
    assert db.reverseds == ReversedsOf(items);
    r := db.FindReversed(query);
    ReversedAnswer(db.reverseds, ws, query);
  }

  lemma ReversedAnswer(es: seq<Reversed>, ws: seq<WrittenReversed>, query: string)
    requires |es| == |ws| && forall k | 0 <= k < |es| :: es[k].thunk == EntryOf(ws[k])
    ensures forall k | 0 <= k < |ws| && Answers(ws[k], query) && (forall j | 0 <= j < k :: !Answers(ws[j], query)) ::
              LookupReversed(es, query) == Some(EntryOf(ws[k]))
    ensures (forall k | 0 <= k < |ws| :: !Answers(ws[k], query)) ==> LookupReversed(es, query) == None
  {
    hide FirstMatch;
    var names := ReversedNames(es);
    forall k | 0 <= k < |ws| ensures query in names[k] <==> Answers(ws[k], query) {
      assert names[k] == [Text(ws[k].name)] + Texts(ws[k].alias);
    }
    assert FirstMatch(names, query).Some? ==> Answers(ws[FirstMatch(names, query).value], query);
  }

  // ----- forward thunks -----

  datatype WrittenForward = WrittenForward(name: J.bytes, alias: seq<J.bytes>, guest: J.bytes, host: J.bytes, library: J.bytes)

  ghost predicate WritesForward(item: J.Json, w: WrittenForward) {
    && item.Object? && Plain(w.name) && Plain(w.guest) && Plain(w.host) && Plain(w.library)
    && Has(item.members, "name", J.Str(w.name)) && HasStrings(item.members, "alias", w.alias)
    && Has(item.members, "guestThunk", J.Str(w.guest)) && Has(item.members, "hostThunk", J.Str(w.host))
    && Has(item.members, "hostLibrary", J.Str(w.library))
  }

  /** The lookup of `varexp` over a map: a variable that is missing is empty. */
  ghost predicate Finds(find: string -> string, vars: Vars) {
    forall n :: find(n) == if n in vars then vars[n] else ""
  }

  /** What is written: its three paths expanded by the variables. */
  function ForwardEntry(w: WrittenForward, find: string -> string): ForwardThunk {
    ForwardThunk(Text(w.name), Texts(w.alias), CStr(VarExp.Expand(Text(w.guest), find)),
                 CStr(VarExp.Expand(Text(w.host), find)), CStr(VarExp.Expand(Text(w.library), find)))
  }

  /** An object that writes out a forward entry gives exactly that entry. */
  lemma WrittenOutForward(item: J.Json, vars: Vars, w: WrittenForward, find: string -> string)
    requires WritesForward(item, w) && Finds(find, vars)
    ensures ForwardOf(item, vars) == Some(Forward(Text(w.name), ForwardEntry(w, find)))
  {
    hide Has, HasStrings, JsonString, JsonStringArray, CStr, CStrs, PathField, Finds, VarExp.Expand;
    StringField(item.members, "name", w.name);
    StringsField(item.members, "alias", w.alias);
    PathWritten(item.members, "guestThunk", vars, Under(Var(vars, "GTL_DIR"), Text(w.name) + ".so"), w.guest, find);
    PathWritten(item.members, "hostThunk", vars, Under(Var(vars, "HTL_DIR"), Text(w.name) + "_HTL.so"), w.host, find);
    PathWritten(item.members, "hostLibrary", vars, Some(Text(w.name) + ".so"), w.library, find);
  }

  lemma PathWritten(obj: seq<J.Member>, key: string, vars: Vars, missing: Option<string>, path: J.bytes, find: string -> string)
    requires Has(obj, key, J.Str(path)) && Plain(path) && Finds(find, vars)
    ensures PathField(obj, key, vars, missing) == Some(VarExp.Expand(Text(path), find))
  {
    hide VarExp.Expand, JsonString;
    HasIsField(obj, key, J.Str(path));
    StringField(obj, key, path);
    VarExp.SameLookup(Text(path), name => Var(vars, name), find);
  }

  /** A path that is left out lies in the default directory, under the name. */
  lemma LeftOutPaths(item: J.Json, vars: Vars, name: J.bytes, gtl: string, htl: string)
    requires item.Object? && Plain(name) && Has(item.members, "name", J.Str(name)) && Lacks(item.members, "alias")
    requires Lacks(item.members, "guestThunk") && Lacks(item.members, "hostThunk") && Lacks(item.members, "hostLibrary")
    requires "GTL_DIR" in vars && vars["GTL_DIR"] == gtl && "HTL_DIR" in vars && vars["HTL_DIR"] == htl
    ensures ForwardOf(item, vars)
            == if gtl == "" || htl == "" then None
               else Some(Forward(Text(name), ForwardThunk(Text(name), [], CStr(gtl + "/" + Text(name) + ".so"),
                                                          CStr(htl + "/" + Text(name) + "_HTL.so"), CStr(Text(name) + ".so"))))
  {
    hide Has, Lacks, JsonString;
    StringField(item.members, "name", name);
    LacksIsNoField(item.members, "alias");
    LacksIsNoField(item.members, "guestThunk");
    LacksIsNoField(item.members, "hostThunk");
    LacksIsNoField(item.members, "hostLibrary");
    JoinPath(gtl, Text(name), ".so");
    JoinPath(htl, Text(name), "_HTL.so");
  }

  /** A field that is a non-empty string, and one that is there but is none. */
  ghost predicate IsText(obj: seq<J.Member>, key: string) { exists b :: b != [] && Has(obj, key, J.Str(b)) }

  ghost predicate IsNoText(obj: seq<J.Member>, key: string) {
    exists v :: Has(obj, key, v) && !(v.Str? && v.s != [])
  }

  /** Which objects give a forward entry: those with a name whose paths are each a text or, where there
      is a default, left out. */
  lemma CompleteForwards(obj: seq<J.Member>, vars: Vars)
    requires DistinctMembers(obj)
    ensures ForwardOf(J.Object(obj), vars).Some? <==>
              && IsText(obj, "name")
              && (IsText(obj, "guestThunk") || (Lacks(obj, "guestThunk") && "GTL_DIR" in vars && vars["GTL_DIR"] != ""))
              && (IsText(obj, "hostThunk") || (Lacks(obj, "hostThunk") && "HTL_DIR" in vars && vars["HTL_DIR"] != ""))
              && (IsText(obj, "hostLibrary") || Lacks(obj, "hostLibrary"))
  {
    FieldKinds(obj, "name");
    FieldKinds(obj, "guestThunk");
    FieldKinds(obj, "hostThunk");
    FieldKinds(obj, "hostLibrary");
    hide IsText, Lacks, DistinctMembers, JsonString, Field, VarExp.Expand;
  }

  lemma CompleteReverseds(obj: seq<J.Member>)
    requires DistinctMembers(obj)
    ensures ReversedOf(J.Object(obj)).Some? <==> IsText(obj, "name") && IsText(obj, "fileName")
  {
    FieldKinds(obj, "name");
    FieldKinds(obj, "fileName");
    hide IsText, DistinctMembers, JsonString;
  }

  lemma FieldKinds(obj: seq<J.Member>, key: string)
    requires DistinctMembers(obj)
    ensures IsText(obj, key) <==> JsonString(obj, key).Some?
    ensures Lacks(obj, key) <==> Field(obj, key).None?
  {
    hide DistinctMembers, Keyed;
    FieldOf(obj, key);
    if b :| b != [] && Has(obj, key, J.Str(b)) {
      HasIsField(obj, key, J.Str(b));
      assert Text(b) != "";
    }
    if JsonString(obj, key).Some? {
      var b := Field(obj, key).value.s;
      assert b != [] && Has(obj, key, J.Str(b));
    }
    if Lacks(obj, key) { LacksIsNoField(obj, key); }
  }

  lemma {:induction false} FieldOf(obj: seq<J.Member>, key: string)
    ensures match Field(obj, key)
            case None => Lacks(obj, key)
            case Some(v) => exists m | m in obj :: Keyed(m, key) && m.value == v
    decreases |obj|
  {
    if obj != [] {
      KeyedIsText(obj[0], key);
      hide Keyed;
      FieldOf(obj[1..], key);
      assert obj[0] in obj;
      assert forall m :: m in obj <==> m == obj[0] || m in obj[1..];
    }
  }

  predicate AnswersForward(w: WrittenForward, query: string) {
    query == Text(w.name) || query in Texts(w.alias)
  }

  lemma {:induction false} WrittenForwards(items: seq<J.Json>, vars: Vars, ws: seq<WrittenForward>, find: string -> string)
    requires Finds(find, vars) && |items| == |ws| && forall k | 0 <= k < |items| :: WritesForward(items[k], ws[k])
    ensures var es := ForwardsOf(items, vars);
            |es| == |ws| && forall k | 0 <= k < |es| :: es[k].key == Text(ws[k].name) && es[k].thunk == ForwardEntry(ws[k], find)
    decreases |items|
  {
    hide WritesForward, ForwardOf, Finds, ForwardEntry;
    if items != [] {
      WrittenOutForward(items[0], vars, ws[0], find);
      WrittenForwards(items[1..], vars, ws[1..], find);
      assert ForwardsOf(items, vars) == [ForwardOf(items[0], vars).value] + ForwardsOf(items[1..], vars);
    }
  }

  lemma {:induction false} LayeredDistinct(es: seq<Forward>, more: seq<Forward>)
    requires DistinctKeys(es + more)
    ensures Layered(es, more, true) == es + more
    decreases |more|
  {
    if more == [] {
      assert es + more == es;
    } else {
      hide Position;
      var at := Position(es, more[0].key);
      assert (es + more)[|es|] == more[0];
      assert forall k | 0 <= k < |es| :: (es + more)[k] == es[k];
      assert es + more == (es + [more[0]]) + more[1..];
      LayeredDistinct(es + [more[0]], more[1..]);
    }
  }

  /** A document with distinct names is loaded and asked for a forward thunk: the answer is the first entry
      written in it whose name or alias is asked for, as its item writes it out. */
  method LoadAndFindForward(file: File, vars: Vars, query: string, find: string -> string, ghost items: seq<J.Json>, ghost ws: seq<WrittenForward>)
    returns (r: Option<ForwardThunk>)
    requires Lists(file, "forwardThunks", items) && Finds(find, vars)
    requires |items| == |ws| && forall k | 0 <= k < |items| :: WritesForward(items[k], ws[k])
    requires forall i, j | 0 <= i < j < |ws| :: Text(ws[i].name) != Text(ws[j].name)
    ensures forall k | 0 <= k < |ws| && AnswersForward(ws[k], query) && (forall j | 0 <= j < k :: !AnswersForward(ws[j], query)) ::
              r == Some(ForwardEntry(ws[k], find))
    ensures (forall k | 0 <= k < |ws| :: !AnswersForward(ws[k], query)) ==> r == None
  {
    hide Lists, WritesForward, ForwardsOf, FirstMatch, ForwardOf, Layered, Finds, ForwardEntry;
    ListedItems(file, "forwardThunks", items);
    WrittenForwards(items, vars, ws, find);
    LayeredDistinct([], ForwardsOf(items, vars));
    var db := new ThunkDatabase();
    var ok := db.Load(file, vars);
    assert [] + ForwardsOf(items, vars) == ForwardsOf(items, vars) == db.forwards;
    r := db.FindForward(query);
    ForwardAnswer(db.forwards, ws, query, find);
  }

  lemma ForwardAnswer(es: seq<Forward>, ws: seq<WrittenForward>, query: string, find: string -> string)
    requires |es| == |ws| && forall k | 0 <= k < |es| :: es[k].thunk == ForwardEntry(ws[k], find)
    ensures forall k | 0 <= k < |ws| && AnswersForward(ws[k], query) && (forall j | 0 <= j < k :: !AnswersForward(ws[j], query)) ::
              LookupForward(es, query) == Some(ForwardEntry(ws[k], find))
    ensures (forall k | 0 <= k < |ws| :: !AnswersForward(ws[k], query)) ==> LookupForward(es, query) == None
  {
    hide FirstMatch, CStr;
    var names := ForwardNames(es);
    forall k | 0 <= k < |ws| ensures query in names[k] <==> AnswersForward(ws[k], query) {
      assert names[k] == [Text(ws[k].name)] + Texts(ws[k].alias);
    }
    assert FirstMatch(names, query).Some? ==> AnswersForward(ws[FirstMatch(names, query).value], query);
  }
}
