/** The two tools agree: whatever the substituter looks up for a proc recorded by `stat`, at any
    struct depth and for out callbacks, `stat` has recorded and the document offers. */
module CallbackLookup {
  import opened Wrappers
  import opened Decimals
  import opened TypeGraph
  import opened CallbackTree
  import opened CallbackStat

  // ----- the manifest -----

  /** A ProcCbDesc: the callback, the alias its name hint or typedef gives it, the overlay signature it
      declares, and the typedef names of callbacks met before it. */
  datatype CallbackDesc = CallbackDesc(callback: CType, alias: string, overlay: Option<CType>, known: map<CType, string>)

  /** The manifest as the AST consumer collected it: C functions by name, the overlay signatures that
      ProcFnDesc declares, the ProcCbDescs in order, and the typedefs of callbacks, by name and by type. */
  datatype Manifest = Manifest(
    env: Env,
    functions: map<string, CType>,
    functionOverlays: map<string, CType>,
    callbackDescs: seq<CallbackDesc>,
    typedefs: map<string, CType>,
    namedAliases: map<CType, string>)
  {
    ghost predicate Valid() {
      && (forall n | n in functions :: functions[n].Fn?)
      && (forall n | n in functionOverlays :: IsFunctionPointer(functionOverlays[n]))
      && (forall d | d in callbackDescs :: IsFunctionPointer(d.callback) && (d.overlay.Some? ==> IsFunctionPointer(d.overlay.value)))
      && (forall n | n in typedefs :: IsFunctionPointer(typedefs[n]))
    }

    /** The signature a function's thunk really has. */
    function RealFunction(name: string): CType
      requires name in functions
    {
      if name in functionOverlays && functionOverlays[name].Ptr? then functionOverlays[name].to else functions[name]
    }

    function RealCallback(c: CType): CType
      requires c.Ptr?
    {
      var overlay := OverlayOf(callbackDescs, c);
      if overlay.Some? && overlay.value.Ptr? then overlay.value.to else c.to
    }
  }

  function OverlayOf(descs: seq<CallbackDesc>, c: CType): (r: Option<CType>)
    ensures r.Some? ==> exists d | d in descs :: d.callback == c && d.overlay == r
  {
    if descs == [] then None
    else if descs[|descs| - 1].callback == c then descs[|descs| - 1].overlay else OverlayOf(descs[..|descs| - 1], c)
  }

  // ----- what a run of stat collects -----

  function FunctionSeeds(m: Manifest, name: string): seq<Seed> {
    if name !in m.functions then []
    else
      [Seed(Ptr(m.functions[name]), "", false, m.namedAliases)]
      + if name in m.functionOverlays then [Seed(m.functionOverlays[name], "", false, m.namedAliases)] else []
  }

  function SectionSeeds(m: Manifest, names: seq<string>): seq<Seed> {
    if names == [] then [] else SectionSeeds(m, names[..|names| - 1]) + FunctionSeeds(m, names[|names| - 1])
  }

  function DescSeeds(d: CallbackDesc): seq<Seed> {
    [Seed(d.callback, d.alias, true, d.known)] + if d.overlay.Some? then [Seed(d.overlay.value, "", true, d.known)] else []
  }

  function DescsSeeds(descs: seq<CallbackDesc>): seq<Seed> {
    if descs == [] then [] else DescsSeeds(descs[..|descs| - 1]) + DescSeeds(descs[|descs| - 1])
  }

  /** The callback type that an entry of the config's Callback section names, if the manifest has it:
      a function behind an ampersand, or a typedef. */
  function Named(m: Manifest, token: string): Option<CType> {
    if token == "" then None
    else if token[0] == '&' then (if token[1..] in m.functions then Some(Ptr(m.functions[token[1..]])) else None)
    else if token in m.typedefs then Some(m.typedefs[token]) else None
  }

  /** The alias the entry gives it. */
  function NamedAlias(m: Manifest, token: string): string
    requires Named(m, token).Some?
  {
    if token[0] != '&' then token
    else if Named(m, token).value in m.namedAliases then m.namedAliases[Named(m, token).value] else "PFN_AUTO_" + token[1..]
  }

  function TokenSeeds(m: Manifest, token: string): seq<Seed> {
    if Named(m, token).None? then [] else [Seed(Named(m, token).value, NamedAlias(m, token), true, m.namedAliases)]
  }

  function TokensSeeds(m: Manifest, tokens: seq<string>): seq<Seed> {
    if tokens == [] then [] else TokensSeeds(m, tokens[..|tokens| - 1]) + TokenSeeds(m, tokens[|tokens| - 1])
  }

  /** Everything a run collects from, in order. */
  function StatSeeds(m: Manifest, guestToHost: seq<string>, hostToGuest: seq<string>, tokens: seq<string>): seq<Seed> {
    DescsSeeds(m.callbackDescs) + SectionSeeds(m, guestToHost) + SectionSeeds(m, hostToGuest) + TokensSeeds(m, tokens)
  }

  ghost predicate MetBySome(env: Env, log: seq<Seed>, t: CType) {
    exists s | s in log :: Meets(env, s.root, s.included, t)
  }

  /** The first alias that a seed meeting t has for it. */
  ghost function FirstAlias(env: Env, log: seq<Seed>, t: CType): string {
    if log == [] then ""
    else
      var before, s := FirstAlias(env, log[..|log| - 1], t), log[|log| - 1];
      if before != "" then before else if Meets(env, s.root, s.included, t) then AliasFor(s, t) else ""
  }

  /** The callbacks are exactly those that the seeds meet, each under its first alias. */
  ghost predicate Recorded(env: Env, log: seq<Seed>, callbacks: map<CType, string>) {
    && (forall t :: t in callbacks <==> MetBySome(env, log, t))
    && (forall t | t in callbacks :: callbacks[t] == FirstAlias(env, log, t))
  }

  lemma NoAliasUnmet(env: Env, log: seq<Seed>, t: CType)
    requires !MetBySome(env, log, t)
    ensures FirstAlias(env, log, t) == ""
  {
    hide Meets;
    if log != [] {
      assert log[|log| - 1] in log;
      assert forall s | s in log[..|log| - 1] :: s in log;
      NoAliasUnmet(env, log[..|log| - 1], t);
    }
  }

  lemma RecordedMore(env: Env, log: seq<Seed>, before: map<CType, string>, now: map<CType, string>, seed: Seed)
    requires Recorded(env, log, before) && GainedFrom(env, before, now, seed)
    ensures Recorded(env, log + [seed], now)
  {
    hide Meets;
    var more := log + [seed];
    assert more[..|more| - 1] == log;
    assert forall s :: s in more <==> s in log || s == seed;
    forall t ensures MetBySome(env, more, t) <==> MetBySome(env, log, t) || Meets(env, seed.root, seed.included, t) {
    }
    forall t | t in now ensures now[t] == FirstAlias(env, more, t) {
      if t !in before { NoAliasUnmet(env, log, t); }
    }
  }

  method Collect(summary: ManifestSummary, env: Env, seed: Seed, ghost log: seq<Seed>)
    requires Recorded(env, log, summary.callbacks)
    modifies summary`callbacks
    ensures Recorded(env, log + [seed], summary.callbacks)
  {
    hide Recorded, GainedFrom;
    ghost var before := summary.callbacks;
    CollectCallbackSignatures(summary, env, seed);
    RecordedMore(env, log, before, summary.callbacks, seed);
  }

  /** `collectConfigFunctionSection`. */
  method CollectFunctionSection(summary: ManifestSummary, m: Manifest, direction: Direction, names: seq<string>, ghost log: seq<Seed>)
    requires Recorded(m.env, log, summary.callbacks)
    modifies summary
    ensures Recorded(m.env, log + SectionSeeds(m, names), summary.callbacks)
    ensures summary.functions == Found(m, old(summary.functions), direction, names)
    ensures summary.missingFunctions == Missing(m, old(summary.missingFunctions), direction, names)
  {
    hide Recorded, Found, Missing, FunctionSeeds;
    NothingFound(m, summary.functions, direction);
    NothingFound(m, summary.missingFunctions, direction);
    assert log + [] == log;
    for i := 0 to |names|
      invariant Recorded(m.env, log + SectionSeeds(m, names[..i]), summary.callbacks)
      invariant summary.functions == Found(m, old(summary.functions), direction, names[..i])
      invariant summary.missingFunctions == Missing(m, old(summary.missingFunctions), direction, names[..i])
    {
      var name := names[i];
      assert names[..i + 1] == names[..i] + [name] && names[..i + 1][..i] == names[..i];
      OneMoreName(m, old(summary.functions), old(summary.missingFunctions), direction, names[..i], name);
      Regrouped(log, SectionSeeds(m, names[..i]), FunctionSeeds(m, name));
      if name in m.functions {
        CollectFunction(summary, m, direction, name, log + SectionSeeds(m, names[..i]));
      } else {
        summary.missingFunctions := summary.missingFunctions.With(direction, summary.missingFunctions.At(direction) + {name});
        NoSeeds(m, name, log + SectionSeeds(m, names[..i]));
      }
    }
    assert names[..|names|] == names;
  }

  lemma NoSeeds(m: Manifest, name: string, log: seq<Seed>)
    requires name !in m.functions
    ensures log + FunctionSeeds(m, name) == log
  {
  }

  lemma Regrouped(a: seq<Seed>, b: seq<Seed>, c: seq<Seed>)
    ensures a + b + c == a + (b + c)
  {
  }

  /** The entries of one direction, and the configured names that were found. */
  function Found(m: Manifest, before: PerDirection<set<string>>, direction: Direction, names: seq<string>): PerDirection<set<string>> {
    before.With(direction, before.At(direction) + set n | n in names && n in m.functions)
  }

  function Missing(m: Manifest, before: PerDirection<set<string>>, direction: Direction, names: seq<string>): PerDirection<set<string>> {
    before.With(direction, before.At(direction) + set n | n in names && n !in m.functions)
  }

  lemma NothingFound(m: Manifest, before: PerDirection<set<string>>, direction: Direction)
    ensures Found(m, before, direction, []) == before == Missing(m, before, direction, [])
  {
    assert (set n | n in [] && n in m.functions) == {} == set n | n in [] && n !in m.functions;
    assert before.At(direction) + {} == before.At(direction);
  }

  lemma OneMoreName(m: Manifest, found: PerDirection<set<string>>, missing: PerDirection<set<string>>, direction: Direction, names: seq<string>, name: string)
    ensures var was := Found(m, found, direction, names);
            Found(m, found, direction, names + [name]) == if name in m.functions then was.With(direction, was.At(direction) + {name}) else was
    ensures var was := Missing(m, missing, direction, names);
            Missing(m, missing, direction, names + [name]) == if name in m.functions then was else was.With(direction, was.At(direction) + {name})
  {
    var have, lack := set n | n in names && n in m.functions, set n | n in names && n !in m.functions;
    assert (set n | n in names + [name] && n in m.functions) == if name in m.functions then have + {name} else have;
    assert (set n | n in names + [name] && n !in m.functions) == if name in m.functions then lack else lack + {name};
    assert (found.At(direction) + have) + {name} == found.At(direction) + (have + {name});
    assert (missing.At(direction) + lack) + {name} == missing.At(direction) + (lack + {name});
  }

  method CollectFunction(summary: ManifestSummary, m: Manifest, direction: Direction, name: string, ghost log: seq<Seed>)
    requires Recorded(m.env, log, summary.callbacks) && name in m.functions
    modifies summary`functions, summary`callbacks
    ensures Recorded(m.env, log + FunctionSeeds(m, name), summary.callbacks)
    ensures summary.functions == old(summary.functions).With(direction, old(summary.functions).At(direction) + {name})
  {
    hide Recorded;
    summary.functions := summary.functions.With(direction, summary.functions.At(direction) + {name});
    var seed := Seed(Ptr(m.functions[name]), "", false, m.namedAliases);
    Collect(summary, m.env, seed, log);
    if name in m.functionOverlays {
      Collect(summary, m.env, Seed(m.functionOverlays[name], "", false, m.namedAliases), log + [seed]);
      Regrouped(log, [seed], [Seed(m.functionOverlays[name], "", false, m.namedAliases)]);
    }
    assert [seed] + [] == [seed];
  }

  /** `handleProcCbDesc`: a described callback type and its overlay are recorded as callbacks. */
  method CollectCallbackDesc(summary: ManifestSummary, env: Env, d: CallbackDesc, ghost log: seq<Seed>)
    requires Recorded(env, log, summary.callbacks)
    modifies summary`callbacks
    ensures Recorded(env, log + DescSeeds(d), summary.callbacks)
  {
    hide Recorded;
    var seed := Seed(d.callback, d.alias, true, d.known);
    Collect(summary, env, seed, log);
    if d.overlay.Some? {
      Collect(summary, env, Seed(d.overlay.value, "", true, d.known), log + [seed]);
      Regrouped(log, [seed], [Seed(d.overlay.value, "", true, d.known)]);
    }
    assert [seed] + [] == [seed];
  }

  /** `collectConfigCallbackSection`: every function and typedef listed there becomes a callback. */
  method CollectCallbackSection(summary: ManifestSummary, m: Manifest, tokens: seq<string>, ghost log: seq<Seed>)
    requires Recorded(m.env, log, summary.callbacks)
    modifies summary`callbacks
    ensures Recorded(m.env, log + TokensSeeds(m, tokens), summary.callbacks)
  {
    hide Recorded, TokenSeeds;
    assert log + [] == log;
    for i := 0 to |tokens|
      invariant Recorded(m.env, log + TokensSeeds(m, tokens[..i]), summary.callbacks)
    {
      assert tokens[..i + 1][..i] == tokens[..i];
      CollectToken(summary, m, tokens[i], log + TokensSeeds(m, tokens[..i]));
      Regrouped(log, TokensSeeds(m, tokens[..i]), TokenSeeds(m, tokens[i]));
    }
    assert tokens[..|tokens|] == tokens;
  }

  method CollectToken(summary: ManifestSummary, m: Manifest, token: string, ghost log: seq<Seed>)
    requires Recorded(m.env, log, summary.callbacks)
    modifies summary`callbacks
    ensures Recorded(m.env, log + TokenSeeds(m, token), summary.callbacks)
  {
    hide Recorded;
    assert log + [] == log;
    if token == "" {
      return;
    }
    if token[0] == '&' {
      var name := token[1..];
      if name in m.functions {
        var fp := Ptr(m.functions[name]);
        var alias := if fp in m.namedAliases then m.namedAliases[fp] else "PFN_AUTO_" + name;
        Collect(summary, m.env, Seed(fp, alias, true, m.namedAliases), log);
      }
      return;
    }
    if token in m.typedefs {
      Collect(summary, m.env, Seed(m.typedefs[token], token, true, m.namedAliases), log);
    }
  }

  /** A whole run of stat: the descriptions met in the manifest, then the config's three sections. */
  method Stat(m: Manifest, guestToHost: seq<string>, hostToGuest: seq<string>, tokens: seq<string>) returns (summary: ManifestSummary)
    ensures fresh(summary)
    ensures summary.functions.guestToHost == set n | n in guestToHost && n in m.functions
    ensures summary.functions.hostToGuest == set n | n in hostToGuest && n in m.functions
    ensures summary.missingFunctions.guestToHost == set n | n in guestToHost && n !in m.functions
    ensures summary.missingFunctions.hostToGuest == set n | n in hostToGuest && n !in m.functions
    ensures forall t :: t in summary.callbacks <==> Justified(m, guestToHost + hostToGuest, tokens, t)
    ensures Recorded(m.env, StatSeeds(m, guestToHost, hostToGuest, tokens), summary.callbacks)
  {
    hide Recorded, Justified, DescsSeeds, SectionSeeds, TokensSeeds;
    summary := new ManifestSummary();
    NothingRecorded(m.env);
    CollectDescs(summary, m);
    ghost var a, b := DescsSeeds(m.callbackDescs), SectionSeeds(m, guestToHost);
    CollectFunctionSection(summary, m, GuestToHost, guestToHost, a);
    CollectFunctionSection(summary, m, HostToGuest, hostToGuest, a + b);
    CollectCallbackSection(summary, m, tokens, a + b + SectionSeeds(m, hostToGuest));
    SeedsJustify(m, guestToHost, hostToGuest, tokens, summary.callbacks);
  }

  lemma NothingRecorded(env: Env)
    ensures Recorded(env, [], map[])
  {
  }

  method CollectDescs(summary: ManifestSummary, m: Manifest)
    requires Recorded(m.env, [], summary.callbacks)
    modifies summary`callbacks
    ensures Recorded(m.env, DescsSeeds(m.callbackDescs), summary.callbacks)
  {
    hide Recorded, DescSeeds;
    var descs := m.callbackDescs;
    for i := 0 to |descs|
      invariant Recorded(m.env, DescsSeeds(descs[..i]), summary.callbacks)
    {
      assert descs[..i + 1][..i] == descs[..i];
      CollectCallbackDesc(summary, m.env, descs[i], DescsSeeds(descs[..i]));
    }
    assert descs[..|descs|] == descs;
  }

  // ----- which callbacks these are -----

  /** t is met from a configured function or its overlay, from a described callback or its overlay, or
      from a callback that the config names. */
  ghost predicate Justified(m: Manifest, names: seq<string>, tokens: seq<string>, t: CType) {
    || (exists n | n in names && n in m.functions ::
          Meets(m.env, Ptr(m.functions[n]), false, t) || (n in m.functionOverlays && Meets(m.env, m.functionOverlays[n], false, t)))
    || (exists d | d in m.callbackDescs ::
          Meets(m.env, d.callback, true, t) || (d.overlay.Some? && Meets(m.env, d.overlay.value, true, t)))
    || (exists token | token in tokens && Named(m, token).Some? :: Meets(m.env, Named(m, token).value, true, t))
  }

  lemma {:induction false} SectionMeets(m: Manifest, names: seq<string>, t: CType)
    ensures MetBySome(m.env, SectionSeeds(m, names), t) <==>
              exists n | n in names && n in m.functions ::
                Meets(m.env, Ptr(m.functions[n]), false, t) || (n in m.functionOverlays && Meets(m.env, m.functionOverlays[n], false, t))
  {
    hide Meets;
    if names != [] {
      var init, last := names[..|names| - 1], names[|names| - 1];
      SectionMeets(m, init, t);
      MetByEither(m.env, SectionSeeds(m, init), FunctionSeeds(m, last), t);
      FunctionMeets(m, last, t);
      assert forall n :: n in names <==> n in init || n == last;
    }
  }

  lemma FunctionMeets(m: Manifest, n: string, t: CType)
    ensures MetBySome(m.env, FunctionSeeds(m, n), t) <==>
              n in m.functions
              && (Meets(m.env, Ptr(m.functions[n]), false, t) || (n in m.functionOverlays && Meets(m.env, m.functionOverlays[n], false, t)))
  {
    hide Meets;
    if n in m.functions {
      var s := FunctionSeeds(m, n);
      assert s[0] in s && (n in m.functionOverlays ==> s[1] in s);
    }
  }

  lemma MetByEither(env: Env, a: seq<Seed>, b: seq<Seed>, t: CType)
    ensures MetBySome(env, a + b, t) <==> MetBySome(env, a, t) || MetBySome(env, b, t)
  {
    hide Meets;
    assert forall s :: s in a + b <==> s in a || s in b;
  }

  lemma {:induction false} DescsMeet(m: Manifest, descs: seq<CallbackDesc>, t: CType)
    ensures MetBySome(m.env, DescsSeeds(descs), t) <==>
              exists d | d in descs :: Meets(m.env, d.callback, true, t) || (d.overlay.Some? && Meets(m.env, d.overlay.value, true, t))
  {
    hide Meets;
    if descs != [] {
      var init, last := descs[..|descs| - 1], descs[|descs| - 1];
      DescsMeet(m, init, t);
      MetByEither(m.env, DescsSeeds(init), DescSeeds(last), t);
      var s := DescSeeds(last);
      assert s[0] in s && (last.overlay.Some? ==> s[1] in s);
      assert forall d :: d in descs <==> d in init || d == last;
    }
  }

  lemma {:induction false} TokensMeet(m: Manifest, tokens: seq<string>, t: CType)
    ensures MetBySome(m.env, TokensSeeds(m, tokens), t) <==>
              exists token | token in tokens && Named(m, token).Some? :: Meets(m.env, Named(m, token).value, true, t)
  {
    hide Meets, Named, NamedAlias;
    if tokens != [] {
      var init, last := tokens[..|tokens| - 1], tokens[|tokens| - 1];
      TokensMeet(m, init, t);
      MetByEither(m.env, TokensSeeds(m, init), TokenSeeds(m, last), t);
      assert Named(m, last).Some? ==> TokenSeeds(m, last)[0] in TokenSeeds(m, last);
      assert forall token :: token in tokens <==> token in init || token == last;
    }
  }

  lemma SeedsJustify(m: Manifest, guestToHost: seq<string>, hostToGuest: seq<string>, tokens: seq<string>, callbacks: map<CType, string>)
    requires Recorded(m.env, StatSeeds(m, guestToHost, hostToGuest, tokens), callbacks)
    ensures forall t :: t in callbacks <==> Justified(m, guestToHost + hostToGuest, tokens, t)
  {
    hide Meets, MetBySome, FirstAlias, DescsSeeds, SectionSeeds, TokensSeeds, Named;
    forall t ensures t in callbacks <==> Justified(m, guestToHost + hostToGuest, tokens, t) {
      var a, b, c, d := DescsSeeds(m.callbackDescs), SectionSeeds(m, guestToHost), SectionSeeds(m, hostToGuest), TokensSeeds(m, tokens);
      DescsMeet(m, m.callbackDescs, t);
      SectionMeets(m, guestToHost, t);
      SectionMeets(m, hostToGuest, t);
      TokensMeet(m, tokens, t);
      MetByEither(m.env, a, b, t);
      MetByEither(m.env, a + b, c, t);
      MetByEither(m.env, a + b + c, d, t);
      assert forall n :: n in guestToHost + hostToGuest <==> n in guestToHost || n in hostToGuest;
    }
  }

  // ----- what the agreement needs -----

  /** Callbacks that a recorded callback's signature can meet are recorded too. */
  ghost predicate StatClosed(env: Env, callbacks: set<CType>) {
    forall c, t | c in callbacks && Meets(env, c, true, t) :: t in callbacks
  }

  /** Callbacks that calling fn can meet are recorded. */
  ghost predicate Covered(env: Env, callbacks: set<CType>, fn: CType)
    requires fn.Fn?
  {
    forall t | Meets(env, Ptr(fn), false, t) :: t in callbacks
  }

  ghost predicate StatInv(m: Manifest, functions: set<string>, callbacks: set<CType>) {
    && m.Valid()
    && (forall c | c in callbacks :: IsFunctionPointer(c))
    && StatClosed(m.env, callbacks)
    && (forall n | n in functions :: n in m.functions && Covered(m.env, callbacks, m.RealFunction(n)))
    && (forall d | d in m.callbackDescs && d.overlay.Some? :: d.overlay.value in callbacks)
  }

  lemma MeetsTransitive(env: Env, root: CType, included: bool, c: CType, t: CType)
    requires Meets(env, root, included, c) && Meets(env, c, true, t)
    ensures Meets(env, root, included, t)
  {
    var a :| Arrives(env, root, a, c) && (included || a != []);
    var b :| Arrives(env, c, b, t);
    WalksJoin(env, root, a, c, b, t);
  }

  lemma MeetsItself(env: Env, t: CType)
    requires IsFunctionPointer(t)
    ensures Meets(env, t, true, t)
  {
    assert Arrives(env, t, [], t);
  }

  /** The callbacks of a run are closed and cover every function found. */
  lemma StatIsClosed(m: Manifest, names: seq<string>, tokens: seq<string>, functions: set<string>, callbacks: set<CType>)
    requires m.Valid() && forall t :: t in callbacks <==> Justified(m, names, tokens, t)
    requires functions == set n | n in names && n in m.functions
    ensures StatInv(m, functions, callbacks)
  {
    forall c | c in callbacks ensures IsFunctionPointer(c) {
      assert Justified(m, names, tokens, c);
    }
    forall c, t | c in callbacks && Meets(m.env, c, true, t) ensures t in callbacks {
      JustifiedFurther(m, names, tokens, c, t);
    }
    hide Meets;
    forall n | n in functions ensures Covered(m.env, callbacks, m.RealFunction(n)) {
      forall t | Meets(m.env, Ptr(m.RealFunction(n)), false, t) ensures t in callbacks {
        assert Justified(m, names, tokens, t);
      }
    }
    forall d | d in m.callbackDescs && d.overlay.Some? ensures d.overlay.value in callbacks {
      MeetsItself(m.env, d.overlay.value);
      assert Justified(m, names, tokens, d.overlay.value);
    }
  }

  lemma JustifiedFurther(m: Manifest, names: seq<string>, tokens: seq<string>, c: CType, t: CType)
    requires Justified(m, names, tokens, c) && Meets(m.env, c, true, t)
    ensures Justified(m, names, tokens, t)
  {
    forall root, included | Meets(m.env, root, included, c) ensures Meets(m.env, root, included, t) {
      MeetsTransitive(m.env, root, included, c, t);
    }
    hide Meets, Named;
  }

  // ----- which aliases they have -----

  ghost function Prefer(first: string, second: string): string { if first != "" then first else second }

  lemma {:induction false} AliasOfAppended(env: Env, a: seq<Seed>, b: seq<Seed>, t: CType)
    ensures FirstAlias(env, a + b, t) == Prefer(FirstAlias(env, a, t), FirstAlias(env, b, t))
    decreases |b|
  {
    hide Meets;
    if b == [] {
      assert a + b == a;
    } else {
      AliasOfAppended(env, a, b[..|b| - 1], t);
      assert (a + b)[..|a + b| - 1] == a + b[..|b| - 1];
    }
  }

  lemma AliasOfOne(env: Env, seed: Seed, t: CType)
    ensures FirstAlias(env, [seed], t) == if Meets(env, seed.root, seed.included, t) then AliasFor(seed, t) else ""
  {
    assert [seed][..0] == [];
    assert FirstAlias(env, [], t) == "";
  }

  /** A callback that the config names ends up under the alias of the entry (a typedef's own name; for a
      function its typedef's, or one made up) unless a run without this entry and those behind it gives
      it one. */
  lemma AliasOfToken(m: Manifest, guestToHost: seq<string>, hostToGuest: seq<string>, tokens: seq<string>, k: nat, callbacks: map<CType, string>)
    requires m.Valid() && Recorded(m.env, StatSeeds(m, guestToHost, hostToGuest, tokens), callbacks) && k < |tokens|
    ensures var before, token := StatSeeds(m, guestToHost, hostToGuest, tokens[..k]), tokens[k];
            && (token != "" && token[0] != '&' && token in m.typedefs ==>
                  m.typedefs[token] in callbacks
                  && callbacks[m.typedefs[token]] == Prefer(FirstAlias(m.env, before, m.typedefs[token]), token))
            && (token != "" && token[0] == '&' && token[1..] in m.functions ==>
                  var fp := Ptr(m.functions[token[1..]]);
                  fp in callbacks
                  && (fp !in m.namedAliases ==> callbacks[fp] == Prefer(FirstAlias(m.env, before, fp), "PFN_AUTO_" + token[1..]))
                  && (fp in m.namedAliases && m.namedAliases[fp] != "" ==>
                        callbacks[fp] == Prefer(FirstAlias(m.env, before, fp), m.namedAliases[fp])))
  {
    var token := tokens[k];
    if Named(m, token).Some? {
      hide FirstAlias, Meets, Recorded;
      var t, seed := Named(m, token).value, TokenSeeds(m, token)[0];
      var before := StatSeeds(m, guestToHost, hostToGuest, tokens[..k]);
      var rest := SeedsBehindToken(m, guestToHost, hostToGuest, tokens, k);
      AliasGiven(m.env, before, seed, rest, callbacks);
    }
  }

  lemma AliasGiven(env: Env, before: seq<Seed>, seed: Seed, rest: seq<Seed>, callbacks: map<CType, string>)
    requires Recorded(env, before + [seed] + rest, callbacks) && seed.included && IsFunctionPointer(seed.root)
    ensures var t := seed.root;
            t in callbacks && (AliasFor(seed, t) != "" ==> callbacks[t] == Prefer(FirstAlias(env, before, t), AliasFor(seed, t)))
            && (rest == [] ==> callbacks[t] == Prefer(FirstAlias(env, before, t), AliasFor(seed, t)))
  {
    hide FirstAlias;
    var t := seed.root;
    MeetsItself(env, t);
    AliasOfAppended(env, before + [seed], rest, t);
    AliasOfAppended(env, before, [seed], t);
    AliasOfOne(env, seed, t);
    hide Meets;
    assert (before + [seed] + rest)[|before|] == seed;
    assert seed in before + [seed] + rest;
    if rest == [] { assert before + [seed] + rest == before + [seed]; }
  }

  lemma {:induction false} TokensSplit(m: Manifest, tokens: seq<string>, k: nat) returns (rest: seq<Seed>)
    requires k < |tokens|
    ensures TokensSeeds(m, tokens) == TokensSeeds(m, tokens[..k]) + TokenSeeds(m, tokens[k]) + rest
    decreases |tokens|
  {
    hide TokenSeeds;
    var n := |tokens| - 1;
    if k == n {
      rest := [];
    } else {
      rest := TokensSplit(m, tokens[..n], k);
      assert tokens[..n][..k] == tokens[..k];
      Regrouped(TokensSeeds(m, tokens[..k]) + TokenSeeds(m, tokens[k]), rest, TokenSeeds(m, tokens[n]));
      rest := rest + TokenSeeds(m, tokens[n]);
    }
  }

  lemma SeedsBehindToken(m: Manifest, guestToHost: seq<string>, hostToGuest: seq<string>, tokens: seq<string>, k: nat) returns (rest: seq<Seed>)
    requires k < |tokens|
    ensures StatSeeds(m, guestToHost, hostToGuest, tokens)
            == StatSeeds(m, guestToHost, hostToGuest, tokens[..k]) + TokenSeeds(m, tokens[k]) + rest
  {
    hide TokensSeeds, DescsSeeds, SectionSeeds, TokenSeeds;
    rest := TokensSplit(m, tokens, k);
    var a := DescsSeeds(m.callbackDescs) + SectionSeeds(m, guestToHost) + SectionSeeds(m, hostToGuest);
    Regrouped(a, TokensSeeds(m, tokens[..k]) + TokenSeeds(m, tokens[k]), rest);
    Regrouped(a, TokensSeeds(m, tokens[..k]), TokenSeeds(m, tokens[k]));
  }

  /** A described callback ends up under the alias of its description, unless one before it gave it one. */
  lemma AliasOfDesc(m: Manifest, guestToHost: seq<string>, hostToGuest: seq<string>, tokens: seq<string>, k: nat, callbacks: map<CType, string>)
    requires m.Valid() && Recorded(m.env, StatSeeds(m, guestToHost, hostToGuest, tokens), callbacks) && k < |m.callbackDescs|
    ensures var d, before := m.callbackDescs[k], DescsSeeds(m.callbackDescs[..k]);
            && d.callback in callbacks
            && (d.alias != "" ==> callbacks[d.callback] == Prefer(FirstAlias(m.env, before, d.callback), d.alias))
            && (d.alias == "" && d.callback in d.known && d.known[d.callback] != "" ==>
                  callbacks[d.callback] == Prefer(FirstAlias(m.env, before, d.callback), d.known[d.callback]))
  {
    hide FirstAlias, Meets, Recorded;
    var d := m.callbackDescs[k];
    var rest := SeedsBehindDesc(m, guestToHost, hostToGuest, tokens, k);
    AliasGiven(m.env, DescsSeeds(m.callbackDescs[..k]), Seed(d.callback, d.alias, true, d.known), rest, callbacks);
  }

  lemma {:induction false} DescsSplit(descs: seq<CallbackDesc>, k: nat) returns (rest: seq<Seed>)
    requires k < |descs|
    ensures DescsSeeds(descs) == DescsSeeds(descs[..k]) + [Seed(descs[k].callback, descs[k].alias, true, descs[k].known)] + rest
    decreases |descs|
  {
    var n := |descs| - 1;
    if k == n {
      rest := DescSeeds(descs[n])[1..];
      Regrouped(DescsSeeds(descs[..k]), [DescSeeds(descs[k])[0]], rest);
    } else {
      hide DescSeeds;
      rest := DescsSplit(descs[..n], k);
      assert descs[..n][..k] == descs[..k];
      rest := rest + DescSeeds(descs[n]);
    }
  }

  lemma SeedsBehindDesc(m: Manifest, guestToHost: seq<string>, hostToGuest: seq<string>, tokens: seq<string>, k: nat) returns (rest: seq<Seed>)
    requires k < |m.callbackDescs|
    ensures var d := m.callbackDescs[k];
            StatSeeds(m, guestToHost, hostToGuest, tokens)
            == DescsSeeds(m.callbackDescs[..k]) + [Seed(d.callback, d.alias, true, d.known)] + rest
  {
    hide TokensSeeds, DescsSeeds, SectionSeeds;
    rest := DescsSplit(m.callbackDescs, k);
    rest := rest + SectionSeeds(m, guestToHost) + SectionSeeds(m, hostToGuest) + TokensSeeds(m, tokens);
  }

  /** A callback that is only met on the way, with no entry and no description of its own, has the name
      of its typedef, if it has one (wherever typedefs are looked up, the same one). */
  lemma AliasOnTheWay(m: Manifest, guestToHost: seq<string>, hostToGuest: seq<string>, tokens: seq<string>, t: CType, callbacks: map<CType, string>)
    requires Recorded(m.env, StatSeeds(m, guestToHost, hostToGuest, tokens), callbacks) && t in callbacks
    requires forall token | token in tokens :: Named(m, token) != Some(t)
    requires forall d | d in m.callbackDescs :: d.callback != t && TypedefName(d.known, t) == TypedefName(m.namedAliases, t)
    ensures callbacks[t] == TypedefName(m.namedAliases, t)
  {
    hide Meets;
    var log, name := StatSeeds(m, guestToHost, hostToGuest, tokens), TypedefName(m.namedAliases, t);
    SectionAliases(m, guestToHost, t);
    SectionAliases(m, hostToGuest, t);
    DescAliases(m.callbackDescs, t, name);
    TokenAliases(m, tokens, t);
    assert forall s | s in log :: AliasFor(s, t) == name;
    OneAlias(m.env, log, t, name);
  }

  function TypedefName(named: map<CType, string>, t: CType): string { if t in named then named[t] else "" }

  lemma {:induction false} OneAlias(env: Env, log: seq<Seed>, t: CType, name: string)
    requires forall s | s in log :: AliasFor(s, t) == name
    ensures FirstAlias(env, log, t) == if MetBySome(env, log, t) then name else ""
    decreases |log|
  {
    hide Meets, AliasFor;
    if log != [] {
      var init, last := log[..|log| - 1], log[|log| - 1];
      assert forall s :: s in log <==> s in init || s == last;
      OneAlias(env, init, t, name);
    }
  }

  lemma {:induction false} SectionAliases(m: Manifest, names: seq<string>, t: CType)
    ensures forall s | s in SectionSeeds(m, names) :: AliasFor(s, t) == TypedefName(m.namedAliases, t)
    decreases |names|
  {
    if names != [] { SectionAliases(m, names[..|names| - 1], t); }
  }

  lemma {:induction false} DescAliases(descs: seq<CallbackDesc>, t: CType, name: string)
    requires forall d | d in descs :: d.callback != t && TypedefName(d.known, t) == name
    ensures forall s | s in DescsSeeds(descs) :: AliasFor(s, t) == name
    decreases |descs|
  {
    if descs != [] {
      assert descs[|descs| - 1] in descs && forall d | d in descs[..|descs| - 1] :: d in descs;
      DescAliases(descs[..|descs| - 1], t, name);
    }
  }

  lemma {:induction false} TokenAliases(m: Manifest, tokens: seq<string>, t: CType)
    requires forall token | token in tokens :: Named(m, token) != Some(t)
    ensures forall s | s in TokensSeeds(m, tokens) :: AliasFor(s, t) == TypedefName(m.namedAliases, t)
    decreases |tokens|
  {
    if tokens != [] {
      assert tokens[|tokens| - 1] in tokens && forall x | x in tokens[..|tokens| - 1] :: x in tokens;
      TokenAliases(m, tokens[..|tokens| - 1], t);
    }
  }

  // ----- the document -----

  class DocumentContext {
    var callbackTypes: map<CType, string>

    constructor ()
      ensures callbackTypes == map[]
    {
      callbackTypes := map[];
    }

    /** `beginProcessDocument`, the callback filter: an alias the bridge declares is kept exactly when
        its signature or, failing that, its name was requested. */
    method FilterCallbacks(bridge: map<CType, string>, requested: map<CType, string>)
      modifies this
      ensures forall s :: s in callbackTypes <==> s in bridge && (s in requested || (bridge[s] != "" && bridge[s] in requested.Values))
      ensures forall s | s in callbackTypes :: callbackTypes[s] == bridge[s]
    {
      callbackTypes := map[];
      var todo := bridge.Keys;
      while todo != {}
        invariant todo <= bridge.Keys
        invariant forall s :: s in callbackTypes <==> s in bridge && s !in todo && Requested(requested, s, bridge[s])
        invariant forall s | s in callbackTypes :: callbackTypes[s] == bridge[s]
      {
        var signature :| signature in todo;
        if Requested(requested, signature, bridge[signature]) {
          callbackTypes := callbackTypes[signature := bridge[signature]];
        }
        todo := todo - {signature};
      }
    }
  }

  predicate Requested(requested: map<CType, string>, signature: CType, alias: string) {
    signature in requested || (alias != "" && exists s | s in requested :: requested[s] == alias)
  }

  /** `resolveAlias`: None is the "callback not found" diagnostic. */
  function ResolveAlias(callbackTypes: map<CType, string>, callee: CType): Option<string> {
    if Ptr(callee) in callbackTypes then Some(callbackTypes[Ptr(callee)]) else None
  }

  ghost predicate NumberedAlias(alias: string, k: nat) { alias == "PFN_UnknownCallback_" + Decimal(k) }

  /** The callbacks without an alias have got names of different numbers up to i. */
  ghost predicate Numbered(bridge: map<CType, string>, callbacks: map<CType, string>, i: nat)
    requires bridge.Keys <= callbacks.Keys
  {
    && (forall s | s in bridge && callbacks[s] == "" :: exists k | 0 <= k <= i :: NumberedAlias(bridge[s], k))
    && (forall s, t | s in bridge && t in bridge && s != t && callbacks[s] == "" == callbacks[t] :: bridge[s] != bridge[t])
  }

  lemma OneMoreNumber(bridge: map<CType, string>, callbacks: map<CType, string>, i: nat, s: CType, alias: string)
    requires bridge.Keys <= callbacks.Keys && s in callbacks && s !in bridge && Numbered(bridge, callbacks, i)
    requires alias == "PFN_UnknownCallback_" + Decimal(i + 1)
    ensures Numbered(bridge[s := alias], callbacks, i + 1)
  {
    var next := bridge[s := alias];
    assert NumberedAlias(alias, i + 1);
    forall t | t in bridge && callbacks[t] == "" ensures bridge[t] != alias && exists k | 0 <= k <= i + 1 :: NumberedAlias(next[t], k) {
      var k :| 0 <= k <= i && NumberedAlias(bridge[t], k);
      assert NumberedAlias(next[t], k) || t == s;
      if bridge[t] == alias {
        assert Decimal(k) == bridge[t][20..] == alias[20..] == Decimal(i + 1);
        DecimalIsInjective(k, i + 1);
      }
    }
  }

  /** TLC `generate` on a summary: the bridge translation unit declares one alias per recorded
      signature, numbering those without one, and every recorded signature is requested. So the
      document offers exactly the recorded callbacks. */
  method OpenDocument(summary: ManifestSummary) returns (doc: DocumentContext)
    ensures doc.callbackTypes.Keys == summary.callbacks.Keys
    ensures forall s | s in summary.callbacks && summary.callbacks[s] != "" :: doc.callbackTypes[s] == summary.callbacks[s]
    ensures forall s | s in summary.callbacks && summary.callbacks[s] == "" :: exists k :: NumberedAlias(doc.callbackTypes[s], k)
    ensures forall s, t | s in summary.callbacks && t in summary.callbacks && s != t && summary.callbacks[s] == "" == summary.callbacks[t] ::
              doc.callbackTypes[s] != doc.callbackTypes[t]
    ensures fresh(doc)
  {
    hide NumberedAlias;
    var bridge: map<CType, string> := map[];
    var todo, i := summary.callbacks.Keys, 0;
    while todo != {}
      invariant todo <= summary.callbacks.Keys && bridge.Keys == summary.callbacks.Keys - todo
      invariant Numbered(bridge, summary.callbacks, i)
      invariant forall s | s in bridge && summary.callbacks[s] != "" :: bridge[s] == summary.callbacks[s]
    {
      var signature :| signature in todo;
      var alias := summary.callbacks[signature];
      i := i + 1;
      if alias == "" {
        alias := "PFN_UnknownCallback_" + Decimal(i);
        OneMoreNumber(bridge, summary.callbacks, i - 1, signature, alias);
      }
      bridge := bridge[signature := alias];
      todo := todo - {signature};
    }
    doc := new DocumentContext();
    doc.FilterCallbacks(bridge, summary.callbacks);
    assert forall s :: s in doc.callbackTypes.Keys <==> s in doc.callbackTypes;
  }

  // ----- what the substituter looks up -----

  /** The callee types of all leaves of a tree. */
  function Callees(tree: Tree): set<CType> {
    if tree.status.HasCallbacks? then MemberCallees(tree.members) else {}
  }

  function MemberCallees(m: Members): set<CType> {
    (set c | c in m.callbacks :: c.1) + ChildrenCallees(m.children)
  }

  function ChildrenCallees(children: Children): set<CType> {
    match children
    case NoChild => {}
    case Child(_, tree, rest) => Callees(tree) + ChildrenCallees(rest)
  }

  lemma {:induction false} TreeCalleesReached(env: Env, u: set<CType>, t: CType, visited: set<CType>, c: CType)
    requires Closed(env, u) && t in u && visited <= u && c in Callees(Build(env, u, t, visited))
    ensures Reaches(env, t, Ptr(c)) && c.Fn?
    decreases |u - visited|, 1, 0
  {
    hide Reaches, Closed;
    var target := if t.Ptr? then t.to else t;
    SubtermsInside(env, u, t);
    FieldTypesInside(env, u, target);
    var fd := MemberCalleesReached(env, u, FieldsOf(env, target), visited, c);
    ReachesSelf(env, t);
    if t.Ptr? { ReachesStep(env, t, t, target); }
    FieldIsNext(env, target, fd);
    ReachesStep(env, t, target, fd.fieldType);
    ReachesTransitive(env, t, fd.fieldType, Ptr(c));
  }

  lemma FieldIsNext(env: Env, t: CType, fd: Field)
    requires t.Rec? && fd in FieldsOf(env, t)
    ensures fd.fieldType in Next(env, t)
  {
    var i :| 0 <= i < |FieldsOf(env, t)| && FieldsOf(env, t)[i] == fd;
    assert Next(env, t)[i] == fd.fieldType;
  }

  lemma {:induction false} MemberCalleesReached(env: Env, u: set<CType>, fields: seq<Field>, visited: set<CType>, c: CType) returns (fd: Field)
    requires Closed(env, u) && visited <= u && forall f | f in fields :: f.fieldType in u
    requires var m := BuildFields(env, u, fields, visited); m.Some? && c in MemberCallees(m.value)
    ensures fd in fields && Reaches(env, fd.fieldType, Ptr(c)) && c.Fn?
    decreases |u - visited|, 0, |fields|
  {
    hide Reaches, Closed, Build;
    fd := fields[0];
    var t := fd.fieldType;
    var rest := BuildFields(env, u, fields[1..], visited);
    if IsFunctionPointer(t) && c == t.to {
      ReachesSelf(env, t);
    } else if !IsFunctionPointer(t) && t !in visited
              && (VisitedGrows(u, visited, t); c in Callees(Build(env, u, t, visited + {t}))) {
      TreeCalleesReached(env, u, t, visited + {t}, c);
    } else {
      if IsFunctionPointer(t) {
        assert BuildFields(env, u, fields, visited).value.callbacks == [(fd.name, t.to)] + rest.value.callbacks;
      }
      fd := MemberCalleesReached(env, u, fields[1..], visited, c);
    }
  }

  /** Everything `beginHandleProc` resolves for an argument tree. */
  ghost predicate LooksUp(r: ArgumentTree, c: CType) {
    || (exists i: nat :: (i, c) in r.callbacks)
    || (exists i: nat :: (i, c) in r.outCallbacks)
    || (exists i: nat, t :: (i, t) in r.children && c in Callees(t))
  }

  lemma LookupIsReached(env: Env, fn: CType, r: ArgumentTree, c: CType)
    requires fn.Fn? && IsArgumentTree(env, fn.params, |fn.params|, r) && LooksUp(r, c)
    ensures Meets(env, Ptr(fn), false, Ptr(c)) && c.Fn?
  {
    ReachedIsMet(env, fn, c);
    hide Reaches, Build, Meets;
    if i: nat :| (i, c) in r.callbacks {
      ReachesSelf(env, fn.params[i]);
      assert fn.params[i] in Signature(fn);
    } else if i: nat :| (i, c) in r.outCallbacks {
      var t := fn.params[i];
      ReachesSelf(env, t);
      ReachesStep(env, t, t, t.to);
      assert t in Signature(fn);
    } else {
      var i: nat, t :| (i, t) in r.children && c in Callees(t);
      var param := fn.params[i];
      UniverseIsClosed(env, param);
      TreeCalleesReached(env, Universe(env, param), param, {}, c);
      assert param in Signature(fn);
    }
  }

  lemma ReachedIsMet(env: Env, fn: CType, c: CType)
    requires fn.Fn?
    ensures c.Fn? && ReachedFromSome(env, Signature(fn), Ptr(c)) ==> Meets(env, Ptr(fn), false, Ptr(c))
  {
    StartsMeet(env, Seed(Ptr(fn), "", false, map[]), Ptr(c));
  }

  /** The agreement, for a function recorded by stat: every callee type in the argument tree of its
      real signature resolves in the document. */
  lemma FunctionLookupsResolve(m: Manifest, functions: set<string>, callbackTypes: map<CType, string>, name: string, r: ArgumentTree, c: CType)
    requires StatInv(m, functions, callbackTypes.Keys) && name in functions
    requires var fn := m.RealFunction(name); IsArgumentTree(m.env, fn.params, |fn.params|, r)
    requires LooksUp(r, c)
    ensures Ptr(c) in callbackTypes
  {
    hide Meets, IsArgumentTree, StatClosed;
    LookupIsReached(m.env, m.RealFunction(name), r, c);
    assert Covered(m.env, callbackTypes.Keys, m.RealFunction(name));
  }

  /** The agreement, for every callback the document offers. */
  lemma CallbackLookupsResolve(m: Manifest, functions: set<string>, callbackTypes: map<CType, string>, cb: CType, r: ArgumentTree, c: CType)
    requires StatInv(m, functions, callbackTypes.Keys) && cb in callbackTypes
    requires var fn := m.RealCallback(cb); fn.Fn? && IsArgumentTree(m.env, fn.params, |fn.params|, r)
    requires LooksUp(r, c)
    ensures Ptr(c) in callbackTypes
  {
    hide Meets, Arrives, IsArgumentTree, LooksUp, Covered;
    var fn := m.RealCallback(cb);
    LookupIsReached(m.env, fn, r, c);
    MetIfIncluded(m.env, Ptr(fn), Ptr(c));
    assert Ptr(fn) in callbackTypes.Keys && Ptr(c) in callbackTypes.Keys;
  }

  lemma MetIfIncluded(env: Env, root: CType, t: CType)
    requires Meets(env, root, false, t)
    ensures Meets(env, root, true, t)
  {
  }

  // ----- the two tools in a row -----

  /** Everything `beginHandleProc` resolves for an argument tree, as a set. */
  function Lookups(r: ArgumentTree): set<CType> {
    (set x | x in r.callbacks :: x.1) + (set x | x in r.outCallbacks :: x.1) + (set x, c | x in r.children && c in Callees(x.1) :: c)
  }

  lemma LookupsAreLookedUp(r: ArgumentTree, c: CType)
    ensures c in Lookups(r) <==> LooksUp(r, c)
  {
    hide Callees;
    if c in Lookups(r) {
      if x :| x in r.callbacks && x.1 == c {
        assert (x.0, c) in r.callbacks;
      } else if x :| x in r.outCallbacks && x.1 == c {
        assert (x.0, c) in r.outCallbacks;
      } else {
        var x :| x in r.children && c in Callees(x.1);
        assert (x.0, x.1) in r.children;
      }
    }
    if i: nat :| (i, c) in r.callbacks { assert (i, c).1 == c; }
    if i: nat :| (i, c) in r.outCallbacks { assert (i, c).1 == c; }
  }

  /** What the substituter resolves for a parameter list: nothing when the tree is unsupported, else
      every callee of the tree, with the alias the document gives it. */
  ghost predicate ResolvesAll(env: Env, params: seq<CType>, callbackTypes: map<CType, string>, found: map<CType, string>) {
    || (found == map[] && exists i | 0 <= i < |params| :: UnsupportedArgument(env, params[i]))
    || exists r :: IsArgumentTree(env, params, |params|, r)
         && (forall c :: c in found <==> LooksUp(r, c))
         && forall c | c in found :: Ptr(c) in callbackTypes && callbackTypes[Ptr(c)] == found[c]
  }

  /** The lookups of one proc; `missing` is set where the substituter would report "callback not found". */
  method ResolveProc(pass: CallbackSubstituterPass, params: seq<CType>, callbackTypes: map<CType, string>)
    returns (found: map<CType, string>, missing: bool)
    requires pass.Valid()
    modifies pass
    ensures pass.Valid()
    ensures !missing ==> ResolvesAll(pass.env, params, callbackTypes, found)
    ensures missing ==> exists r, c :: IsArgumentTree(pass.env, params, |params|, r) && LooksUp(r, c) && Ptr(c) !in callbackTypes
  {
    hide IsArgumentTree, LooksUp, Lookups, UnsupportedArgument;
    var r := pass.BuildArgumentTree(params);
    found, missing := map[], false;
    if r.status.Unsupported? {
      return;
    }
    var todo := Lookups(r);
    while todo != {}
      invariant todo <= Lookups(r) && found.Keys == Lookups(r) - todo
      invariant forall c | c in found :: Ptr(c) in callbackTypes && callbackTypes[Ptr(c)] == found[c]
    {
      var c :| c in todo;
      var alias := ResolveAlias(callbackTypes, c);
      if alias.None? {
        LookupsAreLookedUp(r, c);
        missing := true;
        return;
      }
      found := found[c := alias.value];
      todo := todo - {c};
    }
    forall c ensures c in found <==> LooksUp(r, c) {
      LookupsAreLookedUp(r, c);
      assert c in found <==> c in found.Keys;
    }
  }

  /** `stat`, then `generate` up to the substituter's lookups, for all recorded functions and for all
      callbacks the document offers: every callee of every one resolves. */
  method StatThenSubstitute(m: Manifest, guestToHost: seq<string>, hostToGuest: seq<string>, tokens: seq<string>)
    returns (doc: DocumentContext, found: map<string, map<CType, string>>, foundIn: map<CType, map<CType, string>>)
    requires m.Valid()
    ensures fresh(doc)
    ensures found.Keys == set n | n in guestToHost + hostToGuest && n in m.functions
    ensures forall n | n in found && n in m.functionOverlays ::
              IsFunctionPointer(m.functionOverlays[n]) && ResolvesAll(m.env, m.functionOverlays[n].to.params, doc.callbackTypes, found[n])
    ensures forall n | n in found && n !in m.functionOverlays ::
              n in m.functions && m.functions[n].Fn? && ResolvesAll(m.env, m.functions[n].params, doc.callbackTypes, found[n])
    ensures foundIn.Keys == doc.callbackTypes.Keys
    ensures forall t :: t in foundIn <==> Justified(m, guestToHost + hostToGuest, tokens, t)
    ensures forall cb | cb in foundIn :: IsCallback(m, cb) && ResolvesAll(m.env, m.RealCallback(cb).params, doc.callbackTypes, foundIn[cb])
  {
    hide ResolvesAll, StatInv, Justified, Recorded;
    var summary := Stat(m, guestToHost, hostToGuest, tokens);
    assert forall t :: t in summary.callbacks.Keys <==> t in summary.callbacks;
    StatIsClosed(m, guestToHost + hostToGuest, tokens, summary.AllFunctions(), summary.callbacks.Keys);
    doc := OpenDocument(summary);
    var pass := new CallbackSubstituterPass(m.env);
    ghost var callbackTypes := doc.callbackTypes;
    found := SubstituteFunctions(pass, m, summary.AllFunctions(), doc.callbackTypes);
    foundIn := SubstituteCallbacks(pass, m, summary.AllFunctions(), doc.callbackTypes);
    assert doc.callbackTypes == callbackTypes;
  }

  /** The pass over the procs of the recorded functions. */
  method SubstituteFunctions(pass: CallbackSubstituterPass, m: Manifest, functions: set<string>, callbackTypes: map<CType, string>)
    returns (found: map<string, map<CType, string>>)
    requires pass.Valid() && pass.env == m.env && StatInv(m, functions, callbackTypes.Keys)
    modifies pass
    ensures pass.Valid() && found.Keys == functions
    ensures forall n | n in found :: IsFunction(m, n) && ResolvesAll(m.env, m.RealFunction(n).params, callbackTypes, found[n])
  {
    hide ResolvesAll, StatInv;
    found := map[];
    var todo := functions;
    while todo != {}
      invariant pass.Valid() && todo <= functions && found.Keys == functions - todo
      invariant forall n | n in found :: IsFunction(m, n) && ResolvesAll(m.env, m.RealFunction(n).params, callbackTypes, found[n])
    {
      var name :| name in todo;
      RecordedAreFunctions(m, functions, callbackTypes.Keys, name);
      var one, missing := ResolveProc(pass, m.RealFunction(name).params, callbackTypes);
      if missing { NothingMissing(m, functions, callbackTypes, name); }
      found := found[name := one];
      todo := todo - {name};
    }
  }

  /** The pass over the procs of the document's callbacks. */
  method SubstituteCallbacks(pass: CallbackSubstituterPass, m: Manifest, ghost functions: set<string>, callbackTypes: map<CType, string>)
    returns (found: map<CType, map<CType, string>>)
    requires pass.Valid() && pass.env == m.env && StatInv(m, functions, callbackTypes.Keys)
    modifies pass
    ensures pass.Valid() && found.Keys == callbackTypes.Keys
    ensures forall cb | cb in found :: IsCallback(m, cb) && ResolvesAll(m.env, m.RealCallback(cb).params, callbackTypes, found[cb])
  {
    hide ResolvesAll, StatInv;
    found := map[];
    var todo := callbackTypes.Keys;
    while todo != {}
      invariant pass.Valid() && todo <= callbackTypes.Keys && found.Keys == callbackTypes.Keys - todo
      invariant forall cb | cb in found :: IsCallback(m, cb) && ResolvesAll(m.env, m.RealCallback(cb).params, callbackTypes, found[cb])
    {
      var cb :| cb in todo;
      OfferedAreCallbacks(m, functions, callbackTypes.Keys, cb);
      var one, missing := ResolveProc(pass, m.RealCallback(cb).params, callbackTypes);
      if missing { NothingMissingInCallback(m, functions, callbackTypes, cb); }
      found := found[cb := one];
      todo := todo - {cb};
    }
  }

  /** The signature of a callback's thunk is that of its description's overlay, or its own. */
  lemma RealCallbacks(m: Manifest, c: CType)
    requires c.Ptr? && forall i, j | 0 <= i < j < |m.callbackDescs| :: m.callbackDescs[i].callback != m.callbackDescs[j].callback
    ensures forall d | d in m.callbackDescs && d.callback == c && d.overlay.Some? && d.overlay.value.Ptr? :: m.RealCallback(c) == d.overlay.value.to
    ensures (forall d | d in m.callbackDescs && d.callback == c :: d.overlay.None?) ==> m.RealCallback(c) == c.to
  {
    forall d | d in m.callbackDescs && d.callback == c ensures OverlayOf(m.callbackDescs, c) == d.overlay {
      var k :| 0 <= k < |m.callbackDescs| && m.callbackDescs[k] == d;
      OverlayAt(m.callbackDescs, k);
    }
  }

  lemma {:induction false} OverlayAt(descs: seq<CallbackDesc>, k: nat)
    requires k < |descs| && forall i, j | 0 <= i < j < |descs| :: descs[i].callback != descs[j].callback
    ensures OverlayOf(descs, descs[k].callback) == descs[k].overlay
    decreases |descs|
  {
    if k < |descs| - 1 { OverlayAt(descs[..|descs| - 1], k); }
  }

  predicate IsFunction(m: Manifest, name: string) { name in m.functions && m.RealFunction(name).Fn? }

  predicate IsCallback(m: Manifest, cb: CType) { cb.Ptr? && m.RealCallback(cb).Fn? }

  lemma RecordedAreFunctions(m: Manifest, functions: set<string>, callbacks: set<CType>, name: string)
    requires StatInv(m, functions, callbacks) && name in functions
    ensures IsFunction(m, name)
  {
  }

  lemma OfferedAreCallbacks(m: Manifest, functions: set<string>, callbacks: set<CType>, cb: CType)
    requires StatInv(m, functions, callbacks) && cb in callbacks
    ensures IsCallback(m, cb)
  {
  }

  lemma NothingMissing(m: Manifest, functions: set<string>, callbackTypes: map<CType, string>, name: string)
    requires StatInv(m, functions, callbackTypes.Keys) && name in functions && IsFunction(m, name)
    ensures forall r, c :: IsArgumentTree(m.env, m.RealFunction(name).params, |m.RealFunction(name).params|, r) && LooksUp(r, c)
              ==> Ptr(c) in callbackTypes
  {
    hide IsArgumentTree, LooksUp, StatInv;
    var params := m.RealFunction(name).params;
    forall r, c | IsArgumentTree(m.env, params, |params|, r) && LooksUp(r, c)
      ensures Ptr(c) in callbackTypes
    {
      FunctionLookupsResolve(m, functions, callbackTypes, name, r, c);
    }
  }

  lemma NothingMissingInCallback(m: Manifest, functions: set<string>, callbackTypes: map<CType, string>, cb: CType)
    requires StatInv(m, functions, callbackTypes.Keys) && cb in callbackTypes && IsCallback(m, cb)
    ensures forall r, c :: IsArgumentTree(m.env, m.RealCallback(cb).params, |m.RealCallback(cb).params|, r) && LooksUp(r, c)
              ==> Ptr(c) in callbackTypes
  {
    hide IsArgumentTree, LooksUp, StatInv;
    var params := m.RealCallback(cb).params;
    forall r, c | IsArgumentTree(m.env, params, |params|, r) && LooksUp(r, c)
      ensures Ptr(c) in callbackTypes
    {
      CallbackLookupsResolve(m, functions, callbackTypes, cb, r, c);
    }
  }
}
