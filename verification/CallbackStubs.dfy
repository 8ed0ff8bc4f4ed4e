/** Callback trampolines: the per-handler stub tables of one thread, and how one callback slot is
    wrapped and restored (Callback.h, FunctionTrampoline.cpp). */
module CallbackStubs {
  import opened Wrappers
  import opened TypeGraph

  /** The handler a table's stubs branch to: one per callback signature and direction. */
  datatype Handler = Handler(callee: CType, guestCallback: bool)

  /** A function pointer. Stub addresses of different tables or entries differ (StubAddress), and no
      other code address carries the magic word in front of which a stub lies. */
  datatype Pointer = Null | Code(addr: int) | Stub(handler: Handler, index: nat)

  // ----- stub addresses -----

  const SIZEOF_TRAMPOLINE := 56
  const OFFSET_TRAMPOLINES := 8
  const OFFSET_THUNK_INSTR := 8

  function StubAddress(table: int, index: nat): int {
    table + OFFSET_TRAMPOLINES + index * SIZEOF_TRAMPOLINE + OFFSET_THUNK_INSTR
  }

  /** Tables of `count` entries that do not overlap give every stub its own address. */
  lemma StubAddressesDiffer(t1: int, t2: int, count: nat, i: nat, j: nat)
    requires i < count && j < count
    requires t1 == t2 || t1 + OFFSET_TRAMPOLINES + count * SIZEOF_TRAMPOLINE <= t2 || t2 + OFFSET_TRAMPOLINES + count * SIZEOF_TRAMPOLINE <= t1
    ensures StubAddress(t1, i) == StubAddress(t2, j) <==> t1 == t2 && i == j
    ensures StubAddress(t1, i) == t1 + 16 + 56 * i
  {
    assert (i + 1) * SIZEOF_TRAMPOLINE <= count * SIZEOF_TRAMPOLINE && (j + 1) * SIZEOF_TRAMPOLINE <= count * SIZEOF_TRAMPOLINE;
  }

  // ----- the tables as a value -----

  /** For each handler with a table, the callbacks its stubs stand for, in stub order. */
  type Stubs = map<Handler, seq<Pointer>>

  function Entries(s: Stubs, h: Handler): seq<Pointer> { if h in s then s[h] else [] }

  function IndexOf(entries: seq<Pointer>, p: Pointer): (i: nat)
    ensures i <= |entries| && (i < |entries| ==> entries[i] == p) && forall k | 0 <= k < i :: entries[k] != p
  {
    if entries == [] || entries[0] == p then 0 else 1 + IndexOf(entries[1..], p)
  }

  /** `allocCallbackTrampoline`: the stub that stands for `input`, taken from the first free entry
      when there is none yet. */
  function Alloc(s: Stubs, h: Handler, input: Pointer): (Stubs, Pointer) {
    if input == Null then (s, Null)
    else
      var entries, i := Entries(s, h), IndexOf(Entries(s, h), input);
      (if i < |entries| then s else s[h := entries + [input]], Stub(h, i))
  }

  /** `unwrapTrampoline`; a stub not handed out yet has a null saved function. */
  function Unwrap(s: Stubs, p: Pointer): Pointer {
    match p
    case Stub(h, i) => if i < |Entries(s, h)| then Entries(s, h)[i] else Null
    case _ => p
  }

  /** Stubs stand for real code only, each for a different one. */
  ghost predicate Sound(s: Stubs) {
    forall h | h in s ::
      && (forall i | 0 <= i < |s[h]| :: s[h][i].Code?)
      && (forall i, j | 0 <= i < j < |s[h]| :: s[h][i] != s[h][j])
  }

  /** No entry is ever changed or removed. */
  ghost predicate Grows(s: Stubs, t: Stubs) {
    forall h :: Entries(s, h) <= Entries(t, h)
  }

  /** A pointer a program can hold: if it is a stub, it was handed out. */
  predicate Known(s: Stubs, p: Pointer) {
    p.Stub? ==> p.index < |Entries(s, p.handler)|
  }

  lemma GrowsTransitive(s: Stubs, t: Stubs, u: Stubs)
    requires Grows(s, t) && Grows(t, u)
    ensures Grows(s, u)
  {
    forall h ensures Entries(s, h) <= Entries(u, h) {
      assert Entries(s, h) <= Entries(t, h) && Entries(t, h) <= Entries(u, h);
    }
  }

  /** What a known pointer unwraps to never changes. */
  lemma UnwrapIsStable(s: Stubs, t: Stubs, p: Pointer)
    requires Grows(s, t) && Known(s, p)
    ensures Known(t, p) && Unwrap(t, p) == Unwrap(s, p)
  {
    if p.Stub? { assert Entries(s, p.handler) <= Entries(t, p.handler); }
  }

  /** Unwrapping goes through one stub only: no stub stands for another stub. */
  lemma UnwrapIsReal(s: Stubs, p: Pointer)
    requires Sound(s)
    ensures !Unwrap(s, p).Stub? && Unwrap(s, Unwrap(s, p)) == Unwrap(s, p)
  {
  }

  lemma AllocInNewTable(s: Stubs, h: Handler, input: Pointer)
    ensures input == Null ==> Alloc(s, h, input) == (s, Null)
    ensures input != Null && h !in s ==> Alloc(s[h := []], h, input) == Alloc(s, h, input)
  {
    assert s[h := []][h := [] + [input]] == s[h := [] + [input]];
  }

  lemma SoundGrows(s: Stubs, h: Handler, input: Pointer)
    requires Sound(s) && input.Code? && input !in Entries(s, h)
    ensures Sound(s[h := Entries(s, h) + [input]])
  {
  }

  lemma AllocKeepsSound(s: Stubs, h: Handler, input: Pointer)
    requires Sound(s) && !input.Stub?
    ensures var (t, stub) := Alloc(s, h, input);
            Sound(t) && Grows(s, t) && Known(t, stub) && Unwrap(t, stub) == input
  {
  }

  /** Equal inputs get equal stubs and different inputs different ones, however many allocations lie
      between the two. */
  lemma AllocIsInjective(s: Stubs, t: Stubs, h: Handler, p: Pointer, q: Pointer)
    requires Sound(t) && !p.Stub? && !q.Stub? && Grows(Alloc(s, h, p).0, t)
    ensures Alloc(s, h, p).1 == Alloc(t, h, q).1 <==> p == q
  {
    var after := Alloc(s, h, p).0;
    assert Entries(after, h) <= Entries(t, h);
    if p != Null && q != Null {
      var i, j := IndexOf(Entries(s, h), p), IndexOf(Entries(t, h), q);
      assert Entries(t, h)[i] == p;
    }
  }

  // ----- one callback slot -----

  /** CallbackContext.init on a slot holding `fp`: the new tables, the new slot value, and the value
      recorded for fini (None when nothing was wrapped). `isHost` is isHostAddress. */
  function InitSlot(s: Stubs, isHost: Pointer -> bool, h: Handler, fp: Pointer): (Stubs, Pointer, Option<Pointer>) {
    var origin := Unwrap(s, fp);
    if h.guestCallback != isHost(origin) then
      var (t, stub) := Alloc(s, h, origin);
      (t, stub, Some(fp))
    else if origin != fp then (s, origin, Some(fp))
    else (s, fp, None)
  }

  /** init records a pointer that fini will write back: fini skips a null record. */
  predicate Wraps(s: Stubs, isHost: Pointer -> bool, guestCallback: bool, fp: Pointer) {
    fp != Null && (guestCallback != isHost(Unwrap(s, fp)) || Unwrap(s, fp) != fp)
  }

  /** A pointer the receiver can call: one of its own functions, or a stub of the handler made for it. */
  predicate Callable(isHost: Pointer -> bool, h: Handler, p: Pointer) {
    match p
    case Null => true
    case Code(_) => isHost(p) == h.guestCallback
    case Stub(owner, _) => owner == h
  }

  lemma InitSlotFacts(s: Stubs, isHost: Pointer -> bool, h: Handler, fp: Pointer)
    requires Sound(s) && Known(s, fp)
    ensures var (t, now, org) := InitSlot(s, isHost, h, fp);
            && Sound(t) && Grows(s, t) && Known(t, now)
            && Unwrap(t, now) == Unwrap(s, fp) && Callable(isHost, h, now)
            && (org != None && org != Some(Null) <==> Wraps(s, isHost, h.guestCallback, fp))
            && (org == None || org == Some(fp))
            && (org == None || org == Some(Null) ==> now == fp)
  {
    UnwrapIsReal(s, fp);
    AllocKeepsSound(s, h, Unwrap(s, fp));
  }

  /** A callback wrapped for the other side and handed back to its own side, any number of calls
      later, arrives as the original pointer. */
  lemma SentAndHandedBack(s: Stubs, isHost: Pointer -> bool, h: Handler, p: Pointer, t: Stubs, back: Handler)
    requires Sound(s) && Sound(t) && p.Code? && h.guestCallback != isHost(p) && back.guestCallback == isHost(p)
    requires Grows(InitSlot(s, isHost, h, p).0, t)
    ensures var sent := InitSlot(s, isHost, h, p).1;
            sent.Stub? && InitSlot(t, isHost, back, sent) == (t, p, Some(sent))
  {
    var (after, sent, org) := InitSlot(s, isHost, h, p);
    AllocKeepsSound(s, h, p);
    UnwrapIsStable(after, t, sent);
  }

  lemma InitSlotCases(s: Stubs, isHost: Pointer -> bool, h: Handler, fp: Pointer)
    ensures var origin := Unwrap(s, fp);
            InitSlot(s, isHost, h, fp) ==
              if h.guestCallback != isHost(origin) then (Alloc(s, h, origin).0, Alloc(s, h, origin).1, Some(fp))
              else if origin != fp then (s, origin, Some(fp)) else (s, fp, None)
  {
  }

  // ----- any sequence of init calls -----

  datatype InitCall = InitCall(h: Handler, fp: Pointer)

  function RunInits(s: Stubs, isHost: Pointer -> bool, calls: seq<InitCall>): Stubs
    decreases |calls|
  {
    if calls == [] then s else RunInits(InitSlot(s, isHost, calls[0].h, calls[0].fp).0, isHost, calls[1..])
  }

  /** Each call passes a pointer that a program can hold by then: real code, or a stub that was handed
      out before the run or by an earlier call of it. */
  ghost predicate KnownInTurn(s: Stubs, isHost: Pointer -> bool, calls: seq<InitCall>)
    decreases |calls|
  {
    calls == [] || (Known(s, calls[0].fp) && KnownInTurn(InitSlot(s, isHost, calls[0].h, calls[0].fp).0, isHost, calls[1..]))
  }

  /** The callbacks that the calls, in turn, need a stub of h for: whatever lies behind the pointers
      passed to h, as far as it is foreign to h's receiver. */
  ghost function Offered(s: Stubs, isHost: Pointer -> bool, calls: seq<InitCall>, h: Handler): set<Pointer>
    decreases |calls|
  {
    if calls == [] then {}
    else
      var c, origin := calls[0], Unwrap(s, calls[0].fp);
      (if c.h == h && h.guestCallback != isHost(origin) && origin != Null then {origin} else {})
      + Offered(InitSlot(s, isHost, c.h, c.fp).0, isHost, calls[1..], h)
  }

  /** What one init does to the table of h. */
  lemma InitSlotEntries(s: Stubs, isHost: Pointer -> bool, c: InitCall, h: Handler)
    ensures var origin, after := Unwrap(s, c.fp), Entries(InitSlot(s, isHost, c.h, c.fp).0, h);
            forall p :: p in after <==>
              p in Entries(s, h) || (p == origin && c.h == h && h.guestCallback != isHost(origin) && origin != Null)
  {
    var origin := Unwrap(s, c.fp);
    var i := IndexOf(Entries(s, c.h), origin);
    if i < |Entries(s, c.h)| { assert Entries(s, c.h)[i] == origin; }
  }

  /** Over any sequence of inits, stubs that come back included: no stub ever stands for another stub,
      no stub's target changes, and a table gains exactly the callbacks it was offered. */
  lemma {:induction false} InitsKeepSound(s: Stubs, isHost: Pointer -> bool, calls: seq<InitCall>, h: Handler)
    requires Sound(s) && KnownInTurn(s, isHost, calls)
    ensures var t := RunInits(s, isHost, calls);
            Sound(t) && Grows(s, t)
            && forall p :: p in Entries(t, h) <==> p in Entries(s, h) || p in Offered(s, isHost, calls, h)
    decreases |calls|
  {
    if calls != [] {
      hide InitSlot, Sound, Grows, Entries, Unwrap, Known;
      var c := calls[0];
      var next := InitSlot(s, isHost, c.h, c.fp).0;
      InitSlotFacts(s, isHost, c.h, c.fp);
      InitSlotEntries(s, isHost, c, h);
      InitsKeepSound(next, isHost, calls[1..], h);
      GrowsTransitive(s, next, RunInits(s, isHost, calls));
    }
  }

  /** From empty tables, a table ends up with exactly one stub per distinct callback offered to it: it
      stays within Count if and only if at most Count are. */
  lemma TablesStayWithinCount(isHost: Pointer -> bool, calls: seq<InitCall>, h: Handler)
    requires KnownInTurn(map[], isHost, calls)
    ensures |Entries(RunInits(map[], isHost, calls), h)| == |Offered(map[], isHost, calls, h)|
  {
    InitsKeepSound(map[], isHost, calls, h);
    DistinctEntriesFit(Entries(RunInits(map[], isHost, calls), h), Offered(map[], isHost, calls, h));
  }

  /** A run in which a callback is sent across and its stub handed back passes known pointers only, and
      needs no second stub. */
  lemma RoundTripIsKnown(isHost: Pointer -> bool, h: Handler, back: Handler, p: Pointer)
    requires p.Code? && h.guestCallback != isHost(p) && back.guestCallback == isHost(p)
    ensures var calls := [InitCall(h, p), InitCall(back, InitSlot(map[], isHost, h, p).1)];
            KnownInTurn(map[], isHost, calls) && Offered(map[], isHost, calls, h) == {p} && Offered(map[], isHost, calls, back) == {}
  {
    var (after, sent, _) := InitSlot(map[], isHost, h, p);
    var calls := [InitCall(h, p), InitCall(back, sent)];
    InitSlotFacts(map[], isHost, h, p);
    SentAndHandedBack(map[], isHost, h, p, after, back);
    assert calls[1..] == [InitCall(back, sent)] && calls[1..][1..] == [];
    assert KnownInTurn(after, isHost, calls[1..]);
    var next := InitSlot(after, isHost, back, sent).0;
    assert Unwrap(after, sent) == p;
    assert Offered(next, isHost, [], h) == {} == Offered(next, isHost, [], back);
    assert Offered(after, isHost, calls[1..], h) == {};
    assert Offered(after, isHost, calls[1..], back) == {};
  }

  lemma {:induction false} DistinctEntriesFit(entries: seq<Pointer>, held: set<Pointer>)
    requires forall i, j | 0 <= i < j < |entries| :: entries[i] != entries[j]
    requires forall p :: p in entries <==> p in held
    ensures |entries| == |held|
    decreases |entries|
  {
    if entries == [] {
      assert held == {};
    } else {
      var rest := held - {entries[0]};
      forall p ensures p in entries[1..] <==> p in rest {
        if p in entries[1..] {
          var i :| 0 <= i < |entries[1..]| && entries[1..][i] == p;
          assert entries[0] != entries[i + 1] && entries[i + 1] in entries;
        }
        if p in rest {
          assert p in entries && p != entries[0];
        }
      }
      DistinctEntriesFit(entries[1..], rest);
    }
  }

  // ----- the table in memory -----

  /** A table of executable stubs; `saved[i]` is the saved_function of stub i. */
  class FunctionTrampolineTable {
    const saved: array<Pointer>

    /** `FunctionTrampolineTable::create`: every stub starts free. */
    constructor (count: nat)
      ensures saved.Length == count && fresh(saved)
      ensures forall i | 0 <= i < count :: saved[i] == Null
    {
      saved := new Pointer[count];
      new;
      for i := 0 to count
        invariant forall k | 0 <= k < i :: saved[k] == Null
      {
        saved[i] := Null;
      }
    }
  }

  /** The saved functions of a table: the entries in use, then only free stubs. */
  ghost predicate Holds(saved: seq<Pointer>, entries: seq<Pointer>) {
    entries <= saved && forall i | |entries| <= i < |saved| :: saved[i] == Null
  }

  lemma HoldsOneMore(saved: seq<Pointer>, entries: seq<Pointer>, input: Pointer)
    requires Holds(saved, entries) && |entries| < |saved|
    ensures Holds(saved[|entries| := input], entries + [input])
  {
  }

  /** The thread-local tables behind every `allocCallbackTrampoline<F>`, each of `count` stubs. */
  class ThreadStubs {
    const count: nat
    var tables: map<Handler, FunctionTrampolineTable>
    ghost var stubs: Stubs
    ghost var repr: set<object>

    ghost predicate Valid()
      reads this, repr
    {
      && this in repr && (forall h | h in tables :: tables[h].saved in repr)
      && Sound(stubs) && tables.Keys == stubs.Keys
      && (forall h | h in tables :: tables[h].saved.Length == count && Holds(tables[h].saved[..], stubs[h]))
      && (forall g, h | g in tables && h in tables && g != h :: tables[g].saved != tables[h].saved)
    }

    constructor (count: nat)
      ensures Valid() && fresh(repr) && stubs == map[] && this.count == count
    {
      this.count := count;
      tables, stubs, repr := map[], map[], {this};
    }

    /** `allocCallbackTrampoline`. The scan has no bounds check, so a stub for `input` or a free one
        must exist. */
    method AllocCallbackTrampoline(h: Handler, input: Pointer) returns (stub: Pointer)
      requires Valid() && !input.Stub?
      requires input == Null || input in Entries(stubs, h) || |Entries(stubs, h)| < count
      modifies repr
      ensures Valid() && fresh(repr - old(repr)) && (stubs, stub) == Alloc(old(stubs), h, input)
    {
      AllocInNewTable(stubs, h, input);
      hide Sound, Holds, Alloc;
      if input == Null {
        return Null;
      }
      if h !in tables {
        AddTable(h);
      }
      stub := AllocIn(h, input);
    }

    method AllocIn(h: Handler, input: Pointer) returns (stub: Pointer)
      requires Valid() && input.Code? && h in tables && (input in stubs[h] || |stubs[h]| < count)
      modifies this`stubs, tables[h].saved
      ensures Valid() && (stubs, stub) == Alloc(old(stubs), h, input)
    {
      NoNullEntry(h);
      hide Sound;
      var t := Scan(tables[h].saved, stubs[h], input);
      if tables[h].saved[t] == Null {
        TakeStub(h, t, input);
      }
      stub := Stub(h, t);
    }

    lemma NoNullEntry(h: Handler)
      requires Valid() && h in tables
      ensures Null !in stubs[h]
    {
    }

    /** The scan: the first stub that stands for `input`, or else the first free one. */
    static method Scan(saved: array<Pointer>, ghost entries: seq<Pointer>, input: Pointer) returns (t: nat)
      requires Holds(saved[..], entries)
      requires input != Null && Null !in entries && (input in entries || |entries| < saved.Length)
      ensures t < saved.Length && t == IndexOf(entries, input)
      ensures saved[t] == if t < |entries| then input else Null
    {
      assert forall k | 0 <= k < |entries| :: saved[k] == saved[..][k] == entries[k] != Null;
      t := 0;
      while saved[t] != Null
        invariant 0 <= t <= |entries| && t < saved.Length
        invariant forall k | 0 <= k < t :: entries[k] != input
        decreases |entries| - t
      {
        if saved[t] == input {
          return;
        }
        t := t + 1;
      }
    }

    method TakeStub(h: Handler, t: nat, input: Pointer)
      requires Valid() && h in tables && t == |stubs[h]| < tables[h].saved.Length && input.Code? && input !in stubs[h]
      modifies this`stubs, tables[h].saved
      ensures Valid() && stubs == old(stubs)[h := old(stubs[h]) + [input]]
    {
      SoundGrows(stubs, h, input);
      HoldsOneMore(tables[h].saved[..], stubs[h], input);
      hide Sound, Holds;
      ghost var saved := tables[h].saved[..];
      tables[h].saved[t] := input;
      assert tables[h].saved[..] == saved[t := input];
      stubs := stubs[h := stubs[h] + [input]];
    }

    method AddTable(h: Handler)
      requires Valid() && h !in tables
      modifies this
      ensures Valid() && h in tables && fresh(tables[h].saved)
      ensures repr == old(repr) + {tables[h].saved}
      ensures tables == old(tables)[h := tables[h]] && stubs == old(stubs)[h := []]
    {
      var table := new FunctionTrampolineTable(count);
      tables := tables[h := table];
      repr := repr + {table.saved};
      stubs := stubs[h := []];
    }

    lemma OriginIsReal(fp: Pointer)
      requires Valid()
      ensures !Unwrap(stubs, fp).Stub?
    {
      UnwrapIsReal(stubs, fp);
    }

    /** `unwrapTrampoline`: the magic word is found exactly in front of a stub of some table. */
    method UnwrapTrampoline(fp: Pointer) returns (origin: Pointer)
      requires Valid() && (fp.Stub? ==> fp.handler in tables && fp.index < count)
      ensures origin == Unwrap(stubs, fp)
    {
      hide Sound;
      origin := fp;
      if fp.Stub? {
        ghost var saved, entries := tables[fp.handler].saved[..], stubs[fp.handler];
        assert fp.index < |entries| ==> saved[fp.index] == entries[fp.index];
        origin := tables[fp.handler].saved[fp.index];
      }
    }
  }

  /** A function-pointer variable. */
  class Slot {
    var fp: Pointer
  }

  /** CallbackContext: what fini needs to restore one wrapped slot. */
  class CallbackContext {
    var slot: Slot?
    var original: Pointer

    constructor ()
      ensures slot == null && original == Null
    {
      slot, original := null, Null;
    }

    /** `init`, with `allocCallbackTrampoline<h>` as the allocator. */
    method Init(target: Slot, stubs: ThreadStubs, isHost: Pointer -> bool, h: Handler)
      requires stubs.Valid() && original == Null && this !in stubs.repr && target !in stubs.repr
      requires target.fp.Stub? ==> target.fp.handler in stubs.tables && target.fp.index < stubs.count
      requires var origin := Unwrap(stubs.stubs, target.fp);
               origin == Null || origin in Entries(stubs.stubs, h) || |Entries(stubs.stubs, h)| < stubs.count
      modifies this, target, stubs.repr
      ensures stubs.Valid() && fresh(stubs.repr - old(stubs.repr))
      ensures stubs.stubs == InitSlot(old(stubs.stubs), isHost, h, old(target.fp)).0
      ensures target.fp == InitSlot(old(stubs.stubs), isHost, h, old(target.fp)).1
      ensures var org := InitSlot(old(stubs.stubs), isHost, h, old(target.fp)).2;
              if org == None then original == Null else slot == target && original == org.value
    {
      hide *;
      InitSlotCases(stubs.stubs, isHost, h, target.fp);
      var origin := stubs.UnwrapTrampoline(target.fp);
      if h.guestCallback != isHost(origin) {
        slot, original := target, target.fp;
        stubs.OriginIsReal(target.fp);
        var stub := stubs.AllocCallbackTrampoline(h, origin);
        target.fp := stub;
      } else if origin != target.fp {
        slot, original := target, target.fp;
        target.fp := origin;
      }
    }

    method Fini()
      requires original != Null ==> slot != null
      modifies slot
      ensures original != Null ==> slot.fp == original
      ensures original == Null && slot != null ==> slot.fp == old(slot.fp)
    {
      if original != Null {
        slot.fp := original;
      }
    }
  }
}
