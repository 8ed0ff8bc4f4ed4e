/** The reentry protocol as a step machine over one guest thread.

    Two stacks are explicit: the guest's suspended driver loops (`frames`) and the host's live
    invocations. Every saved context is explicit too: one register block per suspended coroutine,
    stored by address on that coroutine's own stack, and the single `mainHostState` slot. A context
    that is stale or was overwritten cannot be loaded: the machine goes to `Crashed`. */
module CoroutineMachine {
  import opened Wrappers
  import opened CallTrees

  /** One `invokeFunction` activation: its locals `ra` and `ret`, and what its caller does next. */
  datatype DriverFrame = DriverFrame(ra: Option<Reentry>, ret: int, after: GuestCode)

  /** `raPtr` is the driver frame whose `ra` the pointer designates. */
  datatype InvocationInfo = InvocationInfo(raPtr: nat, hostState: int)

  /** A saved coroutine context: its stack pointer and what it still has to run. */
  datatype Suspended = Suspended(sp: int, base: int, rest: HostCode)

  /** A live `LoreCommonHostEntry` activation on the host's main stack. It writes the yielded value
      to the `ret` of driver frame `retPtr` and returns to the guest. `ticket` identifies it. */
  datatype Dispatcher = Dispatcher(ticket: nat, retPtr: nat)

  datatype Control =
    | GuestRunning(g: GuestCode)
    | DriverTest                                // at `while (ret != 0)` of the top driver frame
    | HostRunning(base: int, h: HostCode)
    | Halted
    | Crashed

  datatype State = State(
    control: Control,
    frames: seq<DriverFrame>,
    invocations: seq<InvocationInfo>,           // invocations[0 .. invocationCount)
    registers: map<int, Suspended>,             // RegState blocks in memory, by address
    mainHostState: nat,                         // ticket of the activation whose context it holds
    dispatchers: seq<Dispatcher>,
    nextTicket: nat,
    loads: seq<nat>,                            // tickets loaded from mainHostState so far
    trace: seq<Event>)

  function Start(g: GuestCode): State {
    State(GuestRunning(g), [], [], map[], 0, [], 0, [], [])
  }

  /** Where a coroutine started now puts its stack: the top of the buffer when nothing is live,
      otherwise below the stack pointer saved by the last invocation. */
  function CarveStack(l: Layout, s: State): Option<int> {
    if s.invocations == [] then Some(l.StackTop())
    else
      var last := s.invocations[|s.invocations| - 1];
      if last.hostState in s.registers then Some(AlignDown(s.registers[last.hostState].sp)) else None
  }

  /** Entering the host saves the dispatcher's context into the one `mainHostState`. */
  function EnterDispatcher(s: State, retPtr: nat): State {
    s.(dispatchers := s.dispatchers + [Dispatcher(s.nextTicket, retPtr)],
       mainHostState := s.nextTicket,
       nextTicket := s.nextTicket + 1)
  }

  /** DS_InvokeFunction from a new driver frame: coroutine_start, then pushInvocation in
      invocationEntry, whose RegState sits at the low end of the entry frame. */
  function Invoke(l: Layout, s: State, ia: Invocation, after: GuestCode): State {
    match CarveStack(l, s)
    case None => s.(control := Crashed)
    case Some(base) =>
      var frame := |s.frames|;
      var t := EnterDispatcher(s.(frames := s.frames + [DriverFrame(None, 0, after)]), frame);
      if !l.RoomForInvocation(|s.invocations|) || base - l.entryFrame < l.ArrayEnd(|s.invocations| + 1) then
        s.(control := Crashed)
      else
        t.(invocations := t.invocations + [InvocationInfo(frame, base - l.entryFrame)],
           control := HostRunning(base, InvokeByConv(ia)))
  }

  /** DS_ResumeFunction from the top driver frame: switch into the last invocation. */
  function Resume(s: State): State {
    if s.invocations == [] || s.frames == [] then s.(control := Crashed)
    else
      var last := s.invocations[|s.invocations| - 1];
      if last.hostState !in s.registers then s.(control := Crashed)
      else
        var saved := s.registers[last.hostState];
        EnterDispatcher(s, |s.frames| - 1).(control := HostRunning(saved.base, saved.rest))
  }

  /** Control leaves the coroutine for the context held by `mainHostState`; the dispatcher found
      there stores `value` through its `ret` pointer and goes back to the guest's driver loop. */
  function Yield(s: State, value: int): State {
    if s.dispatchers == [] then s.(control := Crashed)
    else
      var d := s.dispatchers[|s.dispatchers| - 1];
      if d.ticket != s.mainHostState || |s.frames| <= d.retPtr then s.(control := Crashed)
      else
        s.(dispatchers := s.dispatchers[..|s.dispatchers| - 1],
           loads := s.loads + [s.mainHostState],
           frames := s.frames[d.retPtr := s.frames[d.retPtr].(ret := value)],
           control := DriverTest)
  }

  /** A coroutine using `depth` bytes below `base` overwrites every register block it overlaps.
      Its own block lies in the entry frame and is not touched. */
  function Scribble(l: Layout, registers: map<int, Suspended>, base: int, depth: nat): map<int, Suspended> {
    map a | a in registers && (base - l.entryFrame <= a || a + l.regState <= base - depth) :: registers[a]
  }

  /** Host code above the invocation array only; deeper it would overwrite live entries. */
  predicate AboveArray(l: Layout, s: State, base: int, depth: nat) {
    l.ArrayEnd(|s.invocations|) <= base - depth
  }

  function Reenter(l: Layout, s: State, base: int, ra: Reentry, depth: nat, rest: HostCode): State {
    if s.invocations == [] || !AboveArray(l, s, base, depth) then s.(control := Crashed)
    else
      var last := s.invocations[|s.invocations| - 1];
      if |s.frames| <= last.raPtr then s.(control := Crashed)
      else
        var scribbled := Scribble(l, s.registers, base, depth);
        Yield(s.(frames := s.frames[last.raPtr := s.frames[last.raPtr].(ra := Some(ra))],
                 registers := scribbled[last.hostState := Suspended(base - depth, base, rest)]), 1)
  }

  /** The end of invocationEntry: popInvocation, then coroutine_start's epilogue loads mainHostState. */
  function EntryReturn(s: State): State {
    if s.invocations == [] then s.(control := Crashed)
    else Yield(s.(invocations := s.invocations[..|s.invocations| - 1]), 0)
  }

  function TestDriver(s: State): State {
    if s.frames == [] then s.(control := Crashed)
    else
      var top := s.frames[|s.frames| - 1];
      if top.ret == 0 then s.(frames := s.frames[..|s.frames| - 1], control := GuestRunning(top.after))
      else if top.ret != 1 || top.ra.None? then s.(control := Crashed)   // assert(ret == 1 && ra != nullptr)
      else s.(control := GuestRunning(ServiceByConv(top.ra.value)))
  }

  function Step(l: Layout, s: State): State {
    match s.control
    case GuestRunning(GuestReturn) => if s.frames == [] then s.(control := Halted) else Resume(s)
    case GuestRunning(GuestAct(a, next)) => s.(trace := s.trace + [GuestEvent(a)], control := GuestRunning(next))
    case GuestRunning(GuestInvoke(ia, next)) => Invoke(l, s, ia, next)
    case DriverTest => TestDriver(s)
    case HostRunning(base, HostReturn) => EntryReturn(s)
    case HostRunning(base, HostAct(a, depth, next)) =>
      if AboveArray(l, s, base, depth) then
        s.(registers := Scribble(l, s.registers, base, depth),
           trace := s.trace + [HostEvent(a)],
           control := HostRunning(base, next))
      else s.(control := Crashed)
    case HostRunning(base, HostReenter(ra, depth, next)) => Reenter(l, s, base, ra, depth, next)
    case Halted => s
    case Crashed => s
  }

  function Run(l: Layout, s: State, n: nat): State
    decreases n
  {
    if n == 0 then s else Run(l, Step(l, s), n - 1)
  }

  // ----- the invariant -----

  /** The base of the coroutine stack at level k, given that levels below k are suspended. */
  ghost function Base(l: Layout, s: State, k: nat): int
    requires k <= |s.invocations|
    requires k > 0 ==> s.invocations[k - 1].hostState in s.registers
  {
    if k == 0 then l.StackTop() else AlignDown(s.registers[s.invocations[k - 1].hostState].sp)
  }

  /** Level k holds a suspended coroutine, paired with driver frame k. */
  ghost predicate SuspendedAt(l: Layout, s: State, k: nat)
    requires k < |s.invocations| && k < |s.frames|
    requires k > 0 ==> s.invocations[k - 1].hostState in s.registers
  {
    var info := s.invocations[k];
    && info.hostState in s.registers
    && var saved := s.registers[info.hostState];
    && saved.base == Base(l, s, k)
    && info == InvocationInfo(k, saved.base - l.entryFrame)
    && saved.sp <= saved.base - l.entryFrame
    && l.ArrayEnd(k + 1) <= saved.sp
    && HostFits(l, saved.rest, saved.base, k)
    && GuestFits(l, s.frames[k].after, saved.base, k)
  }

  /** Levels 0 .. n-1 are all suspended. */
  ghost predicate Chain(l: Layout, s: State, n: nat)
  {
    n <= |s.invocations| && n <= |s.frames|
    && (forall k | 0 <= k < n :: s.invocations[k].hostState in s.registers)
    && (forall k | 0 <= k < n :: SuspendedAt(l, s, k))
  }

  /** The tickets 0 .. k-1 were loaded, each once and in order. */
  ghost predicate LoadedInOrder(s: State, k: nat) {
    |s.loads| == k && forall i | 0 <= i < k :: s.loads[i] == i
  }

  ghost predicate HostControl(l: Layout, s: State, base: int, h: HostCode)
  {
    var n := |s.invocations|;
    && n >= 1
    && |s.frames| == n
    && Chain(l, s, n - 1)
    && base == Base(l, s, n - 1)
    && s.invocations[n - 1] == InvocationInfo(n - 1, base - l.entryFrame)
    && l.ArrayEnd(n) <= base - l.entryFrame
    && HostFits(l, h, base, n - 1)
    && GuestFits(l, s.frames[n - 1].after, base, n - 1)
    && s.nextTicket >= 1
    && s.mainHostState == s.nextTicket - 1
    && s.dispatchers == [Dispatcher(s.mainHostState, n - 1)]
    && LoadedInOrder(s, s.nextTicket - 1)
  }

  ghost predicate GuestControl(l: Layout, s: State, g: GuestCode)
  {
    var n := |s.invocations|;
    && |s.frames| == n
    && Chain(l, s, n)
    && GuestFits(l, g, Base(l, s, n), n)
    && s.dispatchers == []
    && LoadedInOrder(s, s.nextTicket)
  }

  /** What every reachable state satisfies. */
  ghost predicate Inv(l: Layout, s: State)
  {
    match s.control
    case Halted => s.frames == [] && s.invocations == [] && s.dispatchers == [] && LoadedInOrder(s, s.nextTicket)
    case Crashed => false
    case GuestRunning(g) => GuestControl(l, s, g)
    case HostRunning(base, h) => HostControl(l, s, base, h)
    case DriverTest =>
      && s.frames != []
      && var n := |s.frames| - 1;
      && var top := s.frames[n];
      if top.ret == 0 then
        GuestControl(l, s.(frames := s.frames[..n]), top.after)
      else
        && top.ret == 1 && top.ra.Some?
        && GuestControl(l, s, ServiceByConv(top.ra.value))
  }

  // ----- what the state still has to do, as plain nested calls -----

  /** The events still owed by levels n-1 down to 0. */
  ghost function Owed(s: State, n: nat): seq<Event>
    requires n <= |s.invocations| && n <= |s.frames|
    requires forall k | 0 <= k < n :: s.invocations[k].hostState in s.registers
  {
    if n == 0 then []
    else
      HostTrace(s.registers[s.invocations[n - 1].hostState].rest) + (GuestTrace(s.frames[n - 1].after) + Owed(s, n - 1))
  }

  ghost function OwedWork(s: State, n: nat): nat
    requires n <= |s.invocations| && n <= |s.frames|
    requires forall k | 0 <= k < n :: s.invocations[k].hostState in s.registers
  {
    if n == 0 then 0
    else
      HostWork(s.registers[s.invocations[n - 1].hostState].rest) + 1 + GuestWork(s.frames[n - 1].after) + OwedWork(s, n - 1)
  }

  ghost function Remaining(l: Layout, s: State): seq<Event>
    requires Inv(l, s)
  {
    match s.control
    case Halted => []
    case GuestRunning(g) => GuestTrace(g) + Owed(s, |s.frames|)
    case HostRunning(_, h) =>
      HostTrace(h) + (GuestTrace(s.frames[|s.frames| - 1].after) + Owed(s, |s.frames| - 1))
    case DriverTest =>
      var n := |s.frames| - 1;
      var top := s.frames[n];
      if top.ret == 0 then GuestTrace(top.after) + Owed(s, n)
      else GuestTrace(ServiceByConv(top.ra.value)) + Owed(s, n + 1)
  }

  ghost function RemainingWork(l: Layout, s: State): nat
    requires Inv(l, s)
  {
    match s.control
    case Halted => 0
    case GuestRunning(g) => GuestWork(g) + OwedWork(s, |s.frames|)
    case HostRunning(_, h) =>
      HostWork(h) + 1 + GuestWork(s.frames[|s.frames| - 1].after) + OwedWork(s, |s.frames| - 1)
    case DriverTest =>
      var n := |s.frames| - 1;
      var top := s.frames[n];
      if top.ret == 0 then 1 + GuestWork(top.after) + OwedWork(s, n)
      else 1 + GuestWork(ServiceByConv(top.ra.value)) + OwedWork(s, n + 1)
  }

  // ----- stack regions -----

  /** Stacks are carved downwards: a level's base is at or below every saved stack pointer above it
      in the buffer, so in particular the regions [sp, base) of two levels never overlap. */
  lemma {:induction false} BasesDescend(l: Layout, s: State, i: nat, j: nat)
    requires l.Valid() && i < j <= |s.invocations| && Chain(l, s, j)
    ensures Base(l, s, j) <= s.registers[s.invocations[i].hostState].sp
    ensures s.registers[s.invocations[i].hostState].sp < Base(l, s, i)
    decreases j
  {
    assert SuspendedAt(l, s, i);
    if i + 1 < j {
      BasesDescend(l, s, i, j - 1);
      assert SuspendedAt(l, s, j - 1);
    }
  }

  /** Two states that agree on the first n levels owe the same and are suspended alike. */
  ghost predicate SameLevels(s: State, t: State, n: nat)
  {
    && n <= |s.invocations| && n <= |t.invocations| && n <= |s.frames| && n <= |t.frames|
    && s.invocations[..n] == t.invocations[..n]
    && (forall k | 0 <= k < n :: s.frames[k].after == t.frames[k].after)
    && (forall k | 0 <= k < n :: s.invocations[k].hostState in s.registers && s.invocations[k].hostState in t.registers
          && s.registers[s.invocations[k].hostState] == t.registers[s.invocations[k].hostState])
  }

  lemma SameLevelsSameChain(l: Layout, s: State, t: State, n: nat)
    requires SameLevels(s, t, n) && Chain(l, s, n)
    ensures Chain(l, t, n) && Base(l, t, n) == Base(l, s, n)
  {
    hide AlignDown, HostFits, GuestFits;
    assert forall k | 0 <= k < n :: t.invocations[k] == t.invocations[..n][k] == s.invocations[..n][k] == s.invocations[k];
    forall k | 0 <= k < n
      ensures SuspendedAt(l, t, k)
    {
      assert SuspendedAt(l, s, k);
      assert k > 0 ==> t.invocations[k - 1] == s.invocations[k - 1];
    }
  }

  lemma {:induction false} SameLevelsSameDebts(l: Layout, s: State, t: State, n: nat)
    requires SameLevels(s, t, n) && Chain(l, s, n)
    ensures Chain(l, t, n) && Base(l, t, n) == Base(l, s, n)
    ensures Owed(t, n) == Owed(s, n) && OwedWork(t, n) == OwedWork(s, n)
    decreases n
  {
    hide SuspendedAt, HostTrace, GuestTrace, HostWork, GuestWork;
    SameLevelsSameChain(l, s, t, n);
    if n > 0 {
      assert t.invocations[n - 1] == t.invocations[..n][n - 1] == s.invocations[..n][n - 1] == s.invocations[n - 1];
      assert SameLevels(s, t, n - 1) by {
        assert s.invocations[..n - 1] == s.invocations[..n][..n - 1] == t.invocations[..n][..n - 1] == t.invocations[..n - 1];
      }
      SameLevelsSameDebts(l, s, t, n - 1);
    }
  }

  /** Running code below `base` leaves every suspended register block intact. */
  lemma ScribbleSparesSuspended(l: Layout, s: State, n: nat, depth: nat)
    requires l.Valid() && Chain(l, s, n)
    ensures var r := Scribble(l, s.registers, Base(l, s, n), depth);
            forall k | 0 <= k < n :: var a := s.invocations[k].hostState;
                                     a in r && r[a] == s.registers[a] && a >= Base(l, s, n)
  {
    forall k | 0 <= k < n
      ensures s.invocations[k].hostState >= Base(l, s, n)
    {
      BasesDescend(l, s, k, n);
      assert SuspendedAt(l, s, k);
    }
  }

  // ----- one step -----

  /** The step from s to t keeps the invariant, keeps the events done plus the events owed, and
      uses up one unit of work. */
  ghost predicate GoodStep(l: Layout, s: State, t: State)
    requires Inv(l, s)
  {
    && Inv(l, t)
    && t.trace + Remaining(l, t) == s.trace + Remaining(l, s)
    && RemainingWork(l, t) == RemainingWork(l, s) - 1
  }

  // The next four lemmas establish the invariant of a state t that keeps the lower levels of s.

  lemma GuestStateHolds(l: Layout, s: State, t: State, g: GuestCode)
    requires l.Valid() && t.control == GuestRunning(g)
    requires |t.frames| == |t.invocations| && SameLevels(s, t, |t.frames|) && Chain(l, s, |t.frames|)
    requires GuestFits(l, g, Base(l, s, |t.frames|), |t.frames|)
    requires t.dispatchers == [] && LoadedInOrder(t, t.nextTicket)
    ensures Inv(l, t)
    ensures Remaining(l, t) == GuestTrace(g) + Owed(s, |t.frames|)
    ensures RemainingWork(l, t) == GuestWork(g) + OwedWork(s, |t.frames|)
  {
    SameLevelsSameDebts(l, s, t, |t.frames|);
  }

  lemma HostStateHolds(l: Layout, s: State, t: State, base: int, h: HostCode, n: nat)
    requires l.Valid() && t.control == HostRunning(base, h)
    requires |t.frames| == |t.invocations| == n + 1 && SameLevels(s, t, n) && Chain(l, s, n)
    requires base == Base(l, s, n) && t.invocations[n] == InvocationInfo(n, base - l.entryFrame)
    requires l.ArrayEnd(n + 1) <= base - l.entryFrame
    requires HostFits(l, h, base, n) && GuestFits(l, t.frames[n].after, base, n)
    requires t.nextTicket >= 1 && t.mainHostState == t.nextTicket - 1
    requires t.dispatchers == [Dispatcher(t.mainHostState, n)] && LoadedInOrder(t, t.nextTicket - 1)
    ensures Inv(l, t)
    ensures Remaining(l, t) == HostTrace(h) + (GuestTrace(t.frames[n].after) + Owed(s, n))
    ensures RemainingWork(l, t) == HostWork(h) + 1 + GuestWork(t.frames[n].after) + OwedWork(s, n)
  {
    SameLevelsSameDebts(l, s, t, n);
  }

  lemma FinishedStateHolds(l: Layout, s: State, t: State, n: nat)
    requires l.Valid() && t.control == DriverTest
    requires |t.frames| == n + 1 && |t.invocations| == n && SameLevels(s, t, n) && Chain(l, s, n)
    requires t.frames[n].ret == 0 && GuestFits(l, t.frames[n].after, Base(l, s, n), n)
    requires t.dispatchers == [] && LoadedInOrder(t, t.nextTicket)
    ensures Inv(l, t)
    ensures Remaining(l, t) == GuestTrace(t.frames[n].after) + Owed(s, n)
    ensures RemainingWork(l, t) == 1 + GuestWork(t.frames[n].after) + OwedWork(s, n)
  {
    SameLevelsSameDebts(l, s, t, n);
    SameLevelsSameDebts(l, s, t.(frames := t.frames[..n]), n);
  }

  lemma ReentryStateHolds(l: Layout, t: State, n: nat, ra: Reentry)
    requires l.Valid() && t.control == DriverTest
    requires |t.frames| == |t.invocations| == n + 1 && Chain(l, t, n + 1)
    requires t.frames[n].ret == 1 && t.frames[n].ra == Some(ra)
    requires GuestFits(l, ServiceByConv(ra), Base(l, t, n + 1), n + 1)
    requires t.dispatchers == [] && LoadedInOrder(t, t.nextTicket)
    ensures Inv(l, t)
    ensures Remaining(l, t) == GuestTrace(ServiceByConv(ra)) + Owed(t, n + 1)
    ensures RemainingWork(l, t) == 1 + GuestWork(ServiceByConv(ra)) + OwedWork(t, n + 1)
  {
  }

  lemma GuestReturnStep(l: Layout, s: State)
    requires l.Valid() && Inv(l, s) && s.control == GuestRunning(GuestReturn)
    ensures GoodStep(l, s, Step(l, s))
  {
    var n, t := |s.invocations|, Step(l, s);
    if n > 0 {
      assert SuspendedAt(l, s, n - 1);
      var saved := s.registers[s.invocations[n - 1].hostState];
      HostStateHolds(l, s, t, saved.base, saved.rest, n - 1);
      assert GuestTrace(GuestReturn) + Owed(s, n) == Owed(s, n);
    }
  }

  lemma GuestActStep(l: Layout, s: State, a: int, next: GuestCode)
    requires l.Valid() && Inv(l, s) && s.control == GuestRunning(GuestAct(a, next))
    ensures GoodStep(l, s, Step(l, s))
  {
    hide Remaining, RemainingWork, Owed, OwedWork, SuspendedAt, AlignDown;
    var n, t := |s.invocations|, Step(l, s);
    GuestStateHolds(l, s, s, GuestAct(a, next));
    GuestStateHolds(l, s, t, next);
    AppendAppend(s.trace, [GuestEvent(a)], GuestTrace(next), Owed(s, n));
  }

  /** pushInvocation's `assert(invocationCount < stackSize / sizeof(InvocationInfo))` never fails. */
  lemma RoomForOneMore(l: Layout, s: State, ia: Invocation, next: GuestCode)
    requires l.Valid() && Inv(l, s) && s.control == GuestRunning(GuestInvoke(ia, next))
    ensures l.RoomForInvocation(|s.invocations|)
  {
    hide SuspendedAt, HostFits;
    var n := |s.invocations|;
    if n > 0 { BasesDescend(l, s, 0, n); }
  }

  lemma GuestInvokeStep(l: Layout, s: State, ia: Invocation, next: GuestCode)
    requires l.Valid() && Inv(l, s) && s.control == GuestRunning(GuestInvoke(ia, next))
    ensures GoodStep(l, s, Step(l, s))
  {
    hide Remaining, RemainingWork, Owed, OwedWork, SuspendedAt, AlignDown;
    RoomForOneMore(l, s, ia, next);
    var n, t := |s.invocations|, Step(l, s);
    GuestStateHolds(l, s, s, GuestInvoke(ia, next));
    assert CarveStack(l, s) == Some(Base(l, s, n));
    HostStateHolds(l, s, t, Base(l, s, n), InvokeByConv(ia), n);
    AppendAppend([], CallTrace(ia), GuestTrace(next), Owed(s, n));
  }

  lemma DriverStep(l: Layout, s: State)
    requires l.Valid() && Inv(l, s) && s.control.DriverTest?
    ensures GoodStep(l, s, Step(l, s))
  {
    var n, top, t := |s.invocations|, s.frames[|s.frames| - 1], Step(l, s);
    var u := if top.ret == 0 then s.(frames := s.frames[..n]) else s;
    GuestStateHolds(l, u, t, if top.ret == 0 then top.after else ServiceByConv(top.ra.value));
    SameLevelsSameDebts(l, u, s, n);
  }

  lemma HostReturnStep(l: Layout, s: State, base: int)
    requires l.Valid() && Inv(l, s) && s.control == HostRunning(base, HostReturn)
    ensures GoodStep(l, s, Step(l, s))
  {
    hide Remaining, RemainingWork, Owed, OwedWork, SuspendedAt, AlignDown;
    var n, t := |s.invocations| - 1, Step(l, s);
    HostStateHolds(l, s, s, base, HostReturn, n);
    assert t.frames == s.frames[n := s.frames[n].(ret := 0)];
    FinishedStateHolds(l, s, t, n);
  }

  lemma HostActStep(l: Layout, s: State, base: int, a: int, depth: nat, next: HostCode)
    requires l.Valid() && Inv(l, s) && s.control == HostRunning(base, HostAct(a, depth, next))
    ensures GoodStep(l, s, Step(l, s))
  {
    hide Remaining, RemainingWork, Owed, OwedWork, SuspendedAt, AlignDown;
    var n, t := |s.invocations| - 1, Step(l, s);
    HostStateHolds(l, s, s, base, HostAct(a, depth, next), n);
    ScribbleSparesSuspended(l, s, n, depth);
    HostStateHolds(l, s, t, base, next, n);
    AppendAppend(s.trace, [HostEvent(a)], HostTrace(next), GuestTrace(s.frames[n].after) + Owed(s, n));
  }

  lemma HostReenterStep(l: Layout, s: State, base: int, ra: Reentry, depth: nat, next: HostCode)
    requires l.Valid() && Inv(l, s) && s.control == HostRunning(base, HostReenter(ra, depth, next))
    ensures GoodStep(l, s, Step(l, s))
  {
    hide Remaining, RemainingWork, SuspendedAt, AlignDown;
    var n, t := |s.invocations| - 1, Step(l, s);
    HostStateHolds(l, s, s, base, HostReenter(ra, depth, next), n);
    ReenterWrites(l, s, base, ra, depth, next);
    ReenterKeepsLevels(l, s, base, ra, depth, next);
    SuspendLevel(l, s, t, n);
    ReentryStateHolds(l, t, n, ra);
    AppendAppend([], ServiceTrace(ra), HostTrace(next), GuestTrace(s.frames[n].after) + Owed(s, n));
    assert Owed(t, n + 1) == HostTrace(next) + (GuestTrace(s.frames[n].after) + Owed(s, n));
  }

  /** What reentering writes: `ra` and `ret` of the invocation's driver frame, and its registers. */
  lemma ReenterWrites(l: Layout, s: State, base: int, ra: Reentry, depth: nat, next: HostCode)
    requires l.Valid() && Inv(l, s) && s.control == HostRunning(base, HostReenter(ra, depth, next))
    ensures var n, t := |s.invocations| - 1, Step(l, s);
            && t.control == DriverTest && t.invocations == s.invocations && t.trace == s.trace
            && t.dispatchers == [] && LoadedInOrder(t, t.nextTicket)
            && t.frames == s.frames[n := s.frames[n].(ra := Some(ra), ret := 1)]
            && t.registers == Scribble(l, s.registers, base, depth)[base - l.entryFrame := Suspended(base - depth, base, next)]
            && n >= 0 && |s.frames| == n + 1 && Chain(l, s, n) && base == Base(l, s, n)
            && s.invocations[n] == InvocationInfo(n, base - l.entryFrame)
            && DepthFits(l, depth, base, n) && HostFits(l, next, base, n) && GuestFits(l, s.frames[n].after, base, n)
  {
    hide SuspendedAt, GuestFits, Scribble, AlignDown;
  }

  lemma ReenterKeepsLevels(l: Layout, s: State, base: int, ra: Reentry, depth: nat, next: HostCode)
    requires l.Valid() && Inv(l, s) && s.control == HostRunning(base, HostReenter(ra, depth, next))
    ensures |s.invocations| >= 1 && SameLevels(s, Step(l, s), |s.invocations| - 1)
  {
    ReenterWrites(l, s, base, ra, depth, next);
    hide Inv, Step;
    ScribbleSparesSuspended(l, s, |s.invocations| - 1, depth);
  }

  /** A further suspended level on top of the first n levels of s. */
  lemma SuspendLevel(l: Layout, s: State, t: State, n: nat)
    requires SameLevels(s, t, n) && Chain(l, s, n) && n < |t.invocations| && n < |t.frames|
    requires t.invocations[n].hostState in t.registers
    requires var saved := t.registers[t.invocations[n].hostState];
             && saved.base == Base(l, s, n) && t.invocations[n] == InvocationInfo(n, saved.base - l.entryFrame)
             && saved.sp <= saved.base - l.entryFrame && l.ArrayEnd(n + 1) <= saved.sp
             && HostFits(l, saved.rest, saved.base, n) && GuestFits(l, t.frames[n].after, saved.base, n)
    ensures Chain(l, t, n + 1)
    ensures Owed(t, n) == Owed(s, n) && OwedWork(t, n) == OwedWork(s, n)
  {
    hide HostFits, GuestFits, Owed, OwedWork;
    SameLevelsSameDebts(l, s, t, n);
    assert SuspendedAt(l, t, n);
  }

  lemma AppendAppend(a: seq<Event>, b: seq<Event>, c: seq<Event>, d: seq<Event>)
    ensures a + (b + c + d) == a + b + (c + d)
    ensures b + c + d == b + (c + d)
  {
  }

  lemma StepPreserves(l: Layout, s: State)
    requires l.Valid() && Inv(l, s) && !s.control.Halted?
    ensures GoodStep(l, s, Step(l, s))
  {
    match s.control
    case DriverTest => DriverStep(l, s);
    case GuestRunning(GuestReturn) => GuestReturnStep(l, s);
    case GuestRunning(GuestAct(a, next)) => GuestActStep(l, s, a, next);
    case GuestRunning(GuestInvoke(ia, next)) => GuestInvokeStep(l, s, ia, next);
    case HostRunning(base, HostReturn) => HostReturnStep(l, s, base);
    case HostRunning(base, HostAct(a, depth, next)) => HostActStep(l, s, base, a, depth, next);
    case HostRunning(base, HostReenter(ra, depth, next)) => HostReenterStep(l, s, base, ra, depth, next);
  }

  // ----- whole runs -----

  lemma {:induction false} RunPreserves(l: Layout, s: State, n: nat)
    requires l.Valid() && Inv(l, s)
    ensures Inv(l, Run(l, s, n))
    ensures Run(l, s, n).trace + Remaining(l, Run(l, s, n)) == s.trace + Remaining(l, s)
    ensures RemainingWork(l, Run(l, s, n)) == if n <= RemainingWork(l, s) then RemainingWork(l, s) - n else 0
    decreases n, 1
  {
    if n > 0 {
      if s.control.Halted? {
        assert Step(l, s) == s;
        RunPreserves(l, s, n - 1);
      } else {
        OneMoreStep(l, s, n);
      }
    }
  }

  lemma {:induction false} OneMoreStep(l: Layout, s: State, n: nat)
    requires l.Valid() && Inv(l, s) && !s.control.Halted? && n > 0
    ensures Inv(l, Run(l, s, n))
    ensures Run(l, s, n).trace + Remaining(l, Run(l, s, n)) == s.trace + Remaining(l, s)
    ensures RemainingWork(l, Run(l, s, n)) == if n <= RemainingWork(l, s) then RemainingWork(l, s) - n else 0
    decreases n, 0
  {
    hide Inv, Step, Remaining, RemainingWork;
    StepPreserves(l, s);
    RunPreserves(l, Step(l, s), n - 1);
  }

  lemma StartInv(l: Layout, g: GuestCode)
    requires GuestFits(l, g, l.StackTop(), 0)
    ensures Inv(l, Start(g))
  {
  }

  /** The main theorem: the driver loop over invoke, reenter and resume does exactly the actions of
      plain nested calls, in the same order, and ends with both stacks empty. */
  lemma DriverRefinesNestedCalls(l: Layout, g: GuestCode)
    requires l.Valid() && GuestFits(l, g, l.StackTop(), 0)
    ensures var end := Run(l, Start(g), GuestWork(g));
            end.control.Halted? && end.trace == GuestTrace(g) && end.invocations == [] && end.frames == []
  {
    StartInv(l, g);
    RunPreserves(l, Start(g), GuestWork(g));
    var end := Run(l, Start(g), GuestWork(g));
    assert RemainingWork(l, Start(g)) == GuestWork(g);
    assert end.control.Halted?;
    assert Remaining(l, Start(g)) == GuestTrace(g);
    assert Remaining(l, end) == [];
    assert end.trace == end.trace + [] == [] + GuestTrace(g);
  }

  /** Every reachable state, at any nesting depth: never crashed, and whatever was done so far is a
      prefix of the nested-call trace. */
  lemma ReachableStatesAreSafe(l: Layout, g: GuestCode, steps: nat)
    requires l.Valid() && GuestFits(l, g, l.StackTop(), 0)
    ensures var s := Run(l, Start(g), steps);
            Inv(l, s) && !s.control.Crashed? && s.trace <= GuestTrace(g)
  {
    StartInv(l, g);
    RunPreserves(l, Start(g), steps);
    var s := Run(l, Start(g), steps);
    assert s.trace + Remaining(l, s) == GuestTrace(g);
  }

  /** In every reachable state the host's invocation stack is the stack of driver frames that wait for
      it, each with its own `ra` pointer (a frame whose call has just completed waits no longer); and
      whenever the guest has control no context in mainHostState is waiting to be loaded. */
  lemma StacksMatch(l: Layout, g: GuestCode, steps: nat, k: nat)
    requires l.Valid() && GuestFits(l, g, l.StackTop(), 0)
    ensures var s := Run(l, Start(g), steps);
            && |s.invocations| == WaitingFrames(s)
            && (k < |s.invocations| ==> s.invocations[k].raPtr == k)
            && (!s.control.HostRunning? ==> s.dispatchers == [] && |s.loads| == s.nextTicket)
  {
    ReachableStatesAreSafe(l, g, steps);
    hide HostFits, GuestFits, AlignDown, Run;
    var s := Run(l, Start(g), steps);
    SuspendedChain(l, s);
    if k < SuspendedCount(s) {
      assert SuspendedAt(l, GuestView(s), k);
    }
  }

  /** The driver frames whose host call is still going on. */
  ghost function WaitingFrames(s: State): nat {
    if s.control.DriverTest? && s.frames != [] && s.frames[|s.frames| - 1].ret == 0 then |s.frames| - 1 else |s.frames|
  }

  /** How many levels are suspended: all but the running one. */
  ghost function SuspendedCount(s: State): nat {
    if s.control.HostRunning? && s.invocations != [] then |s.invocations| - 1 else |s.invocations|
  }

  /** The state without a driver frame that is about to return. */
  ghost function GuestView(s: State): State {
    s.(frames := s.frames[..WaitingFrames(s)])
  }

  /** While the host has control, the one mainHostState slot holds the context of the latest invoke
      or resume, which is the only one still waiting and has not been loaded before; it reports
      through the same driver frame whose `ra` the running invocation writes, although resume()
      passes no `ra` pointer. */
  lemma MainStateIsFreshUnderHost(l: Layout, g: GuestCode, steps: nat)
    requires l.Valid() && GuestFits(l, g, l.StackTop(), 0)
    requires Run(l, Start(g), steps).control.HostRunning?
    ensures var s := Run(l, Start(g), steps);
            && |s.dispatchers| == 1 && s.invocations != []
            && s.dispatchers[0].ticket == s.mainHostState == s.nextTicket - 1
            && s.mainHostState !in s.loads
            && s.dispatchers[0].retPtr == s.invocations[|s.invocations| - 1].raPtr == |s.frames| - 1
  {
    ReachableStatesAreSafe(l, g, steps);
  }

  /** mainHostState contexts are loaded in the order they were saved, none twice, none skipped. */
  lemma ContextsAreLoadedOnce(l: Layout, g: GuestCode, steps: nat, i: nat)
    requires l.Valid() && GuestFits(l, g, l.StackTop(), 0)
    ensures var s := Run(l, Start(g), steps);
            (i < |s.loads| ==> s.loads[i] == i) && |s.loads| == s.nextTicket - |s.dispatchers|
  {
    ReachableStatesAreSafe(l, g, steps);
  }

  /** The driver's assertion: whenever `ret` is not 0 at the loop test, it is 1 and `ra` is set. */
  lemma LoopTestAssertionHolds(l: Layout, g: GuestCode, steps: nat)
    requires l.Valid() && GuestFits(l, g, l.StackTop(), 0)
    requires Run(l, Start(g), steps).control.DriverTest?
    ensures var s := Run(l, Start(g), steps);
            s.frames != [] &&
            var top := s.frames[|s.frames| - 1];
            if top.ret == 0 then |s.invocations| == |s.frames| - 1
            else top.ret == 1 && top.ra.Some? && |s.invocations| == |s.frames|
  {
    ReachableStatesAreSafe(l, g, steps);
  }

  /** The bytes [lo, hi) of the stack buffer a live invocation uses, and where its saved registers
      are kept. */
  datatype Region = Region(lo: int, hi: int, block: int)

  /** How far below its base a running coroutine reaches in its next step. */
  function UsedDepth(l: Layout, h: HostCode): nat {
    match h
    case HostReturn => l.entryFrame
    case HostAct(_, depth, _) => depth
    case HostReenter(_, depth, _) => depth
  }

  /** The region of invocation k: of a suspended one from its saved stack pointer up to its base, of
      the running one as deep as it reaches. None if a suspended one had lost its registers. */
  ghost function RegionOf(l: Layout, s: State, k: nat): Option<Region>
    requires k < |s.invocations|
  {
    var block := s.invocations[k].hostState;
    if s.control.HostRunning? && k == |s.invocations| - 1 then
      Some(Region(s.control.base - UsedDepth(l, s.control.h), s.control.base, block))
    else if block in s.registers then Some(Region(s.registers[block].sp, s.registers[block].base, block))
    else None
  }

  ghost predicate RegionFits(l: Layout, s: State, k: nat)
    requires k < |s.invocations|
  {
    && RegionOf(l, s, k).Some?
    && var r := RegionOf(l, s, k).value;
    && l.buffer + 16 * |s.invocations| <= r.lo <= r.block && r.block + l.regState <= r.hi <= l.buffer + l.stackSize
    && r.hi % 16 == 0
  }

  ghost predicate RegionsOrdered(l: Layout, s: State, i: nat, j: nat)
    requires i < |s.invocations| && j < |s.invocations|
  {
    RegionOf(l, s, i).Some? && RegionOf(l, s, j).Some? && RegionOf(l, s, j).value.hi <= RegionOf(l, s, i).value.lo
  }

  /** Every live invocation has a region with an aligned base and its registers inside, between the
      end of the invocation array and the stack top; deeper ones lie strictly apart below. */
  ghost predicate RegionsApart(l: Layout, s: State) {
    && (forall k | 0 <= k < |s.invocations| :: RegionFits(l, s, k))
    && (forall i, j | 0 <= i < j < |s.invocations| :: RegionsOrdered(l, s, i, j))
  }

  lemma BaseIsAligned(l: Layout, s: State, k: nat)
    requires k <= |s.invocations| && (k > 0 ==> s.invocations[k - 1].hostState in s.registers)
    ensures Base(l, s, k) % 16 == 0
  {
  }

  /** Level k among n suspended ones, with the next base below it. */
  lemma LevelRegion(l: Layout, s: State, n: nat, k: nat)
    requires l.Valid() && k < n && Chain(l, s, n)
    ensures var info, saved := s.invocations[k], s.registers[s.invocations[k].hostState];
            && l.ArrayEnd(n) <= saved.sp <= info.hostState && info.hostState + l.regState <= saved.base <= l.StackTop()
            && saved.base % 16 == 0 && saved.base == Base(l, s, k)
            && Base(l, s, n) <= saved.sp
  {
    hide HostFits, GuestFits, AlignDown;
    assert SuspendedAt(l, s, k) && SuspendedAt(l, s, n - 1);
    BaseIsAligned(l, s, k);
    BasesDescend(l, s, k, n);
    if k > 0 { BasesDescend(l, s, 0, k); }
    if k < n - 1 { BasesDescend(l, s, k, n - 1); }
  }

  lemma LevelsDescend(l: Layout, s: State, n: nat, i: nat, j: nat)
    requires l.Valid() && i < j < n && Chain(l, s, n)
    ensures s.registers[s.invocations[j].hostState].base <= s.registers[s.invocations[i].hostState].sp
  {
    hide HostFits, GuestFits, AlignDown;
    assert SuspendedAt(l, s, j);
    BasesDescend(l, s, i, j);
  }

  /** In every reachable state, whoever has control, the stack regions of the live invocations, the
      running one included, are aligned, above the invocation array and pairwise disjoint. */
  lemma RegionsAreDisjoint(l: Layout, g: GuestCode, steps: nat)
    requires l.Valid() && GuestFits(l, g, l.StackTop(), 0)
    ensures RegionsApart(l, Run(l, Start(g), steps))
  {
    ReachableStatesAreSafe(l, g, steps);
    RegionsOfInv(l, Run(l, Start(g), steps));
  }

  lemma RegionsOfInv(l: Layout, s: State)
    requires l.Valid() && Inv(l, s)
    ensures RegionsApart(l, s)
  {
    hide Inv, RegionFits, RegionOf, RegionsOrdered;
    forall k | 0 <= k < |s.invocations| ensures RegionFits(l, s, k) { RegionHolds(l, s, k); }
    forall i, j | 0 <= i < j < |s.invocations| ensures RegionsOrdered(l, s, i, j) { RegionsDescend(l, s, i, j); }
  }

  lemma RegionHolds(l: Layout, s: State, k: nat)
    requires l.Valid() && Inv(l, s) && k < |s.invocations|
    ensures RegionFits(l, s, k)
  {
    hide GuestFits, HostFits, AlignDown, SuspendedAt;
    var n, t := SuspendedCount(s), GuestView(s);
    SuspendedChain(l, s);
    RunningBase(l, s);
    if k < n { LevelRegion(l, t, n, k); }
  }

  /** The running coroutine lies below the suspended ones, from an aligned base. */
  lemma RunningBase(l: Layout, s: State)
    requires l.Valid() && Inv(l, s)
    ensures s.control.HostRunning? ==>
              var n, base := SuspendedCount(s), s.control.base;
              && |s.invocations| == n + 1 && Chain(l, s, n) && base == Base(l, s, n) && base % 16 == 0 && base <= l.StackTop()
              && s.invocations[n].hostState == base - l.entryFrame
              && l.ArrayEnd(n + 1) <= base - UsedDepth(l, s.control.h) <= base - l.entryFrame
  {
    hide GuestFits, AlignDown, SuspendedAt;
    if s.control.HostRunning? {
      BaseIsAligned(l, s, SuspendedCount(s));
      BaseUnderTop(l, s, SuspendedCount(s));
    }
  }

  lemma RegionsDescend(l: Layout, s: State, i: nat, j: nat)
    requires l.Valid() && Inv(l, s) && i < j < |s.invocations|
    ensures RegionsOrdered(l, s, i, j)
  {
    hide GuestFits, HostFits, AlignDown, SuspendedAt, Inv;
    var n, t := SuspendedCount(s), GuestView(s);
    SuspendedChain(l, s);
    if j < n {
      LevelsDescend(l, t, n, i, j);
    } else {
      RunningBase(l, s);
      LevelRegion(l, s, n, i);
    }
  }

  lemma SuspendedChain(l: Layout, s: State)
    requires l.Valid() && Inv(l, s)
    ensures Chain(l, GuestView(s), SuspendedCount(s))
  {
    hide HostFits, GuestFits, AlignDown, SuspendedAt;
    assert s.frames[..|s.frames|] == s.frames;
    assert WaitingFrames(s) == |s.frames| ==> GuestView(s) == s;
  }

  lemma BaseUnderTop(l: Layout, s: State, n: nat)
    requires l.Valid() && Chain(l, s, n)
    ensures Base(l, s, n) <= l.StackTop()
  {
    if n > 0 { LevelRegion(l, s, n, n - 1); }
  }

  // ----- calls return -----

  lemma {:induction false} RunSplits(l: Layout, s: State, m: nat, n: nat)
    ensures Run(l, s, m + n) == Run(l, Run(l, s, m), n)
    decreases m
  {
    hide Step;
    if m > 0 { RunSplits(l, Step(l, s), m - 1, n); }
  }

  /** t is s after balanced activity that did `events`: same frames, same invocations, and every
      suspended coroutine still suspended where it was. */
  ghost predicate Balanced(s: State, t: State, events: seq<Event>)
  {
    && t.frames == s.frames && t.invocations == s.invocations
    && SameLevels(s, t, |s.invocations|)
    && t.trace == s.trace + events
  }

  lemma BalancedComposes(s: State, t: State, u: State, e: seq<Event>, f: seq<Event>)
    requires Balanced(s, t, e) && Balanced(t, u, f)
    ensures Balanced(s, u, e + f)
  {
  }

  lemma UnmovedIsBalanced(l: Layout, s: State, t: State, e: seq<Event>)
    requires Inv(l, s) && s.control.GuestRunning?
    requires t.frames == s.frames && t.invocations == s.invocations && t.registers == s.registers && t.trace == s.trace + e
    ensures Balanced(s, t, e)
  {
  }

  /** Guest code run at any nesting depth leaves both stacks as it found them. */
  lemma {:induction false} GuestCodeReturns(l: Layout, s: State, g: GuestCode)
    requires l.Valid() && Inv(l, s) && s.control == GuestRunning(g)
    ensures var t := Run(l, s, GuestWork(g) - 1);
            Inv(l, t) && t.control == GuestRunning(GuestReturn) && Balanced(s, t, GuestTrace(g))
    decreases GuestWork(g)
  {
    hide Inv, Remaining, RemainingWork, Balanced;
    match g
    case GuestReturn => UnmovedIsBalanced(l, s, s, []);
    case GuestAct(a, next) =>
      var t := Step(l, s);
      StepPreserves(l, s);
      UnmovedIsBalanced(l, s, t, [GuestEvent(a)]);
      GuestCodeReturns(l, t, next);
      BalancedComposes(s, t, Run(l, t, GuestWork(next) - 1), [GuestEvent(a)], GuestTrace(next));
    case GuestInvoke(ia, next) =>
      InvocationReturns(l, s, ia, next);
      var k := 2 + HostWork(InvokeByConv(ia));
      var t := Run(l, s, k);
      GuestCodeReturns(l, t, next);
      RunSplits(l, s, k, GuestWork(next) - 1);
      BalancedComposes(s, t, Run(l, t, GuestWork(next) - 1), CallTrace(ia), GuestTrace(next));
  }

  /** t is s after the running coroutine did `events` and went back to its driver for good. */
  ghost predicate Unwound(s: State, t: State, events: seq<Event>)
    requires |s.invocations| >= 1 && |s.frames| == |s.invocations|
  {
    var n := |s.invocations| - 1;
    && t.control == DriverTest
    && t.invocations == s.invocations[..n]
    && |t.frames| == n + 1 && t.frames[..n] == s.frames[..n]
    && t.frames[n].ret == 0 && t.frames[n].after == s.frames[n].after
    && SameLevels(s, t, n)
    && t.trace == s.trace + events
  }

  /** One `invokeFunction`, whatever reenters beneath it: afterwards the caller's guest code goes on
      with both stacks, and so `invocationCount`, exactly as before the call. */
  lemma {:induction false} InvocationReturns(l: Layout, s: State, ia: Invocation, next: GuestCode)
    requires l.Valid() && Inv(l, s) && s.control == GuestRunning(GuestInvoke(ia, next))
    ensures var t := Run(l, s, 2 + HostWork(InvokeByConv(ia)));
            Inv(l, t) && t.control == GuestRunning(next) && Balanced(s, t, CallTrace(ia))
    decreases HostWork(InvokeByConv(ia)) + 1
  {
    hide Inv, Remaining, RemainingWork, Balanced, Unwound, Step;
    var h, t := InvokeByConv(ia), Step(l, s);
    var base := InvokeControl(l, s, ia, next);
    StepPreserves(l, s);
    HostCodeReturns(l, t, base, h);
    var u := Run(l, t, HostWork(h));
    UnwoundControl(t, u, HostTrace(h));
    StepPreserves(l, u);
    RunSplits(l, t, HostWork(h), 1);
    assert Run(l, u, 1) == Run(l, Step(l, u), 0) == Step(l, u);
    InvokeThenTest(l, s, t, u, ia, next);
  }

  /** Invoking adds one driver frame and one invocation, and leaves the lower levels alone. */
  lemma InvokeControl(l: Layout, s: State, ia: Invocation, next: GuestCode) returns (base: int)
    requires l.Valid() && Inv(l, s) && s.control == GuestRunning(GuestInvoke(ia, next))
    ensures var t, n := Step(l, s), |s.invocations|;
            && t.control == HostRunning(base, InvokeByConv(ia)) && t.trace == s.trace
            && |t.frames| == |t.invocations| == n + 1
            && t.frames[..n] == s.frames && t.invocations[..n] == s.invocations && t.frames[n].after == next
            && SameLevels(s, t, n)
  {
    RoomForOneMore(l, s, ia, next);
    hide SuspendedAt, HostFits, AlignDown;
    base := Base(l, s, |s.invocations|);
    assert CarveStack(l, s) == Some(base);
  }

  lemma UnwoundControl(s: State, t: State, events: seq<Event>)
    requires |s.invocations| >= 1 && |s.frames| == |s.invocations| && Unwound(s, t, events)
    ensures t.control == DriverTest
  {
  }

  /** Host code run in a coroutine, up to and including its return to the driver loop. */
  lemma {:induction false} HostCodeReturns(l: Layout, s: State, base: int, h: HostCode)
    requires l.Valid() && Inv(l, s) && s.control == HostRunning(base, h)
    ensures var t := Run(l, s, HostWork(h));
            Inv(l, t) && |s.frames| == |s.invocations| >= 1 && Unwound(s, t, HostTrace(h))
    decreases HostWork(h)
  {
    HostLevels(l, s, base, h);
    hide Inv, Remaining, RemainingWork, Balanced, Unwound, HostMoved, Step;
    var t := Step(l, s);
    match h
    case HostReturn =>
      StepPreserves(l, s);
      HostReturnUnwinds(l, s, base);
      assert Run(l, s, 1) == Run(l, t, 0) == t;
    case HostAct(a, depth, next) =>
      StepPreserves(l, s);
      HostActMoves(l, s, base, a, depth, next);
      assert HostWork(h) == 1 + HostWork(next);
      assert Run(l, s, HostWork(h)) == Run(l, t, HostWork(next));
      assert HostTrace(h) == [HostEvent(a)] + HostTrace(next);
      HostCodeReturns(l, t, base, next);
      MovedThenUnwound(s, t, Run(l, t, HostWork(next)), base, next, [HostEvent(a)], HostTrace(next));
    case HostReenter(ra, depth, next) =>
      assert HostWork(h) == 2 + GuestWork(ServiceByConv(ra)) + HostWork(next);
      assert HostTrace(h) == ServiceTrace(ra) + HostTrace(next);
      HostReenterReturns(l, s, base, ra, depth, next);
  }

  lemma {:induction false} HostReenterReturns(l: Layout, s: State, base: int, ra: Reentry, depth: nat, next: HostCode)
    requires l.Valid() && Inv(l, s) && s.control == HostRunning(base, HostReenter(ra, depth, next))
    ensures var t := Run(l, s, 2 + GuestWork(ServiceByConv(ra)) + HostWork(next));
            Inv(l, t) && |s.frames| == |s.invocations| >= 1 && Unwound(s, t, ServiceTrace(ra) + HostTrace(next))
    decreases 1 + GuestWork(ServiceByConv(ra)) + HostWork(next)
  {
    hide Inv, Remaining, RemainingWork, Balanced, Unwound, HostMoved, Step;
    var g, k := ServiceByConv(ra), HostWork(next);
    ReenterReachesService(l, s, base, ra, depth, next);
    var t := Step(l, s);
    StepPreserves(l, s);
    var u := Step(l, t);
    StepPreserves(l, t);
    GuestCodeReturns(l, u, g);
    var v := Run(l, u, GuestWork(g) - 1);
    ServiceThenResume(l, s, base, ra, depth, next, v);
    var w := Step(l, v);
    StepPreserves(l, v);
    HostCodeReturns(l, w, base, next);
    assert Run(l, v, 1 + k) == Run(l, w, k);
    RunSplits(l, u, GuestWork(g) - 1, 1 + k);
    assert Run(l, s, 2 + GuestWork(g) + k) == Run(l, t, 1 + GuestWork(g) + k) == Run(l, u, GuestWork(g) + k);
    MovedThenUnwound(s, w, Run(l, w, k), base, next, ServiceTrace(ra), HostTrace(next));
  }

  lemma HostLevels(l: Layout, s: State, base: int, h: HostCode)
    requires Inv(l, s) && s.control == HostRunning(base, h)
    ensures |s.frames| == |s.invocations| >= 1
  {
  }

  /** t is s after the running coroutine did `events` and is still running, at the same level. */
  ghost predicate HostMoved(s: State, t: State, base: int, next: HostCode, events: seq<Event>)
  {
    var n := |s.invocations| - 1;
    && t.control == HostRunning(base, next)
    && n >= 0 && |s.frames| == n + 1 == |t.frames|
    && t.invocations == s.invocations
    && t.frames[..n] == s.frames[..n] && t.frames[n].after == s.frames[n].after
    && SameLevels(s, t, n)
    && t.trace == s.trace + events
  }

  lemma MovedThenUnwound(s: State, t: State, u: State, base: int, next: HostCode, e: seq<Event>, f: seq<Event>)
    requires HostMoved(s, t, base, next, e) && |t.invocations| >= 1 && |t.frames| == |t.invocations| && Unwound(t, u, f)
    ensures |s.frames| == |s.invocations| >= 1 && Unwound(s, u, e + f)
  {
  }

  lemma HostReturnUnwinds(l: Layout, s: State, base: int)
    requires l.Valid() && Inv(l, s) && s.control == HostRunning(base, HostReturn)
    ensures |s.frames| == |s.invocations| >= 1 && Unwound(s, Step(l, s), [])
  {
    var n, t := |s.invocations| - 1, Step(l, s);
    assert t.frames == s.frames[n := s.frames[n].(ret := 0)];
  }

  lemma HostActMoves(l: Layout, s: State, base: int, a: int, depth: nat, next: HostCode)
    requires l.Valid() && Inv(l, s) && s.control == HostRunning(base, HostAct(a, depth, next))
    ensures Step(l, s).control == HostRunning(base, next) && HostMoved(s, Step(l, s), base, next, [HostEvent(a)])
  {
    ScribbleSparesSuspended(l, s, |s.invocations| - 1, depth);
  }

  lemma ReenterReachesService(l: Layout, s: State, base: int, ra: Reentry, depth: nat, next: HostCode)
    requires l.Valid() && Inv(l, s) && s.control == HostRunning(base, HostReenter(ra, depth, next))
    ensures Step(l, s).control == DriverTest
    ensures Step(l, Step(l, s)).control == GuestRunning(ServiceByConv(ra))
    ensures var u, n := Step(l, Step(l, s)), |s.invocations| - 1;
            && n >= 0 && |s.frames| == n + 1 == |u.frames| && u.invocations == s.invocations
            && u.frames[..n] == s.frames[..n] && u.frames[n].after == s.frames[n].after
            && SameLevels(s, u, n) && u.trace == s.trace
            && u.invocations[n].hostState in u.registers
            && u.registers[u.invocations[n].hostState] == Suspended(base - depth, base, next)
  {
    var n := |s.invocations| - 1;
    ScribbleSparesSuspended(l, s, n, depth);
    assert Step(l, s).frames == s.frames[n := s.frames[n].(ra := Some(ra), ret := 1)];
  }

  lemma ServiceThenResume(l: Layout, s: State, base: int, ra: Reentry, depth: nat, next: HostCode, v: State)
    requires l.Valid() && Inv(l, s) && s.control == HostRunning(base, HostReenter(ra, depth, next))
    requires v.control == GuestRunning(GuestReturn) && Balanced(Step(l, Step(l, s)), v, ServiceTrace(ra))
    ensures Step(l, v).control == HostRunning(base, next) && HostMoved(s, Step(l, v), base, next, ServiceTrace(ra))
  {
    ReenterReachesService(l, s, base, ra, depth, next);
    hide Inv, Reenter;
    var u, n := Step(l, Step(l, s)), |s.invocations| - 1;
    assert SameLevels(u, v, n + 1);
    assert v.registers[v.invocations[n].hostState] == Suspended(base - depth, base, next);
  }

  lemma InvokeThenTest(l: Layout, s: State, t: State, u: State, ia: Invocation, next: GuestCode)
    requires l.Valid() && Inv(l, s) && s.control == GuestRunning(GuestInvoke(ia, next))
    requires t == Step(l, s) && |t.frames| == |t.invocations| >= 1 && Unwound(t, u, HostTrace(InvokeByConv(ia)))
    ensures Step(l, u).control == GuestRunning(next) && Balanced(s, Step(l, u), CallTrace(ia))
  {
    var base := InvokeControl(l, s, ia, next);
    hide Inv, Invoke;
    var n, v := |s.invocations|, Step(l, u);
    assert v.frames == u.frames[..n] == t.frames[..n];
    assert v.trace == s.trace + CallTrace(ia);
  }
}
