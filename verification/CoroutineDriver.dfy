/** The same protocol in the form the sources give it: a thread's `HostExecContext` updated in place,
    and the guest's driver as a loop in a recursive method.

    The guest's call stack is the call stack of `RunGuest` and `InvokeFunction`; the host coroutines
    are the explicit suspended contexts of the machine in CoroutineMachine. */
module CoroutineDriver {
  import opened Wrappers
  import opened CallTrees
  import CoroutineMachine
  type Suspended = CoroutineMachine.Suspended

  /** The locals `ra` and `ret` of one `invokeFunction` activation, written through pointers. */
  class DriverFrame {
    var ra: Option<Reentry>
    var ret: int

    constructor ()
      ensures ra == None && ret == 0
    {
      ra, ret := None, 0;
    }
  }

  datatype InvocationInfo = InvocationInfo(raPtr: DriverFrame?, hostState: int)

  /** A suspended invocation: its array entry and its saved registers. */
  datatype Level = Level(info: InvocationInfo, saved: Suspended)

  ghost function Base(l: Layout, levels: seq<Level>): int {
    if levels == [] then l.StackTop() else AlignDown(levels[|levels| - 1].saved.sp)
  }

  ghost predicate LevelFits(l: Layout, below: seq<Level>, level: Level) {
    && level.saved.base == Base(l, below)
    && level.info.hostState == level.saved.base - l.entryFrame
    && level.saved.sp <= level.saved.base - l.entryFrame
    && l.ArrayEnd(|below| + 1) <= level.saved.sp
    && HostFits(l, level.saved.rest, level.saved.base, |below|)
  }

  ghost predicate Chain(l: Layout, levels: seq<Level>) {
    forall k | 0 <= k < |levels| :: LevelFits(l, levels[..k], levels[k])
  }

  lemma ChainExtends(l: Layout, levels: seq<Level>, top: Level)
    requires Chain(l, levels) && LevelFits(l, levels, top)
    ensures Chain(l, levels + [top])
  {
    forall k | 0 <= k < |levels| + 1
      ensures LevelFits(l, (levels + [top])[..k], (levels + [top])[k])
    {
      assert (levels + [top])[..k] == if k == |levels| then levels else levels[..k];
    }
  }

  lemma ChainShrinks(l: Layout, levels: seq<Level>)
    requires levels != [] && Chain(l, levels)
    ensures Chain(l, levels[..|levels| - 1]) && LevelFits(l, levels[..|levels| - 1], levels[|levels| - 1])
  {
    var below := levels[..|levels| - 1];
    forall k | 0 <= k < |below|
      ensures LevelFits(l, below[..k], below[k])
    {
      assert below[..k] == levels[..k];
    }
  }

  /** The last level can run again from its base, above the others. */
  lemma TopLevelFits(l: Layout, levels: seq<Level>)
    requires levels != [] && Chain(l, levels)
    ensures var below, top := levels[..|levels| - 1], levels[|levels| - 1];
            && Chain(l, below) && top.saved.base == Base(l, below) && top.info.hostState == top.saved.base - l.entryFrame
            && HostFits(l, top.saved.rest, top.saved.base, |below|)
  {
    ChainShrinks(l, levels);
  }

  /** A new coroutine starts at or below every suspended one's saved stack pointer. */
  lemma {:induction false} BasesDescend(l: Layout, levels: seq<Level>, k: nat)
    requires l.Valid() && Chain(l, levels) && k < |levels|
    ensures Base(l, levels) <= levels[k].saved.sp <= levels[k].info.hostState < l.StackTop()
    decreases |levels|
  {
    hide AlignDown, HostFits;
    ChainShrinks(l, levels);
    var below := levels[..|levels| - 1];
    if k < |below| {
      BasesDescend(l, below, k);
    } else if below != [] {
      BasesDescend(l, below, |below| - 1);
    }
  }

  class HostExecContext {
    const layout: Layout
    const invocations: array<InvocationInfo>
    var invocationCount: nat
    var registers: map<int, Suspended>   // RegState blocks on the coroutine stacks
    var mainHostState: nat               // the activation whose context the one slot holds
    var activations: nat
    var trace: seq<Event>
    ghost var levels: seq<Level>         // the suspended invocations, outermost first

    ghost predicate Valid()
      reads this, invocations
    {
      && layout.Valid()
      && invocations.Length == layout.stackSize / SIZEOF_INVOCATION_INFO
      && |levels| <= invocationCount <= invocations.Length
      && Chain(layout, levels)
      && forall k | 0 <= k < |levels| ::
           && invocations[k] == levels[k].info
           && levels[k].info.hostState in registers && registers[levels[k].info.hostState] == levels[k].saved
    }

    /** The guest has control: every live invocation is suspended. */
    ghost predicate GuestHasControl()
      reads this, invocations
    {
      Valid() && invocationCount == |levels|
    }

    /** A coroutine of driver frame `frame`, started at `base`, has control above the suspended ones. */
    ghost predicate HostHasControl(frame: DriverFrame, base: int)
      reads this, invocations
    {
      && Valid() && invocationCount == |levels| + 1
      && base == Base(layout, levels)
      && invocations[|levels|] == InvocationInfo(frame, base - layout.entryFrame)
    }

    constructor (layout: Layout)
      requires layout.Valid()
      ensures GuestHasControl() && levels == [] && trace == [] && this.layout == layout && fresh(invocations)
    {
      this.layout := layout;
      invocations := new InvocationInfo[layout.stackSize / SIZEOF_INVOCATION_INFO];
      invocationCount, registers, mainHostState, activations, trace := 0, map[], 0, 0, [];
      levels := [];
    }

    /** The innermost live invocation: while the guest has control, the innermost suspended one. */
    method LastInvocation() returns (info: InvocationInfo)
      requires 0 < invocationCount <= invocations.Length
      ensures info == invocations[invocationCount - 1]
      ensures GuestHasControl() ==> levels != [] && info == levels[|levels| - 1].info
    {
      info := invocations[invocationCount - 1];
    }

    method PushInvocation(raPtr: DriverFrame, hostState: int)
      requires invocationCount < invocations.Length
      modifies this`invocationCount, invocations
      ensures invocationCount == old(invocationCount) + 1
      ensures invocations[..invocationCount] == old(invocations[..invocationCount]) + [InvocationInfo(raPtr, hostState)]
    {
      invocations[invocationCount] := InvocationInfo(raPtr, hostState);
      invocationCount := invocationCount + 1;
    }

    /** The running invocation is gone: exactly the suspended ones are live, and the guest may have
        control again. */
    method PopInvocation(ghost frame: DriverFrame, base: int)
      requires HostHasControl(frame, base)
      modifies this`invocationCount
      ensures GuestHasControl()
      ensures invocations[..old(invocationCount)] == invocations[..invocationCount] + [InvocationInfo(frame, base - layout.entryFrame)]
    {
      invocationCount := invocationCount - 1;
    }

    /** `Invocation::reenter`: hand `ra` to the driver, save this coroutine, yield 1 to whoever
        mainHostState says. */
    method Reenter(ghost frame: DriverFrame, base: int, ra: Reentry, depth: nat, rest: HostCode)
      returns (activation: nat, value: int)
      requires HostHasControl(frame, base)
      requires HostFits(layout, HostReenter(ra, depth, rest), base, |levels|)
      modifies this`registers, this`levels, frame`ra
      ensures activation == mainHostState && value == 1
      ensures GuestHasControl() && frame.ra == Some(ra)
      ensures levels == old(levels) + [Level(invocations[|old(levels)|], CoroutineMachine.Suspended(base - depth, base, rest))]
    {
      var last := LastInvocation();
      last.raPtr.ra := Some(ra);
      registers := CoroutineMachine.Scribble(layout, registers, base, depth)[last.hostState := CoroutineMachine.Suspended(base - depth, base, rest)];
      forall k | 0 <= k < |levels| { BasesDescend(layout, levels, k); }
      ghost var top := Level(last, CoroutineMachine.Suspended(base - depth, base, rest));
      ChainExtends(layout, levels, top);
      levels := levels + [top];
      activation, value := mainHostState, 1;
    }

    /** The running coroutine overwrites its own stack, and with it any register block there. */
    method UseStack(ghost frame: DriverFrame, base: int, depth: nat)
      requires HostHasControl(frame, base)
      modifies this`registers
      ensures HostHasControl(frame, base)
    {
      hide AlignDown, LevelFits;
      forall k | 0 <= k < |levels| { BasesDescend(layout, levels, k); }
      registers := CoroutineMachine.Scribble(layout, registers, base, depth);
    }

    /** Runs the coroutine whose remaining code is `h` until control next leaves it. */
    method RunCoroutine(ghost frame: DriverFrame, base: int, h: HostCode) returns (activation: nat, value: int)
      requires HostHasControl(frame, base) && HostFits(layout, h, base, |levels|)
      modifies this`registers, this`levels, this`invocationCount, this`trace, frame`ra
      ensures activation == mainHostState
      ensures GuestHasControl()
      ensures value == 0 ==> levels == old(levels) && trace == old(trace) + HostTrace(h)
      ensures value != 0 ==> value == 1 && AtReentry(frame, old(levels), old(trace), HostTrace(h), HostWork(h))
    {
      hide AlignDown, LevelFits, Chain;
      var todo := h;
      while todo.HostAct?
        invariant HostHasControl(frame, base) && HostFits(layout, todo, base, |levels|)
        invariant levels == old(levels)
        invariant old(trace) + HostTrace(h) == trace + HostTrace(todo) && HostWork(todo) <= HostWork(h)
        decreases todo
      {
        UseStack(frame, base, todo.depth);
        assert trace + ([HostEvent(todo.a)] + HostTrace(todo.next)) == trace + [HostEvent(todo.a)] + HostTrace(todo.next);
        trace := trace + [HostEvent(todo.a)];
        todo := todo.next;
      }
      if todo.HostReturn? {
        assert trace == old(trace) + HostTrace(h);
        PopInvocation(frame, base);
        activation, value := mainHostState, 0;
      } else {
        activation, value := Reenter(frame, base, todo.ra, todo.depth, todo.next);
        assert levels[..|old(levels)|] == old(levels);
      }
    }

    /** The driver frame has been handed a reentry: `frame.ra` is the service it asks for, the
        coroutine suspended on top of `below` owes the rest of `events` after that service, and both
        fit the stack. */
    ghost predicate AtReentry(frame: DriverFrame, below: seq<Level>, before: seq<Event>, events: seq<Event>, work: nat)
      reads this, frame
    {
      && |levels| == |below| + 1 && levels[..|below|] == below
      && levels[|below|].info.raPtr == frame
      && frame.ra.Some?
      && GuestFits(layout, ServiceByConv(frame.ra.value), Base(layout, levels), |levels|)
      && before + events == trace + ServiceTrace(frame.ra.value) + HostTrace(levels[|below|].saved.rest)
      && GuestWork(ServiceByConv(frame.ra.value)) + HostWork(levels[|below|].saved.rest) < work
    }

    /** A new activation of the dispatcher saves its context into the one mainHostState. */
    method EnterDispatcher() returns (ticket: nat)
      modifies this`mainHostState, this`activations
      ensures ticket == mainHostState == old(activations) && activations == old(activations) + 1
    {
      ticket := activations;
      mainHostState, activations := ticket, activations + 1;
    }

    method CarveStack() returns (stack: int)
      requires GuestHasControl()
      ensures stack == Base(layout, levels)
    {
      if invocationCount == 0 {
        stack := layout.StackTop();
      } else {
        var last := LastInvocation();
        stack := AlignDown(registers[last.hostState].sp);
      }
    }

    /** coroutine_start up to the host call: carve a stack and, in invocationEntry, push the
        invocation. */
    method StartInvocation(frame: DriverFrame) returns (stack: int)
      requires GuestHasControl()
      requires layout.ArrayEnd(|levels| + 1) <= Base(layout, levels) - layout.entryFrame
      modifies this`invocationCount, invocations
      ensures HostHasControl(frame, stack)
    {
      hide Chain, LevelFits, AlignDown;
      stack := CarveStack();
      if levels != [] { BasesDescend(layout, levels, 0); }
      ghost var below := invocations[..invocationCount];
      PushInvocation(frame, stack - layout.entryFrame);
      assert forall k | 0 <= k < |levels| :: invocations[k] == invocations[..invocationCount][k] == below[k];
    }

    /** `Invocation::invoke`. */
    method Invoke(ia: Invocation, frame: DriverFrame) returns (value: int)
      requires GuestHasControl()
      requires GuestFits(layout, GuestInvoke(ia, GuestReturn), Base(layout, levels), |levels|)
      modifies this, invocations, frame`ra
      ensures GuestHasControl()
      ensures value == 0 ==> levels == old(levels) && trace == old(trace) + CallTrace(ia)
      ensures value != 0 ==> value == 1 && AtReentry(frame, old(levels), old(trace), CallTrace(ia), HostWork(InvokeByConv(ia)))
    {
      hide Chain, LevelFits, AlignDown, AtReentry;
      var ticket := EnterDispatcher();
      var stack := StartInvocation(frame);
      var activation: nat;
      activation, value := RunCoroutine(frame, stack, InvokeByConv(ia));
      assert activation == ticket;
    }

    /** The last invocation, about to run again, is no longer suspended. */
    method WakeLast(ghost frame: DriverFrame) returns (saved: Suspended)
      requires GuestHasControl() && levels != []
      requires levels[|levels| - 1].info.raPtr == frame
      modifies this`levels
      ensures saved == old(levels)[|old(levels)| - 1].saved
      ensures levels == old(levels)[..|old(levels)| - 1]
      ensures HostHasControl(frame, saved.base) && HostFits(layout, saved.rest, saved.base, |levels|)
    {
      hide Chain, AlignDown, HostFits, Base, LevelFits;
      TopLevelFits(layout, levels);
      ghost var below, top := levels[..|levels| - 1], levels[|levels| - 1];
      assert forall k | 0 <= k < |below| :: below[k] == levels[k];
      var last := LastInvocation();
      saved := registers[last.hostState];
      levels := below;
    }

    /** `Invocation::resume`: no driver frame is passed, the last invocation still has its own. */
    method Resume(ghost frame: DriverFrame) returns (value: int)
      requires GuestHasControl() && levels != []
      requires levels[|levels| - 1].info.raPtr == frame
      modifies this, frame`ra
      ensures GuestHasControl()
      ensures var below, rest := old(levels)[..|old(levels)| - 1], old(levels)[|old(levels)| - 1].saved.rest;
              && (value == 0 ==> levels == below && trace == old(trace) + HostTrace(rest))
              && (value != 0 ==> value == 1 && AtReentry(frame, below, old(trace), HostTrace(rest), HostWork(rest)))
    {
      hide Chain, LevelFits, AlignDown, AtReentry;
      var ticket := EnterDispatcher();
      var saved := WakeLast(frame);
      var activation: nat;
      activation, value := RunCoroutine(frame, saved.base, saved.rest);
      assert activation == ticket;
    }
  }

  /** Guest code on this thread, at any depth of nesting: it does what the plain nested calls do and
      leaves the host's invocation stack as it was. */
  method RunGuest(ctx: HostExecContext, g: GuestCode)
    requires ctx.GuestHasControl()
    requires GuestFits(ctx.layout, g, Base(ctx.layout, ctx.levels), |ctx.levels|)
    modifies ctx, ctx.invocations
    ensures ctx.GuestHasControl() && ctx.levels == old(ctx.levels) && ctx.invocationCount == old(ctx.invocationCount)
    ensures ctx.trace == old(ctx.trace) + GuestTrace(g)
    decreases GuestWork(g)
  {
    hide Chain, LevelFits, HostFits, AlignDown;
    match g
    case GuestReturn =>
    case GuestAct(a, next) =>
      ctx.trace := ctx.trace + [GuestEvent(a)];
      RunGuest(ctx, next);
    case GuestInvoke(ia, next) =>
      InvokeFunction(ctx, ia);
      RunGuest(ctx, next);
  }

  /** `GuestClient::invokeFunction`: invoke, then service reentries and resume until the host is done. */
  method InvokeFunction(ctx: HostExecContext, ia: Invocation)
    requires ctx.GuestHasControl()
    requires GuestFits(ctx.layout, GuestInvoke(ia, GuestReturn), Base(ctx.layout, ctx.levels), |ctx.levels|)
    modifies ctx, ctx.invocations
    ensures ctx.GuestHasControl() && ctx.levels == old(ctx.levels) && ctx.invocationCount == old(ctx.invocationCount)
    ensures ctx.trace == old(ctx.trace) + CallTrace(ia)
    decreases HostWork(InvokeByConv(ia)) + 1
  {
    hide Chain, LevelFits, HostFits, AlignDown;
    var frame := new DriverFrame();
    frame.ret := ctx.Invoke(ia, frame);
    ghost var work: nat := HostWork(InvokeByConv(ia));
    while frame.ret != 0
      invariant ctx.GuestHasControl() && work <= HostWork(InvokeByConv(ia))
      invariant frame.ret == 0 ==> ctx.levels == old(ctx.levels) && ctx.trace == old(ctx.trace) + CallTrace(ia)
      invariant frame.ret != 0 ==> frame.ret == 1
      invariant frame.ret != 0 ==> ctx.AtReentry(frame, old(ctx.levels), old(ctx.trace), CallTrace(ia), work)
      decreases if frame.ret == 0 then 0 else work
    {
      assert frame.ret == 1 && frame.ra != None;
      ghost var rest := ctx.levels[|ctx.levels| - 1].saved.rest;
      ghost var service := ServiceTrace(frame.ra.value);
      ghost var before := ctx.trace;
      match frame.ra.value.conv {
        case SC_Unknown(_) =>
        case _ => RunGuest(ctx, frame.ra.value.proc);
      }
      assert old(ctx.trace) + CallTrace(ia) == ctx.trace + HostTrace(rest);
      assert ctx.levels[..|ctx.levels| - 1] == old(ctx.levels);
      label Serviced:
      frame.ret := ctx.Resume(frame);
      work := HostWork(rest);
    }
  }
}
