/** What guest and host functions do when they call each other across the boundary.

    A call tree is one complete behaviour of a guest thread: the guest code runs, invokes host
    functions, these reenter the guest, and so on to any depth. `GuestTrace` and `HostTrace` give
    the tree its plain meaning, that of ordinary nested calls. */
module CallTrees {

  datatype Event = GuestEvent(a: int) | HostEvent(a: int)

  // ClientCallingConvention (Protocol.h); an unknown value is served by doing nothing.
  datatype CallConv = CC_Standard | CC_StandardCallback | CC_Format | CC_ThreadEntry | CC_Unknown(code: int)

  // ServerReentryConvention without thread creation and thread exit.
  datatype ServiceConv = SC_Standard | SC_StandardCallback | SC_Format | SC_Unknown(code: int)

  datatype GuestCode =
    | GuestReturn
    | GuestAct(a: int, next: GuestCode)
    | GuestInvoke(ia: Invocation, next: GuestCode)

  /** `depth` is how many bytes of the coroutine's own stack are in use at that point. */
  datatype HostCode =
    | HostReturn
    | HostAct(a: int, depth: nat, next: HostCode)
    | HostReenter(ra: Reentry, depth: nat, next: HostCode)

  datatype Invocation = Invocation(conv: CallConv, proc: HostCode)
  datatype Reentry = Reentry(conv: ServiceConv, proc: GuestCode)

  /** The host code `invokeByConv` runs: an unknown convention returns at once. */
  function InvokeByConv(ia: Invocation): HostCode {
    if ia.conv.CC_Unknown? then HostReturn else ia.proc
  }

  /** The guest code the driver's `switch (ra->conv)` runs: the default case does nothing. */
  function ServiceByConv(ra: Reentry): GuestCode {
    if ra.conv.SC_Unknown? then GuestReturn else ra.proc
  }

  function GuestTrace(g: GuestCode): seq<Event>
  {
    match g
    case GuestReturn => []
    case GuestAct(a, next) => [GuestEvent(a)] + GuestTrace(next)
    case GuestInvoke(ia, next) => CallTrace(ia) + GuestTrace(next)
  }

  function HostTrace(h: HostCode): seq<Event>
  {
    match h
    case HostReturn => []
    case HostAct(a, _, next) => [HostEvent(a)] + HostTrace(next)
    case HostReenter(ra, _, next) => ServiceTrace(ra) + HostTrace(next)
  }

  /** What one host call, or one reentry, contributes: nothing when its convention is unknown. */
  function CallTrace(ia: Invocation): seq<Event> {
    if ia.conv.CC_Unknown? then [] else HostTrace(ia.proc)
  }

  function ServiceTrace(ra: Reentry): seq<Event> {
    if ra.conv.SC_Unknown? then [] else GuestTrace(ra.proc)
  }

  /** How many machine steps the code takes; the unit of the termination argument. */
  ghost function GuestWork(g: GuestCode): nat
  {
    match g
    case GuestReturn => 1
    case GuestAct(_, next) => 1 + GuestWork(next)
    case GuestInvoke(ia, next) => 2 + (if ia.conv.CC_Unknown? then 1 else HostWork(ia.proc)) + GuestWork(next)
  }

  ghost function HostWork(h: HostCode): nat
  {
    match h
    case HostReturn => 1
    case HostAct(_, _, next) => 1 + HostWork(next)
    case HostReenter(ra, _, next) => 2 + (if ra.conv.SC_Unknown? then 1 else GuestWork(ra.proc)) + HostWork(next)
  }

  // ----- the shared stack buffer -----

  const SIZEOF_INVOCATION_INFO := 16

  /** The thread's stack buffer: `stackSize` bytes at `buffer`. `entryFrame` is the size of the
      frame of `invocationEntry`, which holds the invocation's saved registers at its low end, and
      `regState` is the size of these: 64 bytes on x86_64, 112 on aarch64, 120 on riscv64. */
  datatype Layout = Layout(buffer: nat, stackSize: nat, entryFrame: nat, regState: nat) {
    ghost predicate Valid() { 0 < regState <= entryFrame }

    function StackTop(): int { AlignDown(buffer + stackSize) }

    /** First byte after an invocation array of n entries. */
    function ArrayEnd(n: nat): int { buffer + n * SIZEOF_INVOCATION_INFO }

    /** The `assert` in pushInvocation. */
    predicate RoomForInvocation(count: nat) { count < stackSize / SIZEOF_INVOCATION_INFO }
  }

  /** `addr & ~uintptr_t(0xF)`. */
  function AlignDown(addr: int): (r: int)
    ensures addr - 16 < r <= addr
  {
    addr - addr % 16
  }

  /** The guest code never makes a coroutine run out of the buffer: with `n` invocations live and
      the next coroutine starting at `base`, every coroutine stays above the invocation array. */
  ghost predicate GuestFits(l: Layout, g: GuestCode, base: int, n: nat)
  {
    match g
    case GuestReturn => true
    case GuestAct(_, next) => GuestFits(l, next, base, n)
    case GuestInvoke(ia, next) =>
      && l.ArrayEnd(n + 1) <= base - l.entryFrame
      && (!ia.conv.CC_Unknown? ==> HostFits(l, ia.proc, base, n))
      && GuestFits(l, next, base, n)
  }

  /** The same of a coroutine started at `base` above `n` suspended ones; its frames lie between
      the frame of `invocationEntry` and the end of the invocation array. */
  ghost predicate HostFits(l: Layout, h: HostCode, base: int, n: nat)
  {
    match h
    case HostReturn => true
    case HostAct(_, depth, next) => DepthFits(l, depth, base, n) && HostFits(l, next, base, n)
    case HostReenter(ra, depth, next) =>
      && DepthFits(l, depth, base, n)
      && (!ra.conv.SC_Unknown? ==> GuestFits(l, ra.proc, AlignDown(base - depth), n + 1))
      && HostFits(l, next, base, n)
  }

  ghost predicate DepthFits(l: Layout, depth: nat, base: int, n: nat) {
    l.entryFrame <= depth && l.ArrayEnd(n + 1) <= base - depth
  }
}
