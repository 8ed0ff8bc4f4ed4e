# Lorelei, verified

A Dafny model of the parts of Lorelei whose correctness is not visible from one function at a time.
Lorelei lets an emulated guest program call native host libraries. The model covers:

1. **Coroutine reentry.** A guest call starts a host coroutine; the host function may suspend to call
   back into the guest, which may start further host calls on the same thread. All of them share one
   `mainHostState` slot, one invocation array and one stack buffer. `CallTrees` gives the meaning of
   plain nested calls, `CoroutineMachine` is a step machine with explicit continuations and stack
   addresses that is proved to refine it, and `CoroutineDriver` is the same code as a class with a
   recursive driver loop, proved against the same meaning.
2. **Callbacks in C type graphs.** `TypeGraph` holds types and the walk that looks for function
   pointers, `CallbackTree` the substituter's tree of access paths, `CallbackStat` the worklist of
   `stat`, `CallbackLookup` the agreement of the two tools, `CallbackStubs` the trampoline tables,
   `CallbackEmit` the emitted init and fini code run over a memory, `CallbackReach` the agreement of
   that code with the walks through the argument types, and `CallbackNull` which of it may follow a
   null pointer.
3. **json11.** `JsonValue` and `JsonPrinter` hold values and the serializer, `JsonGrammar` says what
   the parser returns, `JsonParser` is the cursor-moving parser itself, `JsonRoundTrip` shows that
   parsing undoes dumping, `JsonUnicode` treats `\u` escapes and UTF-8, `JsonText` is the grammar of
   RFC 8259 as a relation, which the parser is proved to accept, `JsonErrors` explains what it refuses,
   and `JsonLaws` says what order, insertion, equality and the dumped escapes mean.
4. **VarSizeArray.** A small-buffer vector over slots that are constructed and destroyed one by one,
   with inline and heap buffers and an allocator that knows which buffers are live and who owns them.
5. **Interpreters and indexes.** `VarExp` expands `${...}`, `ThunkEntries` and `ThunkDatabase` layer
   JSON documents of thunks and answer lookups by name or alias, `ThunkWritten` says what a document
   of thunks means as it is written, `PrintfFormat` and `PrintfArgs` walk a printf format and box its
   arguments, and `PrintfStandard` compares that with the C standard.

Code that changes state is written as classes and methods with loops, each tied by its postconditions
to a function on values; the laws are lemmas about those functions. A function pointer of C is a
value of `Pointer`, a C type is a value of `CType` with a finite environment of records, and byte
strings are sequences of bytes (JSON) or characters (elsewhere).

## Where the code does not do what one would expect

- `varexp` collapses `$$` in the values it looked up too, so a template of escaped text and variables
  does not always expand to the text and the values. `VarExp.TemplatesExpand` gives the exact
  condition, `VarExp.ValuesCollapse` an input that breaks it, and `VarExp.NamesCollapse` one that breaks
  it inside a nested name. Text that is escaped as a whole always survives (`VarExp.DoublingEscapes`).
- Forward thunk names are unique as keys, but entries hold C strings: names are unique if and only if
  no two different names in the documents agree up to their first NUL (`ThunkEntries.NamesAreUnique`
  for one document, `ThunkDatabase.NamesStayUnique` for a load and any sequence of requests).
  `ThunkEntries.NamesMayClash` is a document that breaks it.
- The extractor's union keeps an `unsigned long` in an `unsigned int`: an argument survives boxing if
  and only if it is taken for scanf, has another type, or is below 2^32 (`PrintfArgs.Boxed`,
  `PrintfArgs.Extract`). `PrintfArgs.UnsignedLongIsCut` is an argument that does not survive.
- The conversions `%a`, `%A` and `%n` of the C standard are unknown to the extractor and take no argument
  (`PrintfStandard.UnsupportedTakeNothing`); `PrintfStandard.SpecTable` says exactly which ones take one.
- A null callback that is foreign to the receiver is recorded but never restored, because `fini` skips
  a null record. `CallbackEmit.SlotIsRestored` gives the exact condition for a slot to be restored and
  `CallbackEmit.NullIsNotRestored` a call that breaks it.
- The emitted code for out callbacks dereferences its argument untested, unlike child pointers: it
  completes if and only if no listed out argument is null (`CallbackNull.ExecOutHitsTargets`), and
  `CallbackNull.NullOutArgument` is a call that breaks it. The code for the other callbacks follows no
  null pointer (`CallbackNull.InitIsSafe`, `CallbackNull.FiniIsSafe`).
- A dumped value nested deeper than 200 does not parse back (`JsonRoundTrip.ParseOfDump`).

## Main results

- One driver loop over invoke, reenter and resume does exactly the events of plain nested calls
  (`CoroutineMachine.DriverRefinesNestedCalls`), no reachable state fails an assertion
  (`CoroutineMachine.ReachableStatesAreSafe`), and in each of them the live invocations have disjoint
  stack regions (`CoroutineMachine.RegionsAreDisjoint`). The class does the same
  (`CoroutineDriver.InvokeFunction`).
- The substituter's tree is exact (`CallbackTree.BuildClassifies`), so the emitted code visits exactly
  the callbacks reachable from the arguments (`CallbackReach.SlotsAreReachableCallbacks`), makes each
  callable through the handler of its own type and restores it (`CallbackReach.ReachableCallbacksAreSubstituted`).
- `stat` records exactly the callbacks that the configured functions and callbacks can meet, under known
  aliases (`CallbackLookup.Stat`), and every lookup of the substituter resolves after it
  (`CallbackLookup.StatThenSubstitute`).
- Callbacks keep their origin across any number of inits and come back as themselves
  (`CallbackStubs.InitsKeepSound`, `CallbackStubs.SentAndHandedBack`).
- Parsing undoes dumping (`JsonRoundTrip.ParseOfDump`), and the parser returns the grammar's value or
  first error on every input (`JsonParser.Parse`), accepting exactly the texts of RFC 8259 up to its
  depth limit (`JsonText.AcceptsExactlyTexts`).
- VarSizeArray behaves as a sequence in every operation, aliased arguments and heap buffers included,
  with pushes at amortised constant cost (`VarSizeArray.PushesAreAmortised`).
- `varexp` loses nothing when splitting (`VarExp.SplitIsLossless`) and expands templates, nested names
  included, exactly under a known condition that covers every string (`VarExp.TemplatesExpand`,
  `VarExp.EveryTemplate`, `VarExp.NestedTemplatesExpand`).
- Resolved thunks never change over a server's life (`ThunkDatabase.ResolvedNamesStay`).
- A document of thunks is answered as it is written (`ThunkWritten.LoadAndFindForward`,
  `ThunkWritten.LoadAndFindReversed`).
- printf formats give exactly the arguments the C standard says (`PrintfStandard.ExtractStandard`).

## Model

| member | source | states |
|---|---|---|
| CoroutineMachine.StepPreserves | src/utils/TinyCoroutine/Invocation.cpp:109-165 | every step from a state satisfying the invariant reaches one that satisfies it, never crashes, takes one unit off the remaining work, and keeps "done so far, then still owed" the same event sequence |
| CoroutineMachine.RunPreserves | src/modules/GuestRT/GuestClient.cpp:246-315 | the same over a run of any length, with the exact amount of work left |
| CoroutineMachine.DriverRefinesNestedCalls | src/modules/GuestRT/GuestClient.cpp:237-316 | for every call tree the driver loop over invoke, reenter and resume performs exactly the events of plain nested calls, in order, and halts with both stacks empty |
| CoroutineMachine.ReachableStatesAreSafe | src/utils/TinyCoroutine/Invocation.cpp:109-165 | no reachable state is a failed assertion, and the trace is always a prefix of the nested-call trace |
| CoroutineMachine.StacksMatch | src/utils/TinyCoroutine/Invocation.cpp:60-73 | in every reachable state the invocation array holds one entry for every driver frame, except one at the loop test with nothing pending, entry k with the `ra` pointer of frame k; whenever the guest has control, at the loop test with a pending reentry too, no saved context is pending |
| CoroutineMachine.MainStateIsFreshUnderHost | src/utils/TinyCoroutine/Invocation.cpp:124-151 | while the host has control, the one `mainHostState` holds the context of the latest invoke or resume, not loaded before, which reports through the frame whose `ra` the running invocation writes |
| CoroutineMachine.ContextsAreLoadedOnce | src/utils/TinyCoroutine/Invocation.cpp:118-150 | contexts in the shared slot are loaded in the order they were saved, none twice and none skipped |
| CoroutineMachine.LoopTestAssertionHolds | src/modules/GuestRT/GuestClient.cpp:251-252 | at every loop test, at any depth, a nonzero `ret` is 1 with `ra` set, and the stack heights are the right ones in either case |
| CoroutineMachine.RegionsAreDisjoint | src/utils/TinyCoroutine/Invocation.cpp:91-120 | in every reachable state every live invocation, suspended or running, has a 16-byte aligned base at or below the stack top and a region above the invocation array, and the regions of any two of them are disjoint and ordered downwards |
| CoroutineMachine.RoomForOneMore | src/utils/TinyCoroutine/Invocation.cpp:60-68 | the bound asserted by `pushInvocation` holds whenever the guest starts another call |
| CoroutineMachine.BasesDescend | src/utils/TinyCoroutine/Invocation.cpp:113-117 | a deeper invocation is carved strictly below a shallower one's saved stack pointer |
| CoroutineMachine.ScribbleSparesSuspended | src/utils/TinyCoroutine/Invocation.cpp:154-160 | a running coroutine that overwrites everything below its base destroys no suspended invocation's saved registers |
| CoroutineMachine.GuestCodeReturns | src/modules/GuestRT/GuestClient.cpp:237-316 | guest code started in any reachable state runs, in a known number of steps, to its end with its events appended and frames, invocations and saved registers as before |
| CoroutineMachine.InvocationReturns | src/utils/TinyCoroutine/Invocation.cpp:109-122 | an invocation from any reachable state returns to its caller with exactly the events of the call and both stacks restored |
| CoroutineMachine.HostCodeReturns | src/utils/TinyCoroutine/Invocation.cpp:132-165 | host code running in any reachable state, however often it suspends, finishes with its events and hands control back to the driver frame below |
| CoroutineDriver.HostExecContext.constructor | src/utils/TinyCoroutine/Invocation.cpp:91-105 | a fresh context has no live invocation and an array that fills the buffer |
| CoroutineDriver.HostExecContext.PushInvocation | src/utils/TinyCoroutine/Invocation.cpp:60-68 | appends exactly the given entry |
| CoroutineDriver.HostExecContext.UseStack | src/utils/TinyCoroutine/Invocation.cpp:154-158 | the running coroutine may overwrite everything below its base |
| CoroutineDriver.HostExecContext.CarveStack | src/utils/TinyCoroutine/Invocation.cpp:113-117 | the stack top when nothing is live, else the aligned stack pointer of the last suspended invocation |
| CoroutineDriver.HostExecContext.StartInvocation | src/utils/TinyCoroutine/Invocation.cpp:113-120 | after carving and pushing, the new coroutine has control above all suspended ones |
| CoroutineDriver.HostExecContext.Reenter | src/utils/TinyCoroutine/Invocation.cpp:132-152 | writes `ra` into the driver frame of the running invocation, suspends exactly this coroutine on top of the others and yields 1 to the context in `mainHostState` |
| CoroutineDriver.HostExecContext.RunCoroutine | src/utils/TinyCoroutine/Invocation.cpp:154-165 | a coroutine runs until it finishes with all its events done and its level gone, or suspends owing exactly the rest |
| CoroutineDriver.HostExecContext.Invoke | src/utils/TinyCoroutine/Invocation.cpp:109-122 | returns 0 with the call's events done and the levels unchanged, or 1 with a reentry that owes exactly the rest of the call |
| CoroutineDriver.HostExecContext.WakeLast | src/utils/TinyCoroutine/Invocation.cpp:124-130 | the last suspended invocation gets control back with its own base, frame and remaining code |
| CoroutineDriver.HostExecContext.Resume | src/utils/TinyCoroutine/Invocation.cpp:124-130 | like Invoke for the suspended rest, through the frame the last invocation still has |
| CoroutineDriver.RunGuest | src/modules/GuestRT/GuestClient.cpp:253-275 | guest code at any nesting depth appends the trace of plain nested calls and leaves `invocationCount` and the levels as they were |
| CoroutineDriver.InvokeFunction | src/modules/GuestRT/GuestClient.cpp:237-316 | the driver loop, with its asserted condition proved at every iteration, does exactly the events of the call and ends with `invocationCount` at its starting value |
| TypeGraph.UniverseIsClosed | src/tools/TLC/Passes/Guard/CallbackSubstituter.cpp:62-85 | the types the walks can meet form a finite set closed under pointee, element and field, so the visited sets bound them |
| TypeGraph.ContainsFunctionPointer | src/tools/TLC/Passes/Guard/CallbackSubstituter.cpp:61-87 | terminates on recursive records and returns true if and only if some walk through pointers, arrays and fields reaches a function type |
| TypeGraph.StripOuter | src/tools/TLC/Passes/Guard/CallbackSubstituter.cpp:66-70 | strips all outer pointers and arrays |
| TypeGraph.PushFieldTypes | src/tools/TLC/Passes/Guard/CallbackSubstituter.cpp:80-84 | pushes exactly the field types |
| CallbackTree.BuildExact | src/tools/TLC/Passes/Guard/CallbackSubstituter.cpp:92-149 | a NoCallbacks tree means no walk to a function; in a HasCallbacks tree the leaves are exactly the walks, each carries the type of the function it arrives at, and each is marshallable |
| CallbackTree.BuildFieldsExact | src/tools/TLC/Passes/Guard/CallbackSubstituter.cpp:117-143 | the same for the fields of a record under a set of types already on the path, callee types included |
| CallbackTree.HasCallbacksHasWalk | src/tools/TLC/Passes/Guard/CallbackSubstituter.cpp:145-148 | a HasCallbacks tree really leads to a function |
| CallbackTree.UnsupportedHasBadWalk | src/tools/TLC/Passes/Guard/CallbackSubstituter.cpp:94-132 | an Unsupported verdict is justified by some walk to a function that is behind a double pointer, an array or a union, or on a cycle |
| CallbackTree.BuildClassifies | src/tools/TLC/Passes/Guard/CallbackSubstituter.cpp:92-149 | NoCallbacks if and only if no function is reachable, Unsupported if and only if some walk to a function cannot be marshalled, otherwise the leaves with their callee types are exactly all walks with the function types they reach |
| CallbackTree.FieldIteration | src/tools/TLC/Passes/Guard/CallbackSubstituter.cpp:117-143 | one iteration of the field loop, appended to what was collected, stands for the remaining recursion |
| CallbackTree.BuildTree | src/tools/TLC/Passes/Guard/CallbackSubstituter.cpp:92-149 | the mutating recursion computes the specified tree and hands the shared visited set back unchanged |
| CallbackTree.CollectFields | src/tools/TLC/Passes/Guard/CallbackSubstituter.cpp:115-148 | the field loop with its insert and erase on the shared visited set computes the specified members |
| CallbackTree.CallbackSubstituterPass.CachedTree | src/tools/TLC/Passes/Guard/CallbackSubstituter.cpp:273-280 | every cached tree is the tree of its type, whatever was asked before |
| CallbackTree.CallbackSubstituterPass.BuildArgumentTree | src/tools/TLC/Passes/Guard/CallbackSubstituter.cpp:256-293 | Unsupported if and only if some aggregate argument is; otherwise every argument is listed once, in order, under exactly the heading it belongs to, out callbacks included; NoCallbacks if and only if nothing is listed |
| CallbackStat.ClosedSetHoldsPath | src/tools/TLC/Commands/Stat.cpp:296-353 | a set of types closed under what the worklist pushes contains everything reachable from its members |
| CallbackStat.ManifestSummary.AddCallbackSignature | include/lorelei/TLCApi/ManifestSummary.h:100-111 | adds the signature and keeps an alias that is already set |
| CallbackStat.CollectCallbackSignatures | src/tools/TLC/Commands/Stat.cpp:268-354 | the summary gains exactly the function-pointer types at which some walk from the seed arrives, through pointers, array elements, members, return types other than void and parameters; each gets its exact alias, nothing else changes, and the worklist terminates on recursive types |
| CallbackStat.NextIsHop | src/tools/TLC/Commands/Stat.cpp:312-352 | what the worklist pushes after a type is exactly what one step of such a walk leads to |
| CallbackStat.StartsMeet | src/tools/TLC/Commands/Stat.cpp:271-294 | from where the worklist starts it meets the same callbacks as walks from the seed, an excluded seed being left by its return type or a parameter |
| CallbackStat.StartStack | src/tools/TLC/Commands/Stat.cpp:271-294 | the walk starts at the seed, or at the signature of a function that is itself no callback |
| CallbackStat.PushNext | src/tools/TLC/Commands/Stat.cpp:318-352 | what is pushed after a type is exactly its successor list |
| CallbackLookup.RecordedMore | src/tools/TLC/Commands/Stat.cpp:268-354 | one more collection keeps the record exact: the callbacks are those that some seed so far meets, each under the first alias that a seed has for it |
| CallbackLookup.CollectFunctionSection | src/tools/TLC/Commands/Stat.cpp:356-387 | adds to its direction exactly the configured functions that exist, to its missing ones the others, leaves the other direction alone, and collects from each function and its overlay in order |
| CallbackLookup.CollectFunction | src/tools/TLC/Commands/Stat.cpp:371-385 | a function and its overlay are both collected from, neither being a callback itself |
| CallbackLookup.CollectCallbackDesc | src/tools/TLC/Commands/Stat.cpp:255-261 | a described callback is collected from under its alias, then its overlay |
| CallbackLookup.CollectCallbackSection | src/tools/TLC/Commands/Stat.cpp:389-425 | every function by name and every typedef listed there is collected from, under its alias |
| CallbackLookup.CollectToken | src/tools/TLC/Commands/Stat.cpp:394-424 | one entry: a function behind an ampersand or a typedef, under its typedef name or a made-up one; an unknown or empty entry does nothing |
| CallbackLookup.Stat | src/tools/TLC/Commands/Stat.cpp:427-431 | a whole run records, per direction, exactly the configured functions that exist and those that do not, and as callbacks exactly the types met from a configured function or its overlay, a described callback or its overlay, or a configured callback, each under the first alias |
| CallbackLookup.SeedsJustify | src/tools/TLC/Commands/Stat.cpp:255-431 | the types recorded are met from something configured or described, and everything so met is recorded |
| CallbackLookup.StatIsClosed | src/tools/TLC/Commands/Stat.cpp:268-354 | the recorded callbacks are closed under their own signatures, cover the real signature of every function found, and contain every overlay |
| CallbackLookup.AliasOfToken | src/tools/TLC/Commands/Stat.cpp:389-425 | a configured typedef ends up under its own name and a configured function under its typedef name or PFN_AUTO_ and its name, unless what stands before it gives that type an alias |
| CallbackLookup.AliasOfDesc | src/tools/TLC/Commands/Stat.cpp:215-261 | a described callback ends up under the alias of its description, or the typedef name known by then, unless an earlier description gives it one |
| CallbackLookup.AliasOnTheWay | src/tools/TLC/Commands/Stat.cpp:296-316 | a callback met only on the way has the name of its typedef, or none |
| CallbackLookup.RealCallbacks | src/tools/TLC/Commands/Stat.cpp:258-261 | the real signature of a callback is that of its overlay, if it has one |
| CallbackLookup.DocumentContext.FilterCallbacks | src/libs/TLCApi/DocumentContext.cpp:462-475 | keeps exactly the bridge aliases whose signature or, failing that, name was requested |
| CallbackLookup.OpenDocument | src/tools/TLC/Commands/Generate.cpp:75-90 | the document generated from a summary offers exactly the recorded callbacks, under their aliases, those without one under different numbered names |
| CallbackLookup.TreeCalleesReached | src/tools/TLC/Passes/Guard/CallbackSubstituter.cpp:117-143 | every callee in a tree, at any depth, is reached by stat's walk from the argument type |
| CallbackLookup.LookupIsReached | src/tools/TLC/Passes/Guard/CallbackSubstituter.cpp:256-293 | everything looked up for an argument list, out callbacks included, is met from the function by a walk of stat |
| CallbackLookup.FunctionLookupsResolve | src/tools/TLC/Passes/Guard/CallbackSubstituter.cpp:340-349 | for every function recorded by stat, every callee type in its argument tree resolves: "callback not found" cannot be reported |
| CallbackLookup.CallbackLookupsResolve | src/tools/TLC/Passes/Guard/CallbackSubstituter.cpp:340-349 | the same for every callback the document offers |
| CallbackLookup.ResolveProc | src/tools/TLC/Passes/Guard/CallbackSubstituter.cpp:340-380 | for one proc, either every callee of its argument tree is resolved to the alias the document gives it, or some callee really has none |
| CallbackLookup.NothingMissing | src/tools/TLC/Passes/Guard/CallbackSubstituter.cpp:340-349 | for a recorded function no argument tree of its real signature has an unresolved callee |
| CallbackLookup.NothingMissingInCallback | src/tools/TLC/Passes/Guard/CallbackSubstituter.cpp:340-349 | the same for every callback the document offers |
| CallbackLookup.StatThenSubstitute | src/tools/TLC/Commands/Generate.cpp:75-90 | stat, the document and the substituter in a row: for every configured function that exists and for every callback the document offers, every lookup of the substituter resolves |
| CallbackReach.LooksUpExactly | src/tools/TLC/Passes/Guard/CallbackSubstituter.cpp:256-293 | what the substituter resolves for an argument list are exactly the types of the functions that some walk from some argument reaches |
| CallbackStubs.StubAddressesDiffer | src/libs/DLCall/Tools/FunctionTrampoline.cpp:43-55 | tables that do not overlap give every stub its own address |
| CallbackStubs.AllocKeepsSound | include/lorelei/ThunkInterface/Detail/Callback.h:53-73 | an allocation keeps every stub's target real and unchanged, and the stub it returns unwraps to its input |
| CallbackStubs.AllocIsInjective | include/lorelei/ThunkInterface/Detail/Callback.h:64-72 | equal inputs get equal stubs and distinct inputs distinct ones, however many allocations lie between |
| CallbackStubs.UnwrapIsStable | include/lorelei/ThunkInterface/Detail/Callback.h:90-100 | what a known pointer unwraps to never changes as tables grow |
| CallbackStubs.UnwrapIsReal | include/lorelei/ThunkInterface/Detail/Callback.h:90-100 | no stub stands for another stub, so unwrapping once is enough |
| CallbackStubs.InitSlotFacts | include/lorelei/ThunkInterface/Detail/Callback.h:115-133 | init keeps the tables sound, leaves in the slot a pointer the receiver can call with the same code behind it, and records a pointer for fini exactly when the slot must be restored |
| CallbackStubs.SentAndHandedBack | include/lorelei/ThunkInterface/Detail/Callback.h:84-133 | a callback wrapped for the other side and handed back any number of calls later, as an argument or through an out argument, arrives as the original pointer |
| CallbackStubs.InitsKeepSound | include/lorelei/ThunkInterface/Detail/Callback.h:53-133 | over any sequence of inits, in which a stub may come back after the call that made it, no stub stands for a stub, no target changes, and each table holds exactly what it held and what was offered to it |
| CallbackStubs.TablesStayWithinCount | include/lorelei/ThunkInterface/Detail/Callback.h:38-71 | over any such sequence from empty tables a table uses exactly as many stubs as distinct callbacks were offered to it |
| CallbackStubs.RoundTripIsKnown | include/lorelei/ThunkInterface/Detail/Callback.h:84-133 | a callback sent across and handed back as its stub is such a sequence, and offers only the original |
| CallbackStubs.FunctionTrampolineTable.constructor | src/libs/DLCall/Tools/FunctionTrampoline.cpp:41-60 | a new table has Count free entries |
| CallbackStubs.ThreadStubs.Scan | include/lorelei/ThunkInterface/Detail/Callback.h:64-70 | the scan stops inside the table, at the entry of the input or else at the first free one |
| CallbackStubs.ThreadStubs.AddTable | include/lorelei/ThunkInterface/Detail/Callback.h:60-63 | a handler's table is created empty on first use |
| CallbackStubs.ThreadStubs.TakeStub | include/lorelei/ThunkInterface/Detail/Callback.h:71-72 | the first free entry becomes the stub of the input, the others stay |
| CallbackStubs.ThreadStubs.AllocCallbackTrampoline | include/lorelei/ThunkInterface/Detail/Callback.h:55-73 | creating the table on first use, scanning and writing computes the allocation on values |
| CallbackStubs.ThreadStubs.UnwrapTrampoline | include/lorelei/ThunkInterface/Detail/Callback.h:90-100 | reads the saved function of a stub and returns any other pointer unchanged |
| CallbackStubs.CallbackContext.Init | include/lorelei/ThunkInterface/Detail/Callback.h:115-133 | slot, tables and record end up as the slot transition says |
| CallbackEmit.ExecInitHitsTargets | src/tools/TLC/Passes/Guard/CallbackSubstituter.cpp:160-185 | running the emitted init navigates to exactly the slots the tree's leaves denote in memory, null pointers skipped, and inits each once, in order |
| CallbackEmit.ExecFiniHitsTargets | src/tools/TLC/Passes/Guard/CallbackSubstituter.cpp:189-208 | the emitted fini visits exactly the same slots |
| CallbackEmit.InitAllFacts | include/lorelei/ThunkInterface/Detail/Callback.h:115-133 | after all inits every pointer still has its original code behind it, other slots are untouched, and each record names its slot and a pointer of the original origin |
| CallbackEmit.FiniAllFacts | include/lorelei/ThunkInterface/Detail/Callback.h:137-141 | after all finis a slot holds what some record for it says, or what the call left when there is none |
| CallbackEmit.TargetPathsDistinct | src/tools/TLC/Passes/Guard/CallbackSubstituter.cpp:152-156 | members repeated at different depths never share a context, because paths of distinct leaves differ |
| CallbackEmit.CallGetsCallables | src/tools/TLC/Passes/Guard/CallbackSubstituter.cpp:158-185 | before the call every callback slot of the tree holds a pointer the receiver can call, through the handler of the last target that shares the slot, with the original code behind it |
| CallbackEmit.CallRestoresCallbacks | src/tools/TLC/Passes/Guard/CallbackSubstituter.cpp:351-380 | with distinct slots, init, any call and fini leave every wrapped callback slot exactly as it was and touch no other function pointer |
| CallbackEmit.SlotIsRestored | include/lorelei/ThunkInterface/Detail/Callback.h:115-141 | a callback slot holds its original pointer after fini if and only if it was not null and either stood for foreign code or was a stub of the receiver's own, or the call left it there |
| CallbackEmit.NullIsNotRestored | include/lorelei/ThunkInterface/Detail/Callback.h:128-141 | a null callback foreign to the receiver that the call overwrites stays overwritten |
| CallbackEmit.CallRestoresOrigins | src/tools/TLC/Passes/Guard/CallbackSubstituter.cpp:351-380 | with slots that may coincide: after init, any call and fini a slot unwraps to the original origin if and only if it was a tree's slot that init recorded, or the call left a pointer of that origin in it |
| CallbackEmit.BuildIsDistinct | src/tools/TLC/Passes/Guard/CallbackSubstituter.cpp:117-143 | the trees that build returns for well-formed records meet the distinctness the restoration needs |
| CallbackEmit.ArgumentTreeIsDistinct | src/tools/TLC/Passes/Guard/CallbackSubstituter.cpp:256-293 | so does the tree of a whole argument list |
| CallbackReach.ArgumentWalks | src/tools/TLC/Passes/Guard/CallbackSubstituter.cpp:256-293 | the leaf walks of the tree under argument i, with their callee types, are exactly the walks from its type to a function of that type |
| CallbackReach.SlotsAreReachableCallbacks | src/tools/TLC/Passes/Guard/CallbackSubstituter.cpp:160-185 | the emitted code visits a slot for a function type if and only if some walk from some argument's type to a function of that type arrives there in memory without meeting null |
| CallbackReach.ReachableCallbacksAreSubstituted | src/tools/TLC/Passes/Guard/CallbackSubstituter.cpp:351-380 | every function pointer reachable from the arguments is, during the call, callable through the handler of its own function type (of one reached there, where walks to several share the slot) with its original code behind it; afterwards it has its old origin, and with distinct slots its old value, exactly when it was recorded and not null or the call left it so |
| CallbackNull.InitIsSafe | src/tools/TLC/Passes/Guard/CallbackSubstituter.cpp:160-185 | the emitted init takes a member of no null object, whatever is in memory |
| CallbackNull.FiniIsSafe | src/tools/TLC/Passes/Guard/CallbackSubstituter.cpp:189-208 | nor does the emitted fini |
| CallbackNull.ExecOutHitsTargets | src/tools/TLC/Passes/Guard/CallbackSubstituter.cpp:396-418 | the emitted out code, which tests nothing, completes if and only if no listed out argument is null, and is then one init per listed argument in order |
| CallbackNull.OutCallbacksHandedBack | src/tools/TLC/Passes/Guard/CallbackSubstituter.cpp:396-418 | when it completes, every out argument an argument tree lists holds a pointer the caller can call, through the handler of the last argument that shares the slot and with the same code behind it |
| CallbackNull.NullOutArgument | src/tools/TLC/Passes/Guard/CallbackSubstituter.cpp:396-418 | a call with null for its one out callback makes the out code dereference null |
| JsonPrinter.DumpStringTo | src/3rdparty/json11/json11.cpp:77-112 | the loop appends exactly the quoted escaping of the string |
| JsonPrinter.DumpByteTo | src/3rdparty/json11/json11.cpp:79-109 | one round appends the escape of one byte, or of the three bytes of U+2028 or U+2029 |
| JsonPrinter.DumpTo | src/3rdparty/json11/json11.cpp:53-142 | any value is appended as its text |
| JsonPrinter.DumpItemsTo | src/3rdparty/json11/json11.cpp:114-124 | the list loop puts separators between items and nowhere else |
| JsonPrinter.DumpMembersTo | src/3rdparty/json11/json11.cpp:126-138 | the same for members |
| JsonRoundTrip.ParseOfDump | src/3rdparty/json11/json11.cpp:732-744 | parsing the dump of a value gives an equal value with the whole text consumed if and only if it is nested at most 200 deep, else the depth error, in both strategies |
| JsonRoundTrip.ValueReads | src/3rdparty/json11/json11.cpp:644-728 | a dumped value standing anywhere in a text, followed by something that cannot extend it, is read back from there |
| JsonRoundTrip.ItemsRead | src/3rdparty/json11/json11.cpp:709-724 | the list loop reads back a dumped list although it steps the cursor back |
| JsonRoundTrip.MembersRead | src/3rdparty/json11/json11.cpp:676-700 | the object loop reads back dumped members in key order |
| JsonRoundTrip.EscapesRead | src/3rdparty/json11/json11.cpp:480-567 | escaped strings are read back byte for byte, for arbitrary bytes |
| JsonRoundTrip.NumberReads | src/3rdparty/json11/json11.cpp:573-622 | a dumped 32-bit int is read back as an equal number, by atoi or by strtod |
| JsonUnicode.EncodeDecodes | src/3rdparty/json11/json11.cpp:455-474 | encode_utf8 writes the well-formed UTF-8 encoding of every scalar value, by the table of section 3 of RFC 3629 |
| JsonUnicode.SurrogatesEncoded | src/3rdparty/json11/json11.cpp:455-474 | a lone surrogate is written as the three bytes of its number |
| JsonUnicode.SpelledReads | src/3rdparty/json11/json11.cpp:511-526 | four hex digits of either case are read as the code point they spell |
| JsonUnicode.OnlySpelledReads | src/3rdparty/json11/json11.cpp:511-526 | whatever is read as four hex digits spells the code point that is read |
| JsonUnicode.LettersRead | src/3rdparty/json11/json11.cpp:551-564 | the one-letter escapes are the eight of section 7 of RFC 8259, with their values |
| JsonUnicode.PairsCoverAstral | src/3rdparty/json11/json11.cpp:530-539 | every code point past U+FFFF is the join of exactly the surrogate pair that section 7 of RFC 8259 gives |
| JsonUnicode.PiecesRead | src/3rdparty/json11/json11.cpp:480-549 | a pending escape never loses or swallows a character, whatever follows it |
| JsonUnicode.EscapedTextParses | src/3rdparty/json11/json11.cpp:480-549 | any mix of characters, the eight short escapes, \u escapes of scalar values in hex digits of either case and surrogate pairs parses to the concatenated UTF-8 |
| JsonParser.JsonParser.SetError | src/3rdparty/json11/json11.cpp:361-371 | only the first error is kept |
| JsonParser.JsonParser.ConsumeWhitespace | src/3rdparty/json11/json11.cpp:377-380 | stops at the first character that is no space |
| JsonParser.JsonParser.ConsumeLine | src/3rdparty/json11/json11.cpp:392-398 | stops at the end of the line or of the input |
| JsonParser.JsonParser.ConsumeComment | src/3rdparty/json11/json11.cpp:386-418 | finds a comment exactly when the grammar does, ends where it ends, and stays inside the input |
| JsonParser.JsonParser.ConsumeBlock | src/3rdparty/json11/json11.cpp:400-413 | a multi-line comment ends behind its first closing mark, or is reported as unclosed |
| JsonParser.JsonParser.ConsumeGarbage | src/3rdparty/json11/json11.cpp:424-435 | skips the maximal run of space and, in COMMENTS, comments |
| JsonParser.JsonParser.GetNextToken | src/3rdparty/json11/json11.cpp:442-449 | the first character behind garbage, or 0 with an error |
| JsonParser.JsonParser.WriteUtf8 | src/3rdparty/json11/json11.cpp:455-474 | appends the encoding of a code point, nothing for a negative one |
| JsonParser.JsonParser.ParseUnicodeEscape | src/3rdparty/json11/json11.cpp:511-546 | one \u escape advances the string loop by one round, joining a pending lead surrogate |
| JsonParser.JsonParser.ParseString | src/3rdparty/json11/json11.cpp:480-567 | reads the string the grammar reads, or reports the grammar's error |
| JsonParser.JsonParser.ParseIntegerPart | src/3rdparty/json11/json11.cpp:579-590 | one zero or a run of digits without a leading zero |
| JsonParser.JsonParser.ParseFraction | src/3rdparty/json11/json11.cpp:597-605 | a dot needs a digit behind it |
| JsonParser.JsonParser.ParseExponent | src/3rdparty/json11/json11.cpp:607-619 | an exponent needs a digit behind its sign |
| JsonParser.JsonParser.ParseNumber | src/3rdparty/json11/json11.cpp:573-622 | reads the number the grammar reads, or reports the grammar's error |
| JsonParser.JsonParser.Expect | src/3rdparty/json11/json11.cpp:629-638 | reads a whole word from the character before the cursor |
| JsonParser.JsonParser.ParseJson | src/3rdparty/json11/json11.cpp:644-728 | terminates on every input, nests at most one call past `max_depth`, keeps the cursor inside the input, keeps an earlier error, and returns the grammar's value or error |
| JsonParser.JsonParser.ParseArray | src/3rdparty/json11/json11.cpp:703-725 | the list loop, which runs on once after a failed token, still returns the grammar's result and the first error |
| JsonParser.JsonParser.ParseObject | src/3rdparty/json11/json11.cpp:670-701 | the same for objects |
| JsonParser.Parse | src/3rdparty/json11/json11.cpp:732-744 | on every input and in both strategies the whole-document result, trailing text and first error included |
| JsonText.AcceptsExactlyTexts | src/3rdparty/json11/json11.cpp:732-744 | in either strategy a document is accepted with value v if and only if it is a text of v by the grammar of RFC 8259 (with comments in COMMENTS) that nests at most 200 deep |
| JsonText.GarbageIsBlank | src/3rdparty/json11/json11.cpp:424-435 | what is skipped between tokens is white space and whole comments, and stops where neither can begin |
| JsonText.BlankPassed | src/3rdparty/json11/json11.cpp:424-435 | any run of white space and comments is skipped |
| JsonText.EscapeFound | src/3rdparty/json11/json11.cpp:511-526 | every \u escape of the grammar is found, with its code point |
| JsonErrors.ErrorsAreExplained | src/3rdparty/json11/json11.cpp:361-371 | a text that is refused is none, and the error reported is explained by characters of it: the character complained of is there and out of place, a comment or string is unclosed, more than 200 containers are opened |
| JsonLaws.DumpIsText | src/3rdparty/json11/json11.cpp:53-142 | what dump writes is a text of RFC 8259 of an equal value |
| JsonLaws.EscapeTable | src/3rdparty/json11/json11.cpp:77-112 | which escape dump writes for every byte, U+2028 and U+2029 included |
| JsonLaws.CollectedIsLast | src/3rdparty/json11/json11.cpp:676-700 | the object read from a text holds under each key the last value written for it, keys in ascending order |
| JsonLaws.InsertUpdates | src/3rdparty/json11/json11.cpp:689-689 | setting a key changes that key and no other |
| JsonLaws.LessByFirstDifference | src/3rdparty/json11/json11.cpp:126-138 | keys are ordered by their first difference as unsigned bytes, a prefix first |
| JsonLaws.SameScalars | src/3rdparty/json11/json11.cpp:162-309 | scalars are equal by kind and value, numbers by value however they are held |
| JsonLaws.SameLists | src/3rdparty/json11/json11.cpp:302-309 | lists are equal item by item |
| JsonLaws.SameObjects | src/3rdparty/json11/json11.cpp:302-309 | objects are equal key by key and value by value |
| JsonText.ValueWritten | src/3rdparty/json11/json11.cpp:644-728 | whatever value the parser returns, the text it has passed is spaces and then a text of that value, within the depth left |
| JsonText.ValueReadable | src/3rdparty/json11/json11.cpp:644-728 | every text of a value, with spaces in front and nothing behind that extends it, is read as that value |
| JsonText.MembersReadable | src/3rdparty/json11/json11.cpp:676-700 | members are collected in the order of the text, the last of a key counting |
| JsonText.NumberReadable | src/3rdparty/json11/json11.cpp:573-622 | every numeral of section 6 of RFC 8259 is read to its end |
| JsonText.NumberWritten | src/3rdparty/json11/json11.cpp:573-622 | what is read as a number is such a numeral |
| JsonText.StringReadable | src/3rdparty/json11/json11.cpp:480-567 | writing each code point one symbol late gives the text that looking ahead for surrogate pairs gives, lone surrogates included |
| JsonText.StringWritten | src/3rdparty/json11/json11.cpp:480-567 | a string that is read stands before its closing quote |
| VarSizeArray.PushesAreAmortised | include/lorelei/Support/VarSizeArray.h:331-339 | for any inline capacity, n push_backs from empty relocate at most 2n elements |
| VarSizeArray.CreditCovers | include/lorelei/Support/VarSizeArray.h:331-372 | the credit argument from any size and capacity |
| VarSizeArray.VarSizeArrayBase.constructor | include/lorelei/Support/VarSizeArray.h:285-290 | an empty array owns its inline buffer and no live one |
| VarSizeArray.NewCapacity | include/lorelei/Support/VarSizeArray.h:331-339 | at least the minimum and twice the old capacity, and no more than the largest of these and 4 |
| VarSizeArray.Heap.Allocate | include/lorelei/Support/VarSizeArray.h:349-351 | a fresh buffer of raw slots, live and owned |
| VarSizeArray.Heap.Deallocate | include/lorelei/Support/VarSizeArray.h:278-282 | only a live buffer without objects can be freed, and then it is no longer live |
| VarSizeArray.Read | include/lorelei/Support/VarSizeArray.h:125-132 | an element argument gives its value only while its slot still holds an object; a moved-from slot keeps a husk |
| VarSizeArray.VarSizeArrayBase.RelocateTo | include/lorelei/Support/VarSizeArray.h:341-346 | all elements move over in order and every old slot is destroyed |
| VarSizeArray.VarSizeArrayBase.Grow | include/lorelei/Support/VarSizeArray.h:349-357 | same elements in a fresh larger buffer; the old heap buffer is freed once, the inline one never |
| VarSizeArray.VarSizeArrayBase.Reserve | include/lorelei/Support/VarSizeArray.h:67-70 | same elements with room for n, and nothing happens when there is room already |
| VarSizeArray.VarSizeArrayBase.ConstructAndRelocate | include/lorelei/Support/VarSizeArray.h:362-366 | constructing the new element before relocating leaves old elements and new value in order in the new buffer |
| VarSizeArray.VarSizeArrayBase.Adopt | include/lorelei/Support/VarSizeArray.h:367-371 | the old buffer is freed exactly when it is on the heap |
| VarSizeArray.VarSizeArrayBase.GrowAndEmplaceBack | include/lorelei/Support/VarSizeArray.h:362-372 | appends the value that the argument had, even when it refers to an element of the old buffer |
| VarSizeArray.VarSizeArrayBase.EmplaceBack | include/lorelei/Support/VarSizeArray.h:126-134 | appends the argument's value, an element moved from leaving a husk, with the exact relocation count |
| VarSizeArray.VarSizeArrayBase.Append | include/lorelei/Support/VarSizeArray.h:137-140 | appends all values, relocating exactly as much as the cost function says |
| VarSizeArray.VarSizeArrayBase.Insert | include/lorelei/Support/VarSizeArray.h:148-159 | inserts before the index the value the argument had before the call |
| VarSizeArray.VarSizeArrayBase.InsertCount | include/lorelei/Support/VarSizeArray.h:161-171 | inserts count copies of the value the argument had, even if it lives in the array |
| VarSizeArray.VarSizeArrayBase.FillTo | include/lorelei/Support/VarSizeArray.h:167-168 | appends copies one by one, every intermediate state valid |
| VarSizeArray.VarSizeArrayBase.InsertRange | include/lorelei/Support/VarSizeArray.h:174-180 | inserts the values in order |
| VarSizeArray.VarSizeArrayBase.PopBack | include/lorelei/Support/VarSizeArray.h:188-191 | drops and destroys the last element |
| VarSizeArray.ShiftDown | include/lorelei/Support/VarSizeArray.h:193-206 | moving elements down in place keeps their order and leaves objects in every slot |
| VarSizeArray.VarSizeArrayBase.Erase | include/lorelei/Support/VarSizeArray.h:193-198 | removes the element at the index, the others keep their order |
| VarSizeArray.VarSizeArrayBase.EraseRange | include/lorelei/Support/VarSizeArray.h:200-211 | removes the range, possibly empty |
| VarSizeArray.VarSizeArrayBase.Clear | include/lorelei/Support/VarSizeArray.h:213-216 | destroys every element |
| VarSizeArray.VarSizeArrayBase.Resize | include/lorelei/Support/VarSizeArray.h:218-237 | cuts to n or fills up to n with copies |
| VarSizeArray.VarSizeArrayBase.Swap | include/lorelei/Support/VarSizeArray.h:244-273 | contents change places in every combination of inline and heap; two heap buffers are traded without touching an element |
| VarSizeArray.VarSizeArrayBase.TradeBuffers | include/lorelei/Support/VarSizeArray.h:248-253 | two heap buffers change owners as they are |
| VarSizeArray.VarSizeArrayBase.GiveTail | include/lorelei/Support/VarSizeArray.h:263-266 | the longer array's tail is constructed behind the shorter one's elements |
| VarSizeArray.VarSizeArrayBase.SwapElements | include/lorelei/Support/VarSizeArray.h:257-272 | the mixed-mode exchange of shared elements and tail |
| VarSizeArray.VarSizeArrayBase.Assign | include/lorelei/Support/VarSizeArray.h:292-299 | a copy, with the source untouched, self-assignment included |
| VarSizeArray.VarSizeArrayBase.AssignMove | include/lorelei/Support/VarSizeArray.h:301-318 | takes the contents and leaves the source empty; a heap buffer is stolen as it is |
| VarSizeArray.VarSizeArrayBase.Steal | include/lorelei/Support/VarSizeArray.h:305-312 | the buffer changes owner with its elements and the source is empty and inline |
| VarSizeArray.VarSizeArrayBase.TakeElements | include/lorelei/Support/VarSizeArray.h:313-317 | inline elements are moved one by one and the source is cleared |
| VarSizeArray.VarSizeArrayBase.Destruct | include/lorelei/Support/VarSizeArray.h:278-282 | destroys every element, frees the heap buffer if there is one, and owns nothing afterwards |
| VarSizeArray.VarSizeArrayBase.ResetToInline | include/lorelei/Support/VarSizeArray.h:375-383 | empty and inline, the heap buffer freed |
| VarSizeArray.VarSizeArrayBase.BuffersApart | include/lorelei/Support/VarSizeArray.h:387-391 | two valid arrays never share a buffer |
| VarSizeArray.VarSizeArrayBase.BystanderKept | include/lorelei/Support/VarSizeArray.h:126-383 | an operation on one array leaves every other array valid with its contents |
| VarExp.SplitIsLossless | src/libs/Support/StringExtras.cpp:37-103 | rejoining the parts of any template that splits gives the template back |
| VarExp.NamesSplit | src/libs/Support/StringExtras.cpp:52-80 | a name inside a template that splits always splits itself, so only the outermost template can be unbalanced |
| VarExp.DoublingEscapes | src/libs/Support/StringExtras.cpp:82-120 | any string with every dollar doubled expands to itself under any lookup |
| VarExp.PlainTextExpands | src/libs/Support/StringExtras.cpp:325-348 | text without a dollar expands to itself |
| VarExp.TemplatesExpand | src/libs/Support/StringExtras.cpp:322-348 | a template of escaped text, text with lone dollars, simple names and names that are templates themselves expands to the text and the values found if and only if no run of dollars holds two that are written once |
| VarExp.EveryTemplate | src/libs/Support/StringExtras.cpp:37-103 | every string that splits is such a template, so the condition covers all of them |
| VarExp.SplitsExactly | src/libs/Support/StringExtras.cpp:37-103 | a string splits if and only if it is such a template, and any other one expands to nothing |
| VarExp.UnclosedExpandsToNothing | src/libs/Support/StringExtras.cpp:325-329 | a template with an opening behind which no stretch has more closing braces than openings expands to nothing |
| VarExp.CloseCounts | src/libs/Support/StringExtras.cpp:49-66 | the scan for the closing brace stops where closing braces have caught up with openings for the first time |
| VarExp.NestedTemplatesExpand | src/libs/Support/StringExtras.cpp:322-348 | where the names at every depth meet that condition, the values found are the ones meant, and the template expands to its meaning if and only if it meets the condition itself |
| VarExp.NamesAreMeant | src/libs/Support/StringExtras.cpp:338-342 | names that meet the condition are looked up as they are meant, at any depth |
| VarExp.ValuesCollapse | src/libs/Support/StringExtras.cpp:347-347 | a value of two dollars comes out as one |
| VarExp.NamesCollapse | src/libs/Support/StringExtras.cpp:338-342 | a nested name whose value is two dollars is looked up as one |
| VarExp.PostExact | src/libs/Support/StringExtras.cpp:108-120 | when collapsing gives back what was meant, as an if and only if over marked characters |
| VarExp.SplitsWithin | src/libs/Support/StringExtras.cpp:52-66 | any tail of what stands before a closing brace splits |
| VarExp.FindClose | src/libs/Support/StringExtras.cpp:49-66 | finds the balancing brace if there is one, and flags exactly the names that hold an opening |
| VarExp.VarexpSplit | src/libs/Support/StringExtras.cpp:37-103 | the loop over buf, i and j computes the parts, or fails exactly on unbalanced templates |
| VarExp.VarexpPost | src/libs/Support/StringExtras.cpp:108-120 | the loop collapses pairs from the left |
| VarExp.Varexp | src/libs/Support/StringExtras.cpp:325-348 | expansion terminates, nested names included, and is empty for a string that is no template |
| ThunkEntries.ForwardOf | src/libs/DLCall/ThunkDatabase.cpp:121-177 | an entry is made only from a non-empty name, which is what its name field shows up to a NUL |
| ThunkEntries.ShorthandIsBareName | src/libs/DLCall/ThunkDatabase.cpp:122-130 | the shorthand item means the same as an object with nothing but that name |
| ThunkEntries.WrittenOutEntry | src/libs/DLCall/ThunkDatabase.cpp:132-176 | an object that spells out every path gives exactly those paths, whatever the variables |
| ThunkWritten.WrittenOutReversed | src/libs/DLCall/ThunkDatabase.cpp:180-207 | an object with a name, a file name and lists of aliases and thunks gives exactly the entry with those four |
| ThunkWritten.WrittenOutForward | src/libs/DLCall/ThunkDatabase.cpp:132-176 | an object that writes out a forward entry gives exactly that entry, its paths expanded by the variables |
| ThunkWritten.LeftOutPaths | src/libs/DLCall/ThunkDatabase.cpp:138-172 | paths that are left out lie in the default directories under the name, and there is no entry without a default |
| ThunkWritten.CompleteForwards | src/libs/DLCall/ThunkDatabase.cpp:132-172 | an object gives a forward entry if and only if its name is a text and each path is one or, where there is a default, left out |
| ThunkWritten.CompleteReverseds | src/libs/DLCall/ThunkDatabase.cpp:186-193 | an object gives a reversed entry if and only if its name and file name are texts |
| ThunkWritten.StringsCollected | src/libs/DLCall/ThunkDatabase.cpp:34-47 | of an array the non-empty strings count, in order, and nothing else |
| ThunkWritten.LoadAndFindReversed | src/libs/DLCall/ThunkDatabase.cpp:180-227 | after a document is loaded, a reversed lookup answers with the first entry written in it whose name or alias is asked for, exactly as written |
| ThunkWritten.LoadAndFindForward | src/libs/DLCall/ThunkDatabase.cpp:119-227 | the same of forward thunks, for a document with distinct names |
| ThunkEntries.LayeredShape | src/libs/DLCall/ThunkDatabase.cpp:64-85 | layering keeps keys unique and in place, adds only keys of the new document at the end, and without overwrite changes nothing before them |
| ThunkEntries.OverwritingLoadKeepsTheLast | src/libs/DLCall/ThunkDatabase.cpp:64-85 | in a top-level load the last entry of a name is stored |
| ThunkEntries.PackKeepsTheFirst | src/libs/DLCall/ThunkDatabase.cpp:229-242 | in a layered thunk pack what is there wins, then its own first entry of the name |
| ThunkEntries.LayeredKeys | src/libs/DLCall/ThunkDatabase.cpp:64-85 | whichever entries win, the keys after layering are exactly those before and those of the document |
| ThunkEntries.FirstMatchStays | src/libs/DLCall/ThunkDatabase.cpp:244-258 | entries added at the end never change what a name or alias resolves to |
| ThunkEntries.NamesAreUnique | src/libs/DLCall/ThunkDatabase.cpp:69-84 | layering a document keeps names unique if and only if no two different keys, among those there and those of the document, agree up to their first NUL |
| ThunkEntries.PlainNamesAreUnique | src/libs/DLCall/ThunkDatabase.cpp:69-84 | without a NUL in any name the names stay unique |
| ThunkEntries.NamesMayClash | src/libs/DLCall/ThunkDatabase.cpp:69-84 | a document with two names that differ behind a NUL gives two entries of one name |
| ThunkDatabase.ThunkDatabase.KeysAreUnique | src/libs/DLCall/ThunkDatabase.cpp:64-85 | the forward index being the inverse of the keys makes them unique |
| ThunkDatabase.ThunkDatabase.UpsertForward | src/libs/DLCall/ThunkDatabase.cpp:64-85 | keeps, replaces in place or appends, with the index kept in step |
| ThunkDatabase.ThunkDatabase.LoadForwards | src/libs/DLCall/ThunkDatabase.cpp:119-178 | the loop layers exactly the complete items of the document |
| ThunkDatabase.ThunkDatabase.LoadReverseds | src/libs/DLCall/ThunkDatabase.cpp:180-209 | the loop appends the complete items, in a pack only those the index did not resolve before |
| ThunkDatabase.ThunkDatabase.LoadJsonDatabase | src/libs/DLCall/ThunkDatabase.cpp:87-212 | a file that is missing, malformed or no object changes nothing and reports false |
| ThunkDatabase.ThunkDatabase.Load | src/libs/DLCall/ThunkDatabase.cpp:214-227 | the document becomes the whole database, both indexes agree with a scan |
| ThunkDatabase.ThunkDatabase.LoadPack | src/libs/DLCall/ThunkDatabase.cpp:229-242 | a thunk pack goes under what is there, with its own directories as defaults |
| ThunkDatabase.ThunkDatabase.RebuildIndexes | src/libs/DLCall/ThunkDatabase.cpp:244-258 | both indexes map every name and alias to its first entry in list order, and nothing else |
| ThunkDatabase.IndexEntries | src/libs/DLCall/ThunkDatabase.cpp:247-255 | emplacing names and aliases in order yields the first match of each |
| ThunkDatabase.AddNames | src/libs/DLCall/ThunkDatabase.cpp:248-254 | one entry adds its name and aliases where they are not resolved yet |
| ThunkDatabase.ThunkDatabase.FindForward | include/lorelei/DLCall/ThunkDatabase.h:86-88 | the hash lookup equals a linear scan |
| ThunkDatabase.ThunkDatabase.FindReversed | include/lorelei/DLCall/ThunkDatabase.h:90-92 | the same for reversed thunks, first match only |
| ThunkDatabase.HostServer.constructor | src/modules/HostRT/HostServer.cpp:112-127 | the initial layers are those of the override document, or none |
| ThunkDatabase.HostServer.GetThunkInfo | src/modules/HostRT/HostServer.cpp:129-142 | the state changes as discovery says and the answer is the lookup in the state after |
| ThunkDatabase.HostServer.ResolveForwardThunk | src/modules/HostRT/HostServer.cpp:144-173 | a hit changes nothing; a miss in a pack's directory layers that pack's JSON once, and looks again |
| ThunkDatabase.ResolvedNamesStay | src/modules/HostRT/HostServer.cpp:129-173 | over every sequence of requests a name that resolves, forward or reversed, keeps its entry, lists only grow, and forward keys stay unique |
| ThunkDatabase.AnswersStay | src/modules/HostRT/HostServer.cpp:129-173 | the same request later gets the same answer unless it had none |
| ThunkDatabase.NamesStayUnique | src/modules/HostRT/HostServer.cpp:112-173 | after a load and any sequence of requests the names are unique if and only if no two different names, in the document and in the packs layered on the way, agree up to their first NUL |
| ThunkDatabase.PackShorthand | src/libs/DLCall/ThunkDatabase.cpp:233-239 | a bare name in the JSON of a thunk pack stands for the thunks in its own directories, whatever the variables say |
| ThunkDatabase.PackLayout | src/modules/HostRT/HostServer.cpp:155-165 | the standard layout of a thunk pack leads back to its prefix, any other directory to none |
| ThunkDatabase.PackIsLayeredOnce | src/modules/HostRT/HostServer.cpp:163-173 | in no run is a pack prefix layered a second time |
| ThunkDatabase.PackIsLayered | src/modules/HostRT/HostServer.cpp:144-173 | a miss from a thunk in the standard layout of a new pack layers that pack: what is there stays, of its own entries the first of a name is stored, and of its reversed ones those not resolved before are added |
| ThunkDatabase.NothingDiscovered | src/modules/HostRT/HostServer.cpp:129-150 | with discovery switched off, and by reverse requests in any case, no run changes anything |
| ThunkDatabase.PackOfPath | src/modules/HostRT/HostServer.cpp:155-163 | which prefix any path leads to, short and absolute ones included |
| PrintfFormat.ParsedShowsBack | src/3rdparty/printf/printf.c:561-824 | every complete format is the text of the directives it is read as |
| PrintfFormat.ShownIsParsed | src/3rdparty/printf/printf.c:561-824 | a format written from standard directives is read as those directives |
| PrintfFormat.DirectiveRead | src/3rdparty/printf/printf.c:575-657 | flags, width, precision, length and specifier are each read as written, whatever follows |
| PrintfArgs.Boxed | include/lorelei/DLCall/Tools/VariadicArgDefs.h:34-51 | an argument survives boxing if and only if it was captured for scanf, is no unsigned long, or fits into 32 bits |
| PrintfArgs.UnsignedLongIsCut | include/lorelei/DLCall/Tools/VariadicArgDefs.h:34-51 | the argument 2^32 of `%lu` is boxed as 0 for printf, and kept for scanf |
| PrintfArgs.Extractor.Box | src/3rdparty/printf/va_type.h:86-95 | takes the next argument and appends its entry |
| PrintfArgs.Extractor.EvaluateFlags | src/3rdparty/printf/printf.c:575-586 | skips exactly the flag characters |
| PrintfArgs.Extractor.Atoi | src/3rdparty/printf/printf.c:162-170 | skips exactly the run of digits and returns its value modulo 2^32 |
| PrintfArgs.Extractor.EvaluateWidth | src/3rdparty/printf/printf.c:588-603 | reads digits, or boxes one int for a star; the width is the number, or the absolute value of the int |
| PrintfArgs.Extractor.EvaluatePrecision | src/3rdparty/printf/printf.c:605-618 | the same behind a dot, where a negative int gives 0 |
| PrintfArgs.FieldValues | src/3rdparty/printf/printf.c:588-618 | a star counts without its sign as a width and as nothing when negative as a precision, digits count modulo 2^32, and the scanf variant takes a star for zero |
| PrintfArgs.Extractor.EvaluateLength | src/3rdparty/printf/printf.c:620-654 | reads the longest length modifier and sets its flags |
| PrintfArgs.Extractor.EvaluateSpecifier | src/3rdparty/printf/printf.c:656-823 | boxes the type that length and specifier ask for, if any |
| PrintfArgs.Extractor.EvaluateDirective | src/3rdparty/printf/printf.c:570-823 | boxes exactly the arguments of the directive and stops behind it |
| PrintfArgs.Extractor.Vsnprintf | src/3rdparty/printf/printf.c:551-838 | for every complete format and all argument values, boxes exactly the format's arguments in order, then one Void entry, and writes nothing behind it |
| PrintfArgs.CountEntries | include/lorelei/DLCall/Tools/VariadicArgDefs.h:53-59 | counts up to the sentinel |
| PrintfArgs.NoVoidArgument | src/3rdparty/printf/va_type.h:86-180 | no boxed argument looks like the sentinel |
| PrintfArgs.Extract | src/libs/DLCall/Tools/VariadicAdaptor.cpp:123-162 | printf style gives the typed entries, scanf style the same number all tagged Pointer, any other style -1 with nothing written; entry k has the value of argument k exactly under the condition of `PrintfArgs.Boxed` |
| PrintfArgs.StandardFormatTakes | src/libs/DLCall/Tools/VariadicAdaptor.cpp:123-150 | a format written from standard directives takes exactly the arguments these directives list |
| PrintfStandard.SpecTable | src/3rdparty/printf/printf.c:656-823 | for every length modifier and specifier the type boxed is that of the table in section 7.21.6.1 of ISO/IEC 9899:2011, and any other specifier takes nothing |
| PrintfStandard.TakesIsTaken | src/3rdparty/printf/printf.c:561-824 | of a format by the rules of the C standard the extractor takes exactly the arguments the standard says, stars included, in order |
| PrintfStandard.ExtractStandard | src/libs/DLCall/Tools/VariadicAdaptor.cpp:123-162 | on such a format printf style gives each argument under the tag of its C type with its value, of an unsigned long the low 32 bits, and scanf style each as a pointer |
| PrintfStandard.UnsupportedTakeNothing | src/3rdparty/printf/printf.c:656-823 | the standard's `%a`, `%A` and `%n` take no argument here |

## Left out

- Assembly (`coroutine_start`, `coroutine_switch`, the trampoline shim), mmap, the QEMU plugin and foreign calls: taken as steps that save into one register block and load the other.
- That each host coroutine stays below its base and above the invocation array is a premise (`GuestFits`, `HostFits`), as is that the entry frame holds the saved registers (`Layout.Valid`), whatever their size on the host.
- Thread creation and thread exit inside a reentry: an exit ends the thread with invocations still stacked, and the create handshake relies on no spurious wakeup.
- The alternative build with `LORE_USE_EMU_TASK_ENTRY`, and flushing stdio after a completed invocation.
- The text and names of emitted C++ code: code is a statement list, a name is the path it is joined from, and members of a tree are emitted in declaration order rather than in name order.
- CallbackTree.BuildExact: the members of a tree are a list here and a map by name in the source, which agree for records with distinct member names only; anonymous struct and union members all have the empty name there, and `emplace` drops every one behind the first, so a record with two of them is not covered.
- Type strings are taken to be injective on canonical types; qualifiers and the merging of `va_list` spellings are not modelled.
- JsonErrors.ErrorsAreExplained: of an unexpected end of input only the refusal is explained, not where more was due.
- Origin strings of `stat`: only whether a type is the seed itself is kept.
- The stub table has no bounds check; at most Count distinct callbacks per table is a premise, and no foreign address carries the magic word.
- The emitted code's memory keeps function pointers and object pointers in separate maps, so a callback slot never overlaps a navigation pointer.
- JSON doubles: integer literals are exact up to 2^53, other doubles keep their literal; dumping doubles, `parse_multi`, `has_shape` and accessors are not modelled.
- The words of json11's error messages: an error is a constructor with the characters it mentions.
- VarSizeArray: allocator failure, size overflow, range insert from the array's own iterators, `resize(n, v)` with an aliased v, and exceptions thrown by element operations.
- VarSizeArray.VarSizeArrayBase.Rotate: `std::rotate` is modelled by its result, not by its sequence of swaps.
- `format`, `join`, `split` and path conversions of StringExtras.
- ThunkDatabase.ThunkDatabase.LoadJsonDatabase: reading and decoding the file is not part of it; the parsed document is its input.
- ThunkDatabase.HostServer.ResolveForwardThunk: deriving the thunk name from a path and normalising a prefix are inputs, as is what the file system holds; locking is left out.
- The string arena behind the entries: entries hold their C strings by value.
- printf output, padding, and reading the characters of a `%s` argument; agreement with the scanf grammar (`%*d`, `%[...]`, `%n`); a directive cut off by the end of the string is outside the precondition.
- `callFormatBox64` and the ffcall adaptor behind it.
- ConfigFile, RewriteRangePackerSet, logging, source line lists, command-line mains and scripts.
