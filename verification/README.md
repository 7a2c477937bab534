# A verified model of the safe wlroots layer

This project models, in Dafny, the self-contained machines of the Rust layer over wlroots whose correctness the rest
of the crates leans on, and proves what each of them promises. wlroots, libwayland and the compositor's handlers are
the environment: a handler may do anything its types allow, and what wlroots asserts is a precondition of the call
that reaches it. `dafny verify dfyconfig.toml` checks everything.

- **Reentrancy** (`ThreadGuards`, `Causation`, `Causes`, `Dispatch`). Handlers re-enter `emit`; inner events are
  queued. A handler's behaviour is a finite script (cause an event, enter a foreign frame, try to drive the loop, try to
  flush), so a run is a forest of causes. `emit` delivers level order, never nests two deliveries, and loses nothing;
  the thread-local flags say exactly what is on the stack, for every nesting of guards.
- **Owned handles** (`OwnedHandles`, `Teardown`, `TeardownCode`, `TeardownSafety`, `TeardownRuns`, `TeardownDelivery`,
  `TeardownTheorems`). Groups, workspaces and foreign toplevels whose manager may die first. `Teardown` is the machine
  as functions on states with a fault flag, over a call stack of the thread's guards and wlroots' emissions;
  `TeardownCode` is the code, step by step over mutable state, recording whether wlroots' demands are met, proved to do
  what the machine says; `TeardownSafety` and `TeardownRuns` prove exactly which runs are free of faults;
  `TeardownDelivery` derives the delivery flag from the guards; `TeardownTheorems` reads the promises off.
  `OwnedHandles` is the shared handle on the heap, with the signal that emits while its listeners unlink themselves.
- **Intrusive list** (`WlList`, `WorkspaceRequests`). libwayland's circular list on the heap, the cursor-ahead iterator
  under a client that unlinks what it was given, and the copy of a batch of requests.
- **Coverage ledger** (`Text`, `Ledger`, `LedgerText`, `LedgerEntries`, `SysUses`, `Bindings`, `BindingsText`,
  `Sorting`, `Groups`, `Reconcile`, `SourceScan`). The strict reader and its round trip with the grammar, the scan for
  `sys::` uses with nested braces, the extraction of bound symbols, the reconciliation as a partition check, and the
  longest-prefix table.
- **Buffers** (`Extents`, `Buffers`). How much of a mapping is provably part of the image, in machine arithmetic, and
  the bracket that wlroots aborts on if it is opened twice.
- **Identity** (`Identity`, `IdentityRuns`). The counter behind every id, the addons that carry ids, and what a queued
  id resolves to after its object died and its address was reused.
- **Build walks** (`Trees`, `Walks`, `SourceScan`, `IncludeArgs`). Two explicit-stack walks over a finite tree against
  the chains of directories that lead to its leaves, and the order-preserving removal of duplicate include arguments.

## Where a promise has a boundary

Some statements of the code's documentation hold only under a condition. The model keeps the code as it is, gives the
run that breaks the statement, and proves the exact condition.

- `in_handler_frame` restores the thread flags but clears `in_dispatch`. Entered under a delivery of its own
  dispatcher it reopens `emit`, and a second `&mut S` appears. There is never a second one if and only if the frame is
  entered only while its dispatcher is not dispatching (`NeverAliasedIffGuarded`).
- The drain of deferred toplevels asks whether the runtime's present manager is alive, not whether it is the manager of
  the queued objects. After a manager is re-created with a queue left over, the drain destroys objects whose manager is
  gone. A run is free of faults if and only if every drain finds a queue without such objects and every toplevel
  dropped under its own emission finds the delivery flag up (`FaultFreeIff`). A queue is left over when a toplevel is
  dropped in the last `should_stop` of a run (`StaleQueueIsReachable`). Re-creating only over empty queues is enough
  (`TidyRunsAreSafe`) and not necessary (`UntidyRunsCanBeSafe`).
- The delivery flag is up under every request emission that consumer code can see if and only if no callback that is
  not a delivery is made from inside such an emission with no handler on the stack (`FlagIffForeignContract`).
  That contract is the environment's, and it is needed (`BareCallbackCanFault`).
- A run's dispatcher is made for the run, and what `should_stop` causes waits for the next event of wlroots. A run
  delivers everything if and only if every `should_stop` that causes something is followed by a turn in which wlroots
  emits (`RunDeliversAllIff`); one quiet turn whose `should_stop` causes an event is enough to lose it
  (`LastQueryIsLost`).
- The extent of a mapping counts half a block for the odd pixel of a sub-sampled row, as the code's comment says: the
  last block of such a row reaches past the extent (`PixelsFit`).
- Ids are documented as never reused. The counter wraps, so that holds for exactly 2^64 draws
  (`SafeIffWithinTheWord`).
- The documentation of `dangling_test_id` asks for `n >= 1` to stay clear of `u64::MAX`; every multiple of 2^32 lands
  on it (`DanglingBand`). The band is free of issued ids exactly while fewer than 2^64 - 2^32 were drawn.
- `GROUPS` says rows may be added in any order. That is so exactly when no prefix is given two areas
  (`OrderIrrelevantIffConsistent`).

## Model

| member | source | states |
|---|---|---|
| ThreadGuards.FlagsMirrorStack | crates/wlr/src/dispatch.rs:777-864 | After every sequence of entering and leaving handler guards, foreign frames and display pins over any number of dispatchers: `IN_HANDLER` iff a handler guard or foreign frame is on the stack, `IN_DELIVERY` iff a handler guard is, `FOREIGN_FRAMES` is their number, `CURRENT_DISPLAY` the innermost pinned display |
| ThreadGuards.RefusedExactlyUnderConsumerCode | crates/wlr/src/display.rs:268-271 | In every such state a loop turn and a client flush are refused exactly when a handler guard or foreign frame is on the stack |
| ThreadGuards.GuardedRunIsExclusive | crates/wlr/src/dispatch.rs:939-952 | While `in_handler_frame` is entered only when its dispatcher is idle, each dispatcher has one holder of its state if its flag is set and none otherwise |
| ThreadGuards.NeverAliasedIffGuarded | crates/wlr/src/dispatch.rs:898-901 | No moment of a run has two live `&mut S` of one dispatcher, if and only if every `in_handler_frame` of the run found its dispatcher idle |
| ThreadGuards.FrameUnderDeliveryReopensEmit | crates/wlr/src/dispatch.rs:790-796 | A frame entered under its own dispatcher's delivery leaves the flag clear with that delivery still running, and the next `emit` makes a second holder |
| Causation.DrainedIsLevelOrder | crates/wlr/src/dispatch.rs:958-968 | Popping the front and appending its children delivers the forest generation by generation, whatever the queue |
| Causation.PopShrinks | crates/wlr/src/dispatch.rs:958-968 | Each round of the drain loop lowers the number of events in the queued forest by one, so the loop ends |
| Causation.DeferralConserves | crates/wlr/src/dispatch.rs:939-970 | What deferral delivers is, as a multiset, what delivering every event inside its cause would deliver |
| Causes.DeliveredIffCaused | crates/wlr/src/dispatch.rs:939-970 | The queue delivers the event at the end of every chain of causes that starts from it, through scripts and foreign frames, once each, and no other |
| Causes.ChainsOf | crates/wlr/src/dispatch.rs:939-970 | So does delivery of every event inside its cause |
| Dispatch.FlatNeverNests | crates/wlr/src/dispatch.rs:941-952 | In a flat trace the number of running deliveries alternates between none and one: at most one is running at any point |
| Dispatch.Dispatcher.Emit | crates/wlr/src/dispatch.rs:939-970 | Under a handler of its dispatcher it queues and does nothing else; otherwise it delivers the event and then level order over leftovers followed by its children, as a flat trace, empties the queue and leaves every flag as it was; what was emitted stays what was delivered and what is queued, in that order |
| Dispatch.Dispatcher.Drain | crates/wlr/src/dispatch.rs:958-968 | Delivers exactly what the queue reference delivers, one delivery after the other, and ends with an empty queue; in every round of the loop the events emitted so far are those delivered followed by those queued |
| Dispatch.Dispatcher.RunScript | crates/wlr/src/dispatch.rs:939-943 | Whatever a handler does delivers nothing, drives no loop and flushes nobody; the events it causes join the queue in order, and exactly those are added to what was emitted |
| Dispatch.Dispatcher.DispatchLoop | crates/wlr/src/display.rs:268-300 | Under a handler refused with nothing changed; otherwise one turn whose deliveries are level order, event by event, and an error exactly when libwayland returns a negative number |
| Dispatch.ThreadLocals.Flush | crates/wlr/src/display.rs:117-134 | Reaches libwayland exactly when no handler is running |
| Dispatch.Dispatcher.InHandlerFrame | crates/wlr/src/dispatch.rs:898-901 | Queues what its body causes, delivers nothing, and leaves the dispatcher's flag clear |
| Dispatch.RunAll | crates/wlr/src/backend.rs:2150-2425 | Refused, with nothing changed, for a dead backend, under a handler or inside a run; otherwise it takes the first turns up to the limit, the stop answer, a failed poll or a dead backend, whichever comes first, returns what the last of them says, polls and flushes once for each, restores the pinned display, and a fresh dispatcher delivers the order of those turns; what it still holds is what is lost |
| Dispatch.Dispatcher.RunTurns | crates/wlr/src/backend.rs:2318-2425 | The loop of a run, counting its limit down, ends with the result, trace, queue and thread that the turns it takes determine |
| Dispatch.TakesIffRuns | crates/wlr/src/backend.rs:2315-2420 | The turns the loop takes are exactly the first ones of which there are at most as many as the limit, none but the last ends the run, and the last one does unless the limit is reached |
| Dispatch.RunsAreUnique | crates/wlr/src/backend.rs:2315-2420 | The limit and the outcomes leave one list of turns |
| Dispatch.TurnsAre | crates/wlr/src/backend.rs:2340-2414 | In each turn everything its polls emit is delivered, and `should_stop` acts exactly if it is asked |
| Dispatch.EmittedInOrder | crates/wlr/src/backend.rs:2340-2368 | What an interrupted poll and its retries emit comes in the order of the polls |
| Dispatch.EmitConserves | crates/wlr/src/dispatch.rs:939-970 | A top-level `emit` delivers the leftovers' trees and its own, nothing more and nothing less |
| Dispatch.RunConserves | crates/wlr/src/backend.rs:2320-2425 | Over the turns of one dispatcher, delivered plus still queued equals queued at the start plus everything emitted, as multisets; inside a turn `Dispatcher.Drain` keeps the balance in every round |
| Dispatch.RunDeliversAllIff | crates/wlr/src/backend.rs:2198-2199 | A run, whose dispatcher dies with it, delivers everything it is given if and only if every `should_stop` that causes something is followed by a turn in which wlroots emits |
| Dispatch.LastQueryIsLost | crates/wlr/src/backend.rs:2412-2417 | The run of one quiet turn whose `should_stop` causes an event delivers nothing and ends with that event queued |
| OwnedHandles.Signal.EmitDestroy | crates/wlr/src/owned_handle.rs:136-168 | After the owner's `destroy` emission nobody is listening and every linked handle is inert, its listener unlinked exactly once, although each callback edits the list being walked |
| OwnedHandles.OwnedHandle.LinkWatch | crates/wlr/src/ext_workspace.rs:641-668 | The boxed handle is linked once and holds the registration of its own listener |
| OwnedHandles.OwnedHandle.DropRegistration | crates/wlr/src/backend.rs:1150-1190 | Unlinks the listener exactly when the watched cell still reads true |
| OwnedHandles.OwnedHandle.TakeLiveRaw | crates/wlr/src/owned_handle.rs:101-117 | Returns the object with the watch unlinked once, the handle inert and every other listener still validly linked; or nothing and no change after the owner died |
| OwnedHandles.OwnedHandle.OnWatchedDestroy | crates/wlr/src/owned_handle.rs:145-167 | By the opposite order inside the emission: inert, unlinked exactly once |
| OwnedHandles.OwnerDies | crates/wlr/src/owned_handle.rs:92-168 | Any number of handles linked to one owner, as many as were created, and dropped in any order, then the owner's death: nobody is listening and every handle is inert and was unlinked exactly once, by its drop or by the emission |
| OwnedHandles.LiveIff | crates/wlr/src/owned_handle.rs:92-117 | There are as many handles as creations, and those alive before the owner dies are the ones not dropped since they were created |
| TeardownCode.World.TakeLiveRaw | crates/wlr/src/owned_handle.rs:108-117 | Does the machine's step from any state; on a linked handle the unlink's demand is met |
| TeardownCode.World.DropOwned | crates/wlr/src/ext_workspace.rs:616-625 | `Drop` of a group or workspace does the machine's step, recording whether each C call's demand was met |
| TeardownCode.World.DropToplevel | crates/wlr/src/foreign_toplevel.rs:497-528 | `Drop` of a toplevel: requests cleared, watch unlinked, marked dead, then deferred or destroyed as the thread's flag says |
| TeardownCode.World.OnWatchedDestroy | crates/wlr/src/foreign_toplevel.rs:867-880 | The manager-death callback does the machine's step; on a linked handle every demand is met and the handle ends inert |
| TeardownCode.World.OnManagerDestroy | crates/wlr/src/ext_workspace.rs:844-864 | The runtime's callback clears flag and pointer, unlinks its watch and drops the registration, from any state |
| TeardownCode.World.CreateManager | crates/wlr/src/ext_workspace.rs:684-717 | Succeeds exactly when the slot holds no pointer and wlroots returns a manager; then the slot holds it, live, with its watch, the one stored before is dropped, and otherwise nothing changes, from any state |
| TeardownCode.World.CreateHandle | crates/wlr/src/foreign_toplevel.rs:599-615 | Misses, changing nothing, exactly when the runtime has no live manager of the handle's kind or wlroots returns nothing; otherwise the handle is live, untargeted and of the kind asked for, with one linked watch |
| TeardownCode.World.SetTarget | crates/wlr/src/ext_workspace.rs:591-613 | Accepts exactly a live handle of the same runtime on a live handle, or null; an accepted call stores just that pointer, null included, and a refused one changes nothing |
| TeardownCode.World.TearDown | crates/wlr/src/ext_workspace.rs:844-864 | Emission in the given order, then the free of the manager with its objects and its assertion, from any state |
| TeardownCode.World.Drain | crates/wlr/src/runtime.rs:4121-4150 | Does the machine's drain whatever is queued, also for a queue left over from an earlier manager |
| TeardownCode.World.RunAll | crates/wlr/src/foreign_toplevel.rs:497-572 | Every feasible run ends in the machine's state, and every demand of wlroots was met if and only if every drain found a fresh queue and every drop under its own emission found the flag up |
| TeardownSafety.TakeLiveUnlinksOnce | crates/wlr/src/owned_handle.rs:108-117 | On a live handle the watch is unlinked once, because the cell is cleared last |
| TeardownSafety.CallbackUnlinksOnce | crates/wlr/src/owned_handle.rs:163-167 | In the callback it is unlinked once, because the cell is cleared first |
| TeardownSafety.EmissionInAnyOrder | crates/wlr/src/ext_workspace.rs:844-864 | The emission reaches the same state, listener by listener, in every order |
| TeardownSafety.TearDownInOneStep | crates/wlr/src/foreign_toplevel.rs:641-661 | Teardown frees the manager and its objects, empties its listeners, makes its handles inert and resets the slot, and nothing else; no object that is being emitted on is freed, since the loop turn borrows the display |
| TeardownSafety.DropReleases | crates/wlr/src/foreign_toplevel.rs:497-528 | Dropping a live handle unlinks each listener once and then defers or destroys |
| TeardownSafety.DropKeepsInv | crates/wlr/src/foreign_toplevel.rs:497-528 | Dropping keeps the invariant wherever the flag is up under the object's own emission |
| TeardownSafety.TearDownKeepsInv | crates/wlr/src/ext_workspace.rs:844-864 | Teardown keeps it |
| TeardownSafety.SetTargetKeepsInv | crates/wlr/src/foreign_toplevel.rs:453-476 | So does retargeting |
| TeardownRuns.DrainSafeIffFresh | crates/wlr/src/runtime.rs:4121-4150 | From every reachable state the drain is free of faults, and keeps the invariant, exactly when nothing queued on a runtime with a live manager belongs to a freed one |
| TeardownRuns.FaultFreeIff | crates/wlr/src/foreign_toplevel.rs:497-572 | Over every interleaving: no C call touches freed memory, unlinks an unlinked listener, frees an object under emission or frees a manager somebody listens to, if and only if every drain finds a fresh queue and every drop under its own emission finds the flag up |
| TeardownDelivery.ThreadIsGuardRun | crates/wlr/src/dispatch.rs:777-864 | The thread of a teardown run is the thread its guards alone produce |
| TeardownDelivery.FlagIffForeignContract | crates/wlr/src/foreign_toplevel.rs:511-521 | `IN_DELIVERY` is up at every moment consumer code runs under a request emission, if and only if no callback that is no delivery was made from inside an emission with no handler on the stack |
| TeardownDelivery.ContractMakesDropsDefer | crates/wlr/src/foreign_toplevel.rs:509-523 | Under that contract every drop of a toplevel under its own emission finds the flag up |
| TeardownDelivery.TidyRunsAreSafe | crates/wlr/src/foreign_toplevel.rs:538-572 | Re-creating managers only over empty queues, under that contract, is enough for a run without faults |
| TeardownTheorems.EveryRunKeeps | crates/wlr/src/owned_handle.rs:92-117 | Each watch and each set of request listeners is unlinked exactly once, when its handle goes inert; destroy at most once, and an object is freed by that or with its manager; a freed manager has no listeners; accessors reach only live objects; nothing is freed under its emission |
| TeardownTheorems.DropUnderEmissionDefers | crates/wlr/src/foreign_toplevel.rs:509-523 | Dropping a live toplevel in consumer code under any request emission finds the flag up as the guards left it, so it queues its object and nothing is freed |
| TeardownTheorems.PointersStayLive | crates/wlr/src/ext_workspace.rs:591-613 | A live object's group or parent is null or a not-freed object of the same manager, across re-creation; one live manager per runtime and kind |
| TeardownTheorems.TeardownResets | crates/wlr/src/ext_workspace.rs:676-690 | After teardown every object of the manager is freed, every accessor of its handles misses and the next creation on the runtime is accepted |
| TeardownTheorems.DrainFreesDeferredOnce | crates/wlr/src/runtime.rs:4121-4150 | A fresh drain empties the queue, destroys each queued object of the live manager once and touches none that was freed with a dead one |
| TeardownTheorems.RecreationSafeIffQueueEmpty | crates/wlr/src/foreign_toplevel.rs:538-572 | Corollary for re-creation right before a drain: no fault if and only if the queue was empty |
| TeardownTheorems.StaleQueueIsReachable | crates/wlr/src/runtime.rs:4135-4137 | A non-empty queue without a live manager is reachable: a toplevel is dropped in the last `should_stop` of a run, and the display dies |
| TeardownTheorems.UntidyRunsCanBeSafe | crates/wlr/src/runtime.rs:4135-4137 | A run that re-creates over a full queue and never faults, because the second display dies before the drain |
| TeardownTheorems.BareCallbackCanFault | crates/wlr/src/dispatch.rs:798-834 | Without the contract a run frees a toplevel under its own emission |
| TeardownTheorems.SwappedOrdersUnlinkZeroOrTwoTimes | crates/wlr/src/owned_handle.rs:136-167 | Swapping either order gives no unlink with the listener left linked, or two unlinks with a fault |
| WlList.Iter.constructor | crates/wlr-sys/src/list.rs:104-111 | The cursor is primed at construction on a well formed circle |
| WlList.Iter.Next | crates/wlr-sys/src/list.rs:117-127 | Yields the entries present at construction in order, then None with nothing changed |
| WlList.Iter.UnlinkYielded | crates/wlr-sys/src/list.rs:91-96 | Unlinking an entry already yielded keeps the circle well formed and the walk undisturbed |
| WlList.Iterate | crates/wlr-sys/src/list.rs:75-128 | For every client that unlinks already yielded entries between calls: the original sequence once each and in order, then None forever, and the list is the entries not unlinked, in order |
| WlList.UnlinkedIff | crates/wlr-sys/src/list.rs:91-96 | The entries gone after some turns are exactly those a turn asked to unlink |
| WlList.SurvivorsIff | crates/wlr-sys/src/list.rs:91-96 | The surviving list holds an entry exactly if its index was not unlinked |
| WlList.FromItems | crates/wlr-sys/src/list.rs:75-79 | Every sequence of containers is the contents of some well formed list |
| WorkspaceRequests.CollectRequests | crates/wlr/src/ext_workspace.rs:878-942 | One request per node in list order, each preserving discriminant, workspace, group and name, stale exactly for a NULL workspace of a kind that needs one or an unknown discriminant; a null head is empty |
| WorkspaceRequests.PreservesIsFunctional | crates/wlr/src/ext_workspace.rs:946-976 | That description leaves exactly one request per node |
| WorkspaceRequests.PreservesIff | crates/wlr/src/ext_workspace.rs:887-976 | The description says exactly what the table of kinds says: 0 creates, 1 activates, 2 deactivates, 3 assigns, 4 removes, anything else is unknown |
| Text.LinesConcat | crates/wlr/src/coverage.rs:290 | Splitting into lines distributes over texts that end a line |
| Text.LineEndings | crates/wlr/src/coverage.rs:290 | A line ends at a newline, with or without one carriage return before it, and the last line needs no end |
| Text.TrimIff | crates/wlr/src/coverage.rs:292 | Trimming takes the white space off both ends and no more |
| Text.IdentIff | crates/wlr/src/coverage.rs:80-89 | An identifier is made of ASCII letters, digits and underscores |
| Ledger.ParseTables | crates/wlr/src/coverage.rs:286-338 | The reader's loop computes the fold over classified lines, with its error and line number, which `ReadsText` says of the text |
| Ledger.StrictParse | crates/wlr/src/coverage.rs:286-338 | Succeeds exactly when no line offends, and then gives the sections; otherwise reports the first offending line and its offence |
| Ledger.NothingLost | crates/wlr/src/coverage.rs:296-337 | On success entries correspond one to one with header lines, all fields concatenated are the rows of the file in order, and no entry has a key twice |
| LedgerText.ClassifyIff | crates/wlr/src/coverage.rs:290-334 | A line is classified by the shape of its trimmed text: blank or comment, header, another bracketed line, no equals sign, a key that is not bare, a value that is not plainly quoted, or a row with that key and value |
| LedgerText.ReadsText | crates/wlr/src/coverage.rs:286-338 | On the text: success exactly when nothing is wrong with any line, and then every line is blank, a comment, the header or a row, and the entries are the sections, in order, with the rows below each header; otherwise the first line with which something is wrong, and just that one thing |
| LedgerEntries.ReasonsRoundTrip | crates/wlr/src/coverage.rs:238-259 | A string parses to a reason exactly when it is that reason's spelling |
| LedgerEntries.ParseWrapped | crates/wlr/src/coverage.rs:366-377 | The conversion loop stops at the first bad entry with its error |
| LedgerEntries.ParseWaived | crates/wlr/src/coverage.rs:384-413 | Likewise, checking the reason before symbol and note |
| LedgerEntries.WrappedAcceptedIff | crates/wlr/src/coverage.rs:366-377 | Accepted exactly when no line offends and every section has the three keys and no other, and then entry i holds the values of section i; otherwise the first offence, or at the header line of the first other section its first foreign key or, failing that, the first key it lacks |
| LedgerEntries.WaivedAcceptedIff | crates/wlr/src/coverage.rs:384-413 | Likewise with symbol, reason and note, an optional milestone and a known reason, and the values of each section in its entry; the reason is judged before symbol and note |
| LedgerEntries.PrintThenRead | crates/wlr/src/coverage.rs:286-338 | Printed sections with bare distinct keys and plain values are read back section by section |
| LedgerEntries.WrappedRoundTrip | crates/wlr/src/coverage.rs:366-377 | Printing a list and parsing it returns the list if and only if no value holds a quote or newline |
| LedgerEntries.WaivedRoundTrip | crates/wlr/src/coverage.rs:384-413 | The same for waived entries, with or without a milestone |
| LedgerEntries.ParsePrintParse | crates/wlr/src/coverage.rs:286-413 | Parse, print, parse is stable on every accepted input |
| SysUses.NoOverlap | crates/wlr/src/coverage.rs:452-454 | `sys::` cannot overlap itself, so skipping past a match misses none |
| SysUses.GroupEnd | crates/wlr/src/coverage.rs:471-485 | The depth counter never underflows and stops at the matching brace, or at the end of the text |
| SysUses.ScanGroup | crates/wlr/src/coverage.rs:486-497 | Adds exactly the `wlr_` names among the maximal identifiers of the group |
| SysUses.CollectSysUses | crates/wlr/src/coverage.rs:451-499 | The result is the input set plus exactly the `wlr_` names used at some occurrence of `sys::`, directly or in its brace group |
| SysUses.DirectUse | crates/wlr/src/coverage.rs:456-461 | `sys::name`, with nothing after it that goes on with the name, uses that name and no other |
| SysUses.GroupUse | crates/wlr/src/coverage.rs:469-497 | `sys::{...}` without further braces uses exactly the identifiers between the braces |
| Bindings.Extract | crates/wlr/src/coverage.rs:98-156 | Each name once, exactly as its first declaring line has it, in the derived order |
| BindingsText.DeclaredIff | crates/wlr/src/coverage.rs:114-151 | A line declares a `wlr_` symbol exactly when it reads `pub fn name(` after any indentation, or at its start `pub struct name(pub `, `pub struct name {`, `pub union name {` or `pub type name =`, and the kind is the shape's; the two aggregates only for names bindgen did not make up |
| BindingsText.ExtractsFirst | crates/wlr/src/coverage.rs:98-156 | A symbol is found exactly when the first line to declare its name declares it |
| Sorting.SortSorts | crates/wlr/src/coverage.rs:154 | Sorting is an ascending rearrangement |
| Sorting.SortedIsUnique | crates/wlr-sys/build.rs:743 | For an order there is one ascending rearrangement |
| Sorting.StrLeIff | crates/wlr/src/coverage.rs:583-586 | Names are ordered as in a dictionary: a prefix first, otherwise by the first character that differs |
| Sorting.SortIsStable | crates/wlr/src/coverage.rs:586 | What compares equal keeps its order |
| Groups.GroupOf | crates/wlr/src/coverage.rs:830-840 | The scan that keeps strictly longer matches finds the row of the backward reference |
| Groups.BestRowIsLongest | crates/wlr/src/coverage.rs:830-840 | The row found matches and none longer does, and the area is its own; none is found exactly when none matches, and then the area is `other` |
| Groups.LongestPrefixWins | crates/wlr/src/coverage.rs:830-840 | The area is that of the longest matching prefix, which is unique |
| Groups.OrderIrrelevantIffConsistent | crates/wlr/src/coverage.rs:710-715 | Every reordering of the table answers every symbol alike, if and only if no prefix has two areas |
| Reconcile.Run | crates/wlr/src/coverage.rs:525-588 | The counting loop over a map and the in-order walk of the map give one row per area, with its two counts, beside the findings |
| Reconcile.FindingsAreExact | crates/wlr/src/coverage.rs:531-567 | What each list of the report holds, how often, and in what order, said of the rows of the ledgers and the bound symbols |
| Reconcile.BacklogInFileOrder | crates/wlr/src/coverage.rs:562-586 | The backlog is listed by symbol, and the rows of one symbol in the order of the file |
| Reconcile.SymbolLeIff | crates/wlr/src/coverage.rs:50-77 | Symbols are ordered by name, and those of one name by kind, functions first |
| Reconcile.CleanIffPartition | crates/wlr/src/coverage.rs:592-598 | Clean if and only if the bound names are the disjoint union of the two ledgers' names, every wrapped name is used and no not-yet name is |
| Reconcile.CompleteIffNoBacklog | crates/wlr/src/coverage.rs:602-604 | Complete if and only if the ledgers are clean and no waived name is left for later |
| Reconcile.AreasAscend | crates/wlr/src/coverage.rs:569-581 | The table of areas has one row for every area of a bound symbol, no other, in order |
| Reconcile.AreasAddUp | crates/wlr/src/coverage.rs:569-581 | The totals add up to the symbols; on distinct names the wrapped counts add up to the wrapped names if and only if all of those are bound |
| Reconcile.CleanAreasAddUp | crates/wlr/src/coverage.rs:569-581 | On clean ledgers and distinct names the wrapped counts add up to the distinct wrapped names |
| Extents.BlockIff | crates/wlr/src/render/pixel_format.rs:55-109 | A format has the block of its class in the table, no format is in two classes, and one in none has no block |
| Extents.RowIsExact | crates/wlr/src/render/pixel_format.rs:118-125 | For every width a buffer can have the row length is the exact ceiling; the saturating product never saturates |
| Extents.MappedRowsFit | crates/wlr/src/buffer.rs:353-371 | Granted exactly when no size is negative and, unless empty, the format is known, a row fits the stride and the extent fits `usize`; then rows lie inside without overlap and the last one ends the extent |
| Extents.PixelsFit | crates/wlr/src/buffer.rs:353-371 | Every block whose pixels all belong to the image is inside, in its own row, for every format; the last block ends the extent exactly when the pixels fill the blocks, and reaches past it otherwise |
| Extents.ExpectedLenIsExact | crates/wlr/src/buffer.rs:684-692 | The wrapping 64-bit product is the true one for every width that passes the guard |
| Extents.ValidPixelsMapWhole | crates/wlr/src/buffer.rs:684-737 | Accepted exactly when the stride fits `i32` and the extent mapped from the created buffer is the whole vector |
| Buffers.Mappings.Begin | crates/wlr/src/buffer.rs:252-306 | Grants exactly when no mapping is open on the buffer and the answer's extent is bounded; every refusal leaves the bracket closed and the count alone |
| Buffers.Mappings.Drop | crates/wlr/src/buffer.rs:492-504 | Closes the bracket and takes one off a count that is not zero |
| Buffers.Mappings.UseBuffer | crates/wlr/src/render/mod.rs:607-610 | Refuses exactly while a guard is live on the buffer, and otherwise meets wlroots' assertion |
| Buffers.Mappings.Commit | crates/wlr/src/runtime.rs:4565-4568 | Refuses exactly while any guard is live, and otherwise no buffer of the scene meets the assertion |
| Buffers.Mappings.Release | crates/wlr/src/buffer.rs:236-239 | Giving a buffer up once no guard is live on it meets the assertion of drop and unlock |
| Buffers.Run | crates/wlr/src/buffer.rs:309-329 | Every run of client operations, giving buffers up included, answers like the machine on tables, meets every assertion, and keeps the count at the number of open mappings |
| Buffers.AnswersAreExact | crates/wlr/src/buffer.rs:252-329 | What each answer of a run is, read off the answers before it: a mapping is granted exactly on a buffer that is neither mapped nor given up and whose extent is bounded, a commit goes through exactly while nothing is mapped |
| Identity.AddonSet.Attach | crates/wlr/src/addon.rs:109-140 | Under the precondition wlroots aborts on, the set carries one more payload and the others unchanged |
| Identity.AddonSet.Find | crates/wlr/src/addon.rs:146-162 | Finds the payload of that kind, or nothing exactly when there is none |
| Identity.AddonSet.Finish | crates/wlr/src/addon.rs:238-247 | Every payload is unlinked and freed exactly once and the set is empty |
| Identity.AttachId | crates/wlr/src/id.rs:273-287 | Panics exactly on a second role id, changing nothing; otherwise attaches a fresh draw |
| Identity.AttachSurfaceId | crates/wlr/src/id.rs:174-188 | Reports exactly a second surface id, changing nothing; otherwise attaches a fresh draw |
| Identity.EnsureSurfaceIdRaw | crates/wlr/src/id.rs:212-239 | Returns the id that is there, changing nothing, or attaches the next one; the final `expect` is unreachable |
| Identity.EnsureIdRaw | crates/wlr/src/backend.rs:4550-4569 | The same for role ids; the assertion of `attach_id` is unreachable |
| Identity.DanglingBand | crates/wlr/src/id.rs:81-83 | The test ids fill the top 2^32 values and coincide exactly modulo 2^32 |
| IdentityRuns.RunKeepsInv | crates/wlr/src/id.rs:64-66 | Every id on a live object or in the queue was drawn for that object and kind, over every run |
| IdentityRuns.IdentityHolds | crates/wlr/src/id.rs:64-188 | Within 2^64 draws no id is carried twice, by two objects or two kinds, and a queued id resolves to its object while that lives and to nothing afterwards, whatever addresses are reused |
| IdentityRuns.SafeIffWithinTheWord | crates/wlr/src/id.rs:47-66 | A bound on the number of draws makes every run safe if and only if it is at most 2^64 |
| IdentityRuns.OnceRoundConfuses | crates/wlr/src/id.rs:64-66 | The run one draw longer in which a queued id names another object |
| IdentityRuns.DanglingBandIsFreeIff | crates/wlr/src/id.rs:68-83 | No drawn id is in the dangling band if and only if fewer than 2^64 - 2^32 were drawn |
| Walks.CollectHeaders | crates/wlr-sys/build.rs:693-745 | Refuses with the first gated header that is gone; otherwise the sorted list of the relative paths of the plain `.h` files that are not gated, or are enabled, one for every chain of directories that leads to one |
| Walks.ExtensionIff | crates/wlr-sys/build.rs:727 | A file has an extension exactly when its name is a non-empty stem, a dot and that extension, which holds no dot |
| Walks.HeadersInOrder | crates/wlr-sys/build.rs:727-744 | That list is ascending and holds a path exactly when some chain of directories from `wlr` ends at such a file under that path |
| Walks.SlashesAt | crates/wlr-sys/build.rs:736 | Every backslash of a path becomes a slash, and nothing else changes |
| Trees.ChainsOf | crates/wlr-sys/build.rs:708-726 | The traversal finds the leaf at the end of every chain of directories, once for each chain, under the root and the names on the way |
| Trees.FoundIff | crates/wlr/src/coverage.rs:431-446 | A file is found exactly when a chain leads to it |
| SourceScan.ScanSysUses | crates/wlr/src/coverage.rs:431-449 | Reads exactly the `.rs` entries but the audit's own to which a chain of directories leads; fails exactly when one cannot be read, naming one; returns exactly the names they use |
| IncludeArgs.Retain | crates/wlr-sys/build.rs:275-276 | The filter through a growing set keeps the first occurrences in order |
| IncludeArgs.DedupKeepsResolution | crates/wlr-sys/build.rs:272-276 | Every first-match lookup finds what it found before; nothing is lost or twice |
| IncludeArgs.ResolutionDeterminesTheList | crates/wlr-sys/build.rs:272-276 | No other duplicate-free list resolves every lookup alike |

## Left out

- Unwinding out of a handler: guards also restore their flags during a panic; handlers here return.
- Handlers that never stop causing events: behaviours are finite forests, which is what the drain loop needs to end.
- The tables, listeners and fd sources a run registers, starting the backend, and the deferred closes: the polls, the
  flush, the liveness check and `should_stop` are the run. The drain of deferred toplevels is in the teardown modules.
- TeardownCode.World.ClearRequestListeners: the six request registrations of a toplevel are cleared together and counted
  as one group, because nothing ever clears them apart.
- TeardownCode.World.CreateHandle: the ids of handles and managers are fresh; reuse of freed addresses is modelled for
  ids (`IdentityRuns`), not for handles, which hold the pointer only while it is live.
- Dropping a runtime while its display lives on, which unlinks the watches it still holds; runtimes outlive the runs.
- TeardownCode.World: handles, managers and slots are entries of mutable maps rather than separate heap objects; the
  object-level story of one handle, its registration and its signal is `OwnedHandles`.
- The order of a signal's listeners in `OwnedHandles` is link order; the run machine allows any order.
- Client-side effects of requests, titles, output enter and leave, and the protocol events wlroots sends.
- WorkspaceRequests.CollectRequests: the union of request payloads is one record; reading a field the discriminant does
  not select is not modelled.
- Inserting into a `wl_list` during an iteration, and disturbing entries ahead of the cursor, which the iterator's contract forbids.
- The texts of error messages: an error is its line and its reason.
- `variadic_fns`, the rendering of reports and percentages: formatting and one more line scan.
- The rows of `GROUPS`: the table is a parameter, and the theorems hold for every table.
- Buffers.Mappings.UseBuffer: the other refusals of the renderer calls (a live pass, unsupported options, timers) come
  before or after this one and are left out.
- The thread's `OPEN_MAPPINGS` as a machine word: its value is a number of live guards, which memory bounds long before
  2^64.
- Extents.MappedRowsFit: a slice's own limit of `isize::MAX` bytes is not part of `mapped_len` and not of the model.
- Pixel buffers after creation, their refcounts and destruction; pointers the renderer keeps past the bracket.
- Failures to list a directory, which abort both walks, and the order in which a directory lists its entries, which the
  results do not depend on.
- Walks.CollectHeaders: whether a gated path names a file is a parameter, since that question follows links and the walk
  does not.
- The layer, decoration, popup, geometry, capability and logging modules, sockets, signals outside teardown, bindgen and
  pkg-config.
