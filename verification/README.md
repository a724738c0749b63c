# Verified models of the handle table, the shared buffer store and the dispatcher

This project models, in Dafny, the three stateful Go packages of the runtime that everything else relies on, and
proves what they keep over every run.

**Handle table** (`pkg/handles`). Objects that guest runtimes hold by id: reference counts, scopes, a directed
graph of references between handles, a bounded finalizer queue that spills, and cycle diagnostics by Tarjan's
algorithm.

- `Graphs.dfy`, `Ascending.dfy`, `Sequences.dfy`: reachability, components, cycles; sorted id lists; sequences
  without repetition.
- `CycleSearch.dfy`: the depth-first search as a class whose fields are the variables of the recursive closure.
- `HandleSpec.dfy`: the table as a value, its invariant, and theorems over all runs.
- `HandleHistory.dfy`: the state of a handle, told from the operations since its registration.
- `HandleScopes.dfy`: scope release with other operations between the collection and the single releases.
- `SpillQueues.dfy`: a bounded channel that spills into per-key counts, as used here and by the store.
- `HandleTable.dfy`, `HandleCycles.dfy`: the table in place, over entry objects.

**Shared buffer store** (`pkg/arrow`). Named buffers with an owner, leases, named borrows and direct references.
Republishing a name overwrites its buffer in place if nobody else holds it, and detaches it otherwise.

- `Layout.dfy`, `RowMajor.dfy`: int64 arithmetic on shapes, strides and validity bitmaps, with wrap-around.
- `Buffers.dfy`: what a buffer holds, and which metadata is valid.
- `StoreSpec.dfy`, `StoreInv.dfy`, `StoreRuns.dfy`, `StoreSums.dfy`: the store as a value, its invariant, theorems
  over all runs, and borrow totals. A slot stands for one Buffer object, so overwriting in place is visible.
- `SharedStore.dfy`, `StoreStats.dfy`: the store in place, over buffer and lease objects.
- `Deferred.dfy`, `StoreClient.dfy`: releases that finalizer threads queue by name, and the client protocol.
- `StoreHistory.dfy`, `StoreTotals.dfy`: what callers see of the store, told without its operations: what a name
  shows, who holds a buffer, what is counted and reported.
- `StoreTombs.dfy`: which tombstone a failed callback is noted on, when other operations come in between.
- `Descriptors.dfy`, `ArrowData.dfy`, `ArrowExport.dfy`, `ArrowRoundTrip.dfy`, `ArrowLaws.dfy`: import and export through the Arrow C
  Data Interface (its sections "Release callback semantics" and "Moving an array"), and what survives both.

**Golden Thread dispatcher** (`pkg/dispatcher`, and the waits of `pkg/manifest`). Callers hand functions to one
thread through two bounded queues.

- `Channels.dfy`: the capacities of the two queues.
- `Dispatcher.dfy`: callers and the consumer loops (`Run`, `RunEpoll`) as a transition system; invariants hold in
  every interleaving.
- `DispatchRuns.dfy`: what callers rely on: their own result, first in first out, a task within reach of the loop.
- `PumpWait.dfy`, `PumpRuns.dfy`: waiting on the Golden Thread while spawned workers call back to it.

Values and objects are connected in the same way throughout: a class has a ghost field with its abstract value, a
predicate `Valid` that ties the real fields and objects to it, and methods whose postconditions name the operation
on values that they perform. The theorems about runs are about those operations. History that the programs do not
record (which leases are out, how often a callback ran, how often a function was started) is kept in components
that are marked as such.

Release callbacks succeed or fail, as their value says. They are opaque, except for the closures of moved arrays:
those are objects that the store invokes. An operation that a run cannot perform
(a callback handed over twice, the release of a lease that was never issued) leaves the state as it is.

Some results are about inputs for which the code does less than its guards suggest. Each has its exact condition,
and a lemma with an input:

- The span check of import (`offset > MaxInt64 - length`) does not cover the rounding up to whole bytes in
  `arrowValidityByteLen`. `RowMajor.ValidityByteLenExact` gives the exact condition, and
  `ArrowData.TakenUnlessBitmapWraps` shows that metadata validation rejects precisely those arrays afterwards;
  `ArrowData.AcceptedThenRefused` is one.
- An exported array does not carry the bit offset of an imported bitmap: `ArrowRoundTrip.ValiditySurvivesIff`, and
  `ArrowRoundTrip.OffsetLosesValidity` for three elements.
- An imported array with nulls but no elements cannot be exported again: `ArrowRoundTrip.ImportThenExport`, and
  `ArrowRoundTrip.NullsWithoutElements`.
- The failure of a release callback is noted on whatever tombstone its name has by then:
  `StoreTombs.FailureNotedOnOwn`, and `StoreTombs.SecondFreeingIsBlamed`.
- A handle that escapes while its scope is being released is released all the same:
  `HandleScopes.SurvivesIffEscapedBefore`, and `HandleScopes.EscapeTooLate`.

To check everything, run `dafny verify dfyconfig.toml` with Dafny 4.11.

## Model

| member | source | states |
|---|---|---|
| `HandleCycles.TableCycles` | pkg/handles/table.go:681-751 | the four cycle diagnostics of a table describe exactly the strongly connected components of its recorded references |
| `HandleCycles.AllEdgesAreLive` | pkg/handles/table.go:265-295 | in every reachable table each recorded reference is labelled and leads to a live handle, so the live graph the search sees is the whole reference graph |
| `CycleSearch.CycleStats` | pkg/handles/table.go:681-751 | for every reference graph: `cycles` counts the components that contain a cycle, `cyclicHandles` the nodes on some cycle, `largest` is the largest size of such a component, and `sample` lists one of that size in ascending order; the recursion terminates |
| `CycleSearch.CycleFinder.StrongConnect` | pkg/handles/table.go:694-743 | one call of the recursive closure on an unvisited node keeps the search invariant, leaves the old stack as a prefix and other low links alone; its low link is the number of a stack node it reaches, and at most that of every older stack node with an edge from what it left on the stack |
| `CycleSearch.CycleFinder.VisitTargets` | pkg/handles/table.go:702-718 | the loop over the targets of a node, in any order, accounts for every edge to a live handle |
| `CycleSearch.CycleFinder.VisitSeen` | pkg/handles/table.go:715-717 | a visited target lowers the low link only while it is on the stack |
| `CycleSearch.CycleFinder.PopTo` | pkg/handles/table.go:724-733 | popping removes exactly the entries from the given node up, and takes them off the stack map |
| `CycleSearch.CycleFinder.Record` | pkg/handles/table.go:734-742 | an emitted component is counted if it has several members or a self-edge, and the largest one is kept in sorted order |
| `CycleSearch.PoppedIsComponent` | pkg/handles/table.go:720-733 | when the low link of a node is its own number, what lies above it on the stack is its strongly connected component |
| `CycleSearch.NoEscape` | pkg/handles/table.go:709-722 | every node of the component of the popped root lies in the popped part of the stack |
| `CycleSearch.ReturnEarly` | pkg/handles/table.go:709-722 | a call that does not emit hands its stack entries over to an older running node that they reach |
| `CycleSearch.ReturnRoot` | pkg/handles/table.go:720-743 | emitting a component keeps the search invariant and adds exactly that component to the finished nodes |
| `Graphs.OnCycleIff` | pkg/handles/table.go:735-737 | a node lies on a cycle exactly if its component has more than one member or it has an edge to itself |
| `Ascending.SortedListing` | pkg/handles/table.go:405-417 | collecting and sorting ids yields each member once, in ascending order |
| `Ascending.ListingUnique` | pkg/handles/table.go:415-416 | the ascending listing of a set of ids is unique |
| `HandleTable.HandleTable.Register` | pkg/handles/table.go:188-219 | rejects an empty runtime or kind; otherwise hands out the next id with one strong reference |
| `HandleTable.HandleTable.Retain` | pkg/handles/table.go:298-308 | adds a reference to a live handle, and reports an unknown one |
| `HandleTable.HandleTable.Escape` | pkg/handles/table.go:311-321 | exempts a live handle from scope cleanup |
| `HandleTable.HandleTable.RecordReference` | pkg/handles/table.go:265-284 | records a labelled edge between two live handles; unknown ends are reported, the source first |
| `HandleTable.HandleTable.DropReference` | pkg/handles/table.go:288-295 | removes one edge of the source |
| `HandleTable.HandleTable.DropReferences` | pkg/handles/table.go:675-679 | removes every edge into a handle and nothing else |
| `HandleTable.HandleTable.Drop` | pkg/handles/table.go:580-614 | the common way out: the handle and all edges into it go, counters move, the callback is invoked once, which the log of the object records, and its failure is counted and returned |
| `HandleTable.HandleTable.ReleaseRef` | pkg/handles/table.go:580-599 | one reference less; the last one drops the handle; unknown ids change nothing |
| `HandleTable.HandleTable.ReleaseEvery` | pkg/handles/table.go:601-614 | drops a live handle whatever its count |
| `HandleTable.HandleTable.Release` | pkg/handles/table.go:325-327 | an explicit release of one reference, as an operation of a run |
| `HandleTable.HandleTable.ReleaseAllRefs` | pkg/handles/table.go:332-334 | an explicit release of all references, as an operation of a run |
| `HandleTable.HandleTable.ReleaseFromFinalizer` | pkg/handles/table.go:337-344 | counts the finalizer of a live handle and releases one reference |
| `HandleTable.HandleTable.QueueReleaseFromFinalizer` | pkg/handles/table.go:349-381 | queues a release of a live handle unless channel and spill are full; a refused release of a live handle is counted and still raises the finalizer count of the handle; an unknown id is neither queued nor counted |
| `HandleTable.HandleTable.NextQueued` | pkg/handles/table.go:523-544 | takes the first entry of the queue: the channel first, then the oldest spilled id |
| `HandleTable.HandleTable.DrainFinalizerReleases` | pkg/handles/table.go:385-402 | applies queued releases in queue order, all of them or at most `max`, returns the first error, and terminates |
| `HandleTable.HandleTable.ReleaseScope` | pkg/handles/table.go:405-423 | releases every live non-escaped handle of the scope in ascending id order and returns the first error |
| `HandleTable.HandleTable.ReleaseAll` | pkg/handles/table.go:428-444 | releases every live handle and leaves the table empty |
| `HandleSpec.ApplyInv` | pkg/handles/table.go:188-444 | every operation keeps the table invariant: live edges, positive counts, conserved ids, exact callback log |
| `HandleSpec.HandlesAreConserved` | pkg/handles/table.go:188-626 | over every run: live handles hold at least one reference and edges to live handles only; registered ids = live + released; released = explicit + finalizer + scope releases |
| `HandleSpec.CallbackExactlyOnce` | pkg/handles/table.go:580-639 | over every run a release callback has run once if its handle is gone, and not at all while it is live |
| `HandleSpec.GoneStays` | pkg/handles/table.go:188-219 | a released id never becomes live again |
| `HandleSpec.StaleFinalizerIsHarmless` | pkg/handles/table.go:385-402 | a finalizer release of an id that is gone changes nothing, however late it is drained, and cannot touch a later handle |
| `HandleSpec.RefsBalance` | pkg/handles/table.go:298-402 | as long as a handle lives, its count is what it was plus the retains minus the releases since |
| `HandleSpec.BulkStep` | pkg/handles/table.go:405-423 | releasing one more handle of an ascending list equals releasing the longer list at once, errors included |
| `HandleSpec.ScopeIsReleased` | pkg/handles/table.go:405-423 | afterwards the scope has no live non-escaped handle; every other handle keeps everything but its edges into the released ones |
| `HandleSpec.ScopeCallbacks` | pkg/handles/table.go:405-423 | the callbacks of the victims run once each in ascending order despite failures, and the error returned is that of the smallest failing id |
| `HandleHistory.Lifetime` | pkg/handles/table.go:188-219 | a handle is registered under a new id with one reference and nothing else, and is live after any history exactly if no operation took all references and the releases never outnumbered the references |
| `HandleHistory.LiveIff` | pkg/handles/table.go:580-614 | a handle that is live at some point is live after any further operations exactly if none of them took all references and the releases never used up those it held |
| `HandleHistory.StaysIff` | pkg/handles/table.go:588-592 | one operation takes a live handle away if it takes all references, or the last one, and otherwise leaves it |
| `HandleHistory.FieldsBy` | pkg/handles/table.go:298-344 | as long as a handle lives, its count, its escape and its finalizers are what the operations add up to, and its scope and callback stay |
| `HandleHistory.EdgeBy` | pkg/handles/table.go:265-295 | the edge between two live handles, with its label, is what the last record or drop between them left |
| `HandleHistory.GraphStep` | pkg/handles/table.go:281-294 | an operation that keeps both ends adds exactly the recorded edge to the reference graph, and removes exactly the dropped one |
| `HandleHistory.NewHandleIsAlone` | pkg/handles/table.go:205-213 | a new handle has no edges in either direction |
| `HandleHistory.CauseStep` | pkg/handles/table.go:616-626 | handles that leave are counted as explicit, finalizer or scope releases after the operation that took them |
| `HandleHistory.ErrorIff` | pkg/handles/table.go:580-639 | a release reports an error exactly if it took the handle away and the callback failed, and each such failure is counted |
| `HandleHistory.DrainsInOrder` | pkg/handles/table.go:385-402 | a drain applies the queued releases one after another, in queue order |
| `HandleHistory.DrainErrorIsFirst` | pkg/handles/table.go:385-402 | a drain returns the error of the first failing release, in queue order |
| `HandleScopes.InterruptedScopeRelease` | pkg/handles/table.go:405-423 | with any operations between the collection of a scope and the release of each of its handles, every collected handle is gone, and what the scope still owns was registered later |
| `HandleScopes.SurvivesIffEscapedBefore` | pkg/handles/table.go:405-423 | a handle of the scope that nobody else releases survives if and only if it had escaped when the scope was collected |
| `HandleScopes.EscapeTooLate` | pkg/handles/table.go:311-321 | a handle that escapes after the collection is released, callback included |
| `HandleScopes.UninterruptedIsBulk` | pkg/handles/table.go:414-423 | releasing the collected handles one by one without interruption is the scope release in one step |
| `HandleSpec.ScopeReleaseIsIdempotent` | pkg/handles/table.go:405-423 | releasing a scope again changes nothing and reports nothing |
| `SpillQueues.SpillQueue.Offer` | pkg/handles/table.go:359-380 | an entry goes to the channel while there is room, else to the spill; it is refused only if its key would be one too many |
| `SpillQueues.SpillQueue.Take` | pkg/handles/table.go:523-544 | takes exactly the first entry of the contents, or reports that both structures are empty |
| `SpillQueues.OfferConserves` | pkg/arrow/buffer_bridge.go:436-451 | an accepted entry is queued once more, and the order list stays distinct and equal to the keys of the counts |
| `SpillQueues.TakeConserves` | pkg/arrow/buffer_bridge.go:453-469 | taking removes one occurrence of the head and keeps counts, order and total consistent |
| `SpillQueues.HistoryConserves` | pkg/handles/table.go:349-402 | over every history: an entry was accepted as often as it was taken, is in the channel, and is counted in the spill; order is distinct, equals the count keys, stays within its limit; total is the sum of the counts |
| `SpillQueues.OfferInserts` | pkg/handles/table.go:359-380 | an accepted entry goes to the end of the channel, or behind it; whatever was queued keeps its order; without a spill the queue is first in, first out |
| `SpillQueues.RefusedWhenFull` | pkg/arrow/buffer_bridge.go:436-451 | an entry is refused only when the queue holds as many entries as channel and key limit allow, and never if its key is spilled already |
| `Dispatcher.StepInv` | pkg/dispatcher/dispatcher.go:125-263 | every atomic step of callers, consumer and context keeps the protocol invariant |
| `Dispatcher.ExactlyOnce` | pkg/dispatcher/dispatcher.go:217-263 | in every interleaving a returned call ran its function once and got the error it returned, or the value it panicked with; or it got ErrShutdown and its function never runs |
| `DispatchRuns.ResultIsOutcome` | pkg/dispatcher/dispatcher.go:436-453 | the result of a call is the outcome of the one step of the run that ended its own function |
| `DispatchRuns.QueuesAreFifo` | pkg/dispatcher/dispatcher.go:134-185 | in every run calls are started, or rejected at shutdown, in the order in which they entered their queue |
| `DispatchRuns.FifoStep` | pkg/dispatcher/dispatcher.go:217-263 | a call enters at the end of its queue, and only the head leaves |
| `DispatchRuns.CallBlockedIff` | pkg/dispatcher/dispatcher.go:217-263 | a call waits only for room in its queue (64 fast, 256 normal calls) or for its result, and for nothing once the dispatcher has stopped |
| `DispatchRuns.KindIsKept` | pkg/dispatcher/dispatcher.go:239-245 | a call is in the fast queue exactly if it was made as a fast one |
| `DispatchRuns.NoEarlyShutdown` | pkg/dispatcher/dispatcher.go:217-263 | no call gets ErrShutdown before the context is cancelled |
| `DispatchRuns.TasksAreReached` | pkg/dispatcher/epoll_linux.go:105-194 | as long as the loop serves, at most five moves of its own lead to the start of a queued function |
| `Dispatcher.ReturnedStays` | pkg/dispatcher/dispatcher.go:410-453 | after a call has returned neither its answer nor the run count of its function changes |
| `Dispatcher.NoLostWakeup` | pkg/dispatcher/epoll_linux.go:98-194 | when the epoll loop is about to block, every queued task has a caller still on its way to signal, or a readable eventfd, or was queued before the wakeup function was installed with no sweep since |
| `Dispatcher.CoverStep` | pkg/dispatcher/epoll_linux.go:124-194 | every step keeps the bookkeeping of which queues a wakeup still has to visit |
| `Dispatcher.MissedStep` | pkg/dispatcher/dispatcher.go:400-407 | every step keeps the bookkeeping of calls that found no wakeup function |
| `Dispatcher.BoundedInversion` | pkg/dispatcher/dispatcher.go:134-185 | in both loops at most one normal task starts between the queueing of a fast call and its start |
| `Dispatcher.PriorityStep` | pkg/dispatcher/epoll_linux.go:153-194 | every step keeps the bound on overtaking |
| `Dispatcher.ConsumerMoves` | pkg/dispatcher/dispatcher.go:125-161 | while the loop runs it always has a step: no caller can block it |
| `Dispatcher.StopUnblocks` | pkg/dispatcher/dispatcher.go:217-263 | after a stop every pending call has a step of its own that brings its return closer |
| `Dispatcher.OthersDoNotDelay` | pkg/dispatcher/dispatcher.go:511-529 | after a stop, steps of the other callers and of the loop leave the distance of a pending call to its return as it is |
| `Dispatcher.ShutdownProgress` | pkg/dispatcher/dispatcher.go:125-161 | once the context is cancelled and signalled, every step of calls, consumer and running function lowers a bound |
| `Dispatcher.ShutdownTerminates` | pkg/dispatcher/epoll_linux.go:98-150 | without new calls a cancelled dispatcher comes to an end in boundedly many steps: the loop has stopped and every call has returned |
| `PumpWait.StepInv` | pkg/manifest/channels.go:381-463 | every step of the waiting thread, the workers and the join helper keeps the invariant of the wait |
| `PumpWait.NoDeadlock` | pkg/dispatcher/dispatcher.go:314-330 | as long as the wait has not returned somebody can move, with bounded queues and nested spawns |
| `PumpWait.StepProgress` | pkg/manifest/channels.go:394-452 | every step lowers a measure of the remaining marshaled calls |
| `PumpWait.WaitReturns` | pkg/manifest/channels.go:446-463 | from any state, with tasks queued and workers half way, a run of the wait is finite, and ends with the waiting thread back and the awaited result stored |
| `PumpWait.ResumedIsAwaited` | pkg/manifest/channels.go:422-436 | in every state in which a wait has returned, the spawn it waited for has stored its result and closed its channel, or all spawns have finished |
| `PumpRuns.CallsStep` | pkg/manifest/channels.go:394-404 | a callback that ends takes the first remaining call of its worker, nothing else does; results are stored when no call is left, and channels closed after that |
| `PumpRuns.SpawnStep` | pkg/manifest/channels.go:381-392 | the end of a callback spawns exactly the workers of its call |
| `PumpRuns.FifoStep` | pkg/dispatcher/dispatcher.go:314-330 | marshaled calls enter their channel at the end, and the waiting thread serves the head |
| `PumpRuns.AllCallsAreServed` | pkg/dispatcher/dispatcher.go:314-330 | during a wait for all spawns exactly as many callbacks are served as the programs contain calls, nested spawns included |
| `PumpWait.NextWaitReturns` | pkg/manifest/channels.go:407-436 | waiting for one handle after another: each further wait returns as well, and what was awaited before is still done |
| `PumpWait.FirstWaitReturns` | pkg/manifest/channels.go:431-463 | a wait that begins when nothing spawned has acted yet is finite and ends with the awaited result stored |
| `PumpWait.GroupWaitIsComplete` | pkg/manifest/channels.go:407-420 | after a wait for all spawns every spawn, nested ones included, has stored its result |
| `Layout.ValidateShape` | pkg/arrow/buffer_bridge.go:356-369 | the running product accepts exactly the non-negative shapes whose product before the first zero fits an int64 |
| `Layout.ShapeProduct` | pkg/arrow/cdata_types.go:291-306 | succeeds exactly if the dimensions before the first zero are positive with a product that fits, and then returns the mathematical product |
| `Layout.AdmittedIsEvaluated` | pkg/arrow/buffer_bridge.go:356-370 | every shape that validation admits is evaluated, and the product is exact and within range |
| `Layout.OverflowCheckExact` | pkg/arrow/cdata_types.go:278-281 | recomputing the element size from the wrapped byte count rejects exactly the products that overflow |
| `RowMajor.StridesAreContiguous` | pkg/arrow/cdata_types.go:308-331 | accepts exactly row-major strides, or any strides if a zero dimension comes first |
| `RowMajor.AcceptedLayoutIsBijective` | pkg/arrow/cdata_types.go:308-331 | accepted strides of a positive shape map the index vectors one to one onto 0, e, ..., (n-1)e |
| `RowMajor.LogicalPrimitiveView` | pkg/arrow/cdata_types.go:251-289 | succeeds exactly for viewable buffers, and returns the number of elements and the offset |
| `RowMajor.ViewStaysInBounds` | pkg/arrow/cdata_types.go:251-331 | every element of an accepted strided view is aligned and lies between the offset and the end of the buffer |
| `RowMajor.ValidityByteLenExact` | pkg/arrow/cdata_types.go:460-469 | the bitmap length is the rounded-up byte count exactly if offset + length is at most 2^63 - 8, and negative otherwise |
| `RowMajor.ValidityByteLenWraps` | pkg/arrow/cdata_types.go:390-393 | a concrete array inside the span guard of import whose bitmap length is negative |
| `Buffers.ValidateMetadata` | pkg/arrow/buffer_bridge.go:334-371 | accepts exactly host memory, non-negative sizes, matching strides and admissible shapes |
| `SharedStore.SharedStore.Allocate` | pkg/arrow/arrow.go:252-277 | a new zeroed buffer under a free name; a negative size or a taken name changes nothing |
| `SharedStore.SharedStore.Get` | pkg/arrow/arrow.go:280-293 | the current buffer, or released / not found |
| `SharedStore.SharedStore.Set` | pkg/arrow/buffer_bridge.go:82-156 | publishes bytes; bad metadata changes nothing; a failing callback of the overwritten buffer is reported although the new one is stored |
| `SharedStore.SharedStore.SetExternal` | pkg/arrow/buffer_bridge.go:168-270 | publishes foreign memory with its callback; a rejected import stores nothing and runs the callback |
| `SharedStore.SharedStore.Publish` | pkg/arrow/buffer_bridge.go:98-155 | the buffer of the name is overwritten in place only if its owner is the sole holder, else it is detached and a new one is created; the callback of what was overwritten runs |
| `SharedStore.SharedStore.Free` | pkg/arrow/arrow.go:582-636 | the name goes and leaves a tombstone; a buffer that is still referenced is detached, else its callback runs |
| `SharedStore.SharedStore.Borrow` | pkg/arrow/arrow.go:305-361 | an anonymous lease that exposes the current buffer |
| `SharedStore.SharedStore.ReleaseLease` | pkg/arrow/arrow.go:446-468 | ends a lease once; later calls change nothing and return the first result |
| `SharedStore.SharedStore.BorrowNamed` | pkg/arrow/arrow.go:305-361 | a borrow that joins the queue of its name |
| `SharedStore.SharedStore.ReleaseNamed` | pkg/arrow/arrow.go:488-511 | ends the oldest borrow in the queue of a name, or reports that there is none |
| `SharedStore.SharedStore.Retain` | pkg/arrow/arrow.go:889-893 | one direct reference more, for any buffer the store ever created; a buffer that has lost its last reference stays dead |
| `SharedStore.SharedStore.ReleaseDirect` | pkg/arrow/arrow.go:897-920 | one direct reference less, never one that the owner or a borrow stands for; the last one runs the callback |
| `SharedStore.SharedStore.LeaseSeesItsBuffer` | pkg/arrow/arrow.go:317-350 | an unreleased lease exposes exactly what its buffer object holds, and that object is referenced |
| `SharedStore.Buffer.DecrementBorrowRef` | pkg/arrow/arrow.go:546-558 | lowers borrow and reference count under their guards and takes the callback with the last reference |
| `SharedStore.Buffer.DecrementOwnerRef` | pkg/arrow/arrow.go:560-570 | drops the owner reference once |
| `SharedStore.Buffer.DecrementDirect` | pkg/arrow/arrow.go:897-912 | stops at the floor of borrows and owner |
| `SharedStore.Buffer.TakeRelease` | pkg/arrow/arrow.go:572-579 | the callback leaves the buffer only with the last reference |
| `SharedStore.Tombstones.MarkReleased` | pkg/arrow/arrow.go:179-198 | records a released name, except the empty one, and drops the oldest beyond 4096 |
| `SharedStore.Tombstones.ForgetReleased` | pkg/arrow/arrow.go:217-231 | removes a name from all three structures |
| `SharedStore.Tombstones.NoteFailure` | pkg/arrow/arrow.go:200-215 | a failed callback is noted on an existing tombstone only |
| `StoreInv.MarkInv` | pkg/arrow/arrow.go:179-198 | marking keeps tombstones, metadata and order equal, bounded and disjoint from live names; the newest one is kept |
| `StoreInv.PublishInv` | pkg/arrow/buffer_bridge.go:98-155 | publishing keeps the whole store invariant in all three cases |
| `StoreInv.FreeInv` | pkg/arrow/arrow.go:582-636 | freeing keeps the whole store invariant |
| `StoreInv.EndBorrowInv` | pkg/arrow/arrow.go:513-530 | ending a borrow restores the count of loans and the invariant |
| `StoreInv.ReleaseDirectInv` | pkg/arrow/arrow.go:897-920 | a direct release keeps the whole store invariant, matched or not |
| `StoreRuns.ApplyInv` | pkg/arrow/arrow.go:252-920 | every operation keeps the store invariant |
| `StoreRuns.CallbackExactlyOnce` | pkg/arrow/arrow.go:513-636 | over every run a callback handed to the store has run exactly once if no referenced buffer holds it, and not at all otherwise |
| `StoreRuns.CallbackStaysExactlyOnce` | pkg/arrow/arrow.go:922-927 | from any point of a run on a callback that the store holds stays accounted for: it has run once if nothing referenced holds it, and not at all otherwise |
| `StoreRuns.ReferencesAccountedFor` | pkg/arrow/arrow.go:305-361 | over every run refs = outstanding borrows + owner bit + direct retains, and the borrow count is the number of outstanding leases plus queue occurrences |
| `StoreRuns.StorePartition` | pkg/arrow/arrow.go:582-636 | over every run a referenced buffer is either the owner-held current one of its name or detached, never both; a buffer without references is dead for good: no name, no borrow and no callback leads to it again; tombstones are consistent, bounded and never live |
| `StoreRuns.HeldBufferKeepsContents` | pkg/arrow/buffer_bridge.go:98-155 | no operation changes the contents of a buffer that a borrow or a direct retain holds |
| `StoreRuns.LeaseIsIsolated` | pkg/arrow/buffer_bridge.go:206-269 | over every run, as long as a lease is out its buffer holds what was borrowed, is referenced, and its callback has not run |
| `StoreRuns.NamedBorrowsAreFifo` | pkg/arrow/arrow.go:488-511 | over every run the queue of a name is exactly what was borrowed and not yet returned, in order, across republishing and freeing |
| `StoreRuns.NamedBorrowIsIsolated` | pkg/arrow/arrow.go:305-361 | over every run a loan borrowed by name and not yet returned sees its buffer as it was borrowed, referenced, with its callback not run |
| `StoreRuns.ReturnEndsTheOldest` | pkg/arrow/arrow.go:513-530 | a named release lowers the counts of the oldest borrowed buffer and touches no other |
| `StoreRuns.FreedNameIsRemembered` | pkg/arrow/arrow.go:582-636 | a freed non-empty name is reported as released, not as missing |
| `StoreSums.StatusesAddUp` | pkg/arrow/arrow.go:639-733 | in every reachable store the active borrows reported per name add up to the total of Stats |
| `StoreStats.ActiveBorrows` | pkg/arrow/arrow.go:780-850 | the loops over current and detached buffers compute that total |
| `StoreStats.ActiveBorrowsOf` | pkg/arrow/arrow.go:639-733 | the per-name count covers the current buffer and the detached ones of the name |
| `StoreTombs.OpEvents` | pkg/arrow/arrow.go:179-231 | every operation changes tombstones by forgetting a published name, marking a freed one, and noting failures, in that order |
| `StoreTombs.SameTombs` | pkg/arrow/arrow.go:179-231 | keeping the number of the freeing that left each tombstone changes nothing about the tombstones |
| `StoreTombs.EndEvents` | pkg/arrow/arrow.go:457-468 | the last return of a borrow notes a failure on the tombstone that the name has then, of whatever generation |
| `StoreTombs.FailureLandsOn` | pkg/arrow/arrow.go:624-634 | with any events between freeing and failure, the marked tombstone is that of the freeing if and only if the name was neither published nor freed again |
| `StoreTombs.FailureNotedOnOwn` | pkg/arrow/arrow.go:200-215 | with fewer than 4096 freeings in between, the failure is noted on the own tombstone in exactly that case |
| `StoreTombs.SecondFreeingIsBlamed` | pkg/arrow/arrow.go:200-215 | freed, published and freed again before the first failure arrives: the second tombstone is marked |
| `StoreHistory.EveryOp` | pkg/arrow/arrow.go:252-920 | after every operation: which buffer each name stands for, how often each buffer is retained, and every counter, in terms of what was there; at most one callback has run, of a buffer of the store |
| `StoreHistory.ReferencesOf` | pkg/arrow/arrow.go:889-920 | over every run the references of a buffer are its loans, one for its name if it is current, and the retains not taken back |
| `StoreHistory.CallbackRunsWhenUnreachable` | pkg/arrow/arrow.go:572-579 | a callback has run once exactly if its buffer is not current, not lent and not retained |
| `StoreHistory.FailuresAreCounted` | pkg/arrow/arrow.go:200-215 | the error counter goes up exactly when a failing callback of a buffer has run |
| `StoreHistory.FailuresAreReported` | pkg/arrow/arrow.go:457-468 | publishing, freeing and returning report a failed callback exactly when one failed |
| `StoreHistory.SetIsShown` | pkg/arrow/buffer_bridge.go:82-156 | bytes and bitmap that are set are what a borrower gets, with every field of their metadata |
| `StoreHistory.AllocationIsShown` | pkg/arrow/arrow.go:252-277 | a new buffer shows zero bytes and no type |
| `StoreHistory.ImportIsShown` | pkg/arrow/buffer_bridge.go:186-270 | foreign memory that is published is what a borrower gets; memory without bytes is a null pointer |
| `StoreHistory.UnsoundIsRefused` | pkg/arrow/buffer_bridge.go:334-371 | what describes no sensible buffer is refused and changes nothing, apart from the callback of an import |
| `StoreHistory.SoundIff` | pkg/arrow/buffer_bridge.go:334-371 | validation accepts exactly host memory with non-negative sizes, matching strides, and a shape whose dimensions before the first zero multiply within an int64 |
| `StoreTotals.StatusCountsLoans` | pkg/arrow/arrow.go:639-733 | the active borrows of a name are its leases and named borrows that were not returned |
| `StoreTotals.StatsCountLoans` | pkg/arrow/arrow.go:780-850 | the total of Stats is the number of all loans that are out |
| `StoreTotals.MissingSays` | pkg/arrow/arrow.go:280-293 | a freed name is reported as released, a live or unknown one is not |
| `Deferred.ReleasesCommute` | pkg/arrow/arrow.go:488-511 | releases of two names yield the same store in either order |
| `Deferred.DrainingIsConfluent` | pkg/arrow/buffer_bridge.go:415-434 | the drained store depends only on how often each name is pending |
| `Deferred.SplitDoesNotMatter` | pkg/arrow/buffer_bridge.go:402-434 | how pending names are split between channel and overflow makes no difference |
| `Deferred.DrainingReturnsTheOldest` | pkg/arrow/buffer_bridge.go:415-434 | draining returns, per name, as many of its oldest borrows as it has pending releases; surplus releases do nothing |
| `StoreClient.Client.BufGet` | pkg/arrow/callbacks.go:10-28 | clears the outputs first; without data, length and dtype outputs nothing is borrowed; otherwise the current buffer is exposed through them and a named borrow is recorded, or -1 is returned with cleared outputs |
| `StoreClient.Client.BufRelease` | pkg/arrow/callbacks.go:73-81 | queues a release; only a new name that overflows a full queue is dropped and counted |
| `StoreClient.Client.BufFree` | pkg/arrow/callbacks.go:85-87 | releases the owner reference at once, and reports a missing name or a failed callback |
| `StoreClient.Client.DrainDeferred` | pkg/arrow/buffer_bridge.go:415-434 | applies everything pending, channel before overflow, and leaves both empty |
| `ArrowData.CheckImport` | pkg/arrow/cdata_types.go:353-392 | accepts exactly flat primitive arrays whose byte length, byte offset and bit span fit an int64 |
| `ArrowData.TakenUnlessBitmapWraps` | pkg/arrow/cdata_types.go:390-403 | of these the store takes all but those whose bitmap length wraps: a nullable non-empty array with offset + length above 2^63 - 8 |
| `ArrowData.AcceptedThenRefused` | pkg/arrow/cdata_types.go:390-403 | one int8 array that passes every check of import and is refused by the store, whether moved or copied |
| `ArrowData.Importer.ImportCArrowArray` | pkg/arrow/cdata_types.go:336-458 | with a name and two descriptors both end with their release unset; each live callback has run once when the call returns, through the closure if the store rejects the array, or is left to the closure that the store keeps; exactly which imports fail, and that a refused one changes no buffer |
| `ArrowData.Importer.MoveIn` | pkg/arrow/cdata_types.go:404-440 | moving hands both callbacks over to a closure over the copies; if the bitmap length wraps the store rejects the array and both have run once when it returns; otherwise none has; the error is exact |
| `ArrowData.Importer.CopyIn` | pkg/arrow/cdata_types.go:442-457 | an array that owns nothing is copied into the store; it fails under the same two conditions |
| `Descriptors.MovedArray.Invoke` | pkg/arrow/cdata_types.go:430-436 | the closure runs the array and the schema callback of the producer once each, as far as they are set; further invocations run none |
| `SharedStore.SharedStore.ProducerReleasedOnce` | pkg/arrow/cdata_types.go:430-440 | in every store, each callback of the producer of a moved array has run exactly once if no referenced buffer holds the array, and is still to run otherwise |
| `ArrowData.MovedArrayIsReleasedOnce` | pkg/arrow/cdata_types.go:417-440 | over every later run the callback under which a moved array was published runs exactly once: at rejection, or when the last reference is gone |
| `ArrowExport.CheckExport` | pkg/arrow/cdata_types.go:142-159 | decides exactly which buffers are exported and with which format, length, offset and buffers |
| `ArrowExport.BorrowCArrowArray` | pkg/arrow/cdata_types.go:136-249 | success leaves one lease owned by the array descriptor, and the format and name owned by the schema descriptor; every failure returns the borrow |
| `ArrowExport.ReturnedBorrowLeavesNoTrace` | pkg/arrow/cdata_types.go:142-179 | a failed export leaves every buffer, name, loan and callback as it was |
| `ArrowExport.ArrowCData.Release` | pkg/arrow/cdata_types.go:472-488 | frees the strings of the schema and ends the lease, once, unless they were handed on |
| `ArrowExport.ArrowCData.DetachTo` | pkg/arrow/cdata_types.go:494-508 | moves both descriptors to the receivers, whose release then frees the strings and ends the lease; without all four descriptors nothing moves |
| `ArrowLaws.FormatsAgree` | pkg/arrow/cdata_types.go:541-616 | formats, type codes and sizes agree with the table of primitive types; no other format or code is primitive |
| `ArrowLaws.ExportedWindow` | pkg/arrow/cdata_types.go:232-246 | element i of an exported array is read i elements behind the offset, inside the buffer; without a shape the window reaches to its end |
| `ArrowLaws.ExportedElements` | pkg/arrow/cdata_types.go:251-289 | an exported array has as many elements as the dimensions multiply to, with the null count and bits of the buffer |
| `ArrowLaws.FlatViewIff` | pkg/arrow/cdata_types.go:264-272 | without a shape exactly the windows of whole elements at an element offset are viewed |
| `ArrowLaws.ShapedViewIff` | pkg/arrow/cdata_types.go:274-288 | with a positive shape exactly aligned row-major windows that fit are viewed |
| `ArrowLaws.ImportedMetadata` | pkg/arrow/cdata_types.go:397-403 | an import records type, null count, bit offset and owner, and a bitmap just long enough for its last bit |
| `ArrowLaws.Refusals` | pkg/arrow/cdata_types.go:353-392 | one importable array, and each defect that alone makes it unfit |
| `ArrowLaws.ImportableMeans` | pkg/arrow/cdata_types.go:376-392 | an importable array has values, and bits if it has nulls, and all their positions fit an int64 |
| `ArrowRoundTrip.ImportStores` | pkg/arrow/cdata_types.go:404-457 | an import that is not refused, moved or copied, leaves exactly the window, bitmap and metadata of the array under the name |
| `ArrowRoundTrip.ImportThenExport` | pkg/arrow/cdata_types.go:336-458 | an imported array, moved or copied, is exported with its format, length and null count, unless it claims nulls without elements |
| `ArrowRoundTrip.ElementsSurvive` | pkg/arrow/cdata_types.go:434-447 | every byte of every element of the window reads the same in the array that comes back |
| `ArrowRoundTrip.ValiditySurvivesIff` | pkg/arrow/cdata_types.go:232-246 | for every content of the bitmap the elements keep their validity if and only if there are no nulls or the window starts at element 0 |
| `ArrowRoundTrip.OffsetLosesValidity` | pkg/arrow/cdata_types.go:232-246 | an int32 array of three elements, offset 1 and one null, and a bitmap for which validity changes |
| `ArrowRoundTrip.NullsWithoutElements` | pkg/arrow/cdata_types.go:153-156 | an empty int32 array that claims nulls is imported, and is not exportable |

## Left out

- Interleavings inside one operation of the table or the store: each method is one atomic step, although the
  programs release their locks before they run a callback, and between the parts of some operations. Two such gaps
  are covered on values: scope release in HandleScopes, and noting a failed callback in StoreTombs.
- Release callbacks that re-enter the table or the store.
- The combined object state over time: theorems over runs are stated about the abstract values that the methods
  are proved to follow, one operation at a time.
- Handle access reports, chatty-proxy warnings, creation times and the other counters of the handle statistics.
- Wrap-around of handle ids and of reference and diagnostics counters; lengths of Go slices are at most 2^63 - 1.
- CycleSearch.CycleStats: requires edge labels that are not empty, as recording a reference guarantees; the source
  counts a self-edge by its label.
- HandleTable.HandleTable.ReleaseScope: the method is one step, as the others are; operations of other goroutines
  between the collection and the single releases are covered on values, in HandleScopes.
- StoreRuns.ReferencesAccountedFor: direct retains are counted by the matched calls; an unmatched release of a
  retained buffer is counted against one of them.
- Leases of named borrows used as objects: a named borrow is returned by name, as BufGet and BufRelease do it.
- BufferOwner, List, Metadata, ToCBuffer, FromCBuffer, BorrowCBuffer and BufSet, which are thin layers over the
  modelled operations.
- StoreStats.ActiveBorrows: of the statistics only the total of active borrows is computed.
- StoreStats.ActiveBorrowsOf: of the status of a name only its active borrows are computed.
- Memory behind foreign pointers: a foreign region is an address, and copies read a given memory function.
- The 32-bit host checks of lengths: `int` is taken to have 64 bits.
- ArrowExport.BorrowCArrowArray: failing allocations are one input. The buffer length is required to be an int64.
- ArrowData.Importer.ImportCArrowArray: metadata strings, flags and children of descriptors are reduced to what
  the checks look at.
- RunAsync and its result delivery, PumpOnce, watched file descriptors, watchdogs and time limits.
- Dispatcher.ExactlyOnce: one Run or RunEpoll consumer per dispatcher; PumpUntil is modelled by its own system.
- Dispatcher.NoLostWakeup: draining the eventfd is one step, timers may fire at any time, and pump callbacks have
  no state. A signalled shutdown is reported by every epoll_wait, as it is with at most eight descriptors.
- PumpWait.WaitReturns: functions that are served do not wait themselves, and workers end after finitely many
  calls, as their programs say.
- Fairness: progress is stated as enabled steps and bounds on finite runs, not as a property of infinite runs; a
  function that never returns is not considered.
- Embedded runtimes, bridges, the manifest executor outside the waits, command lines and error texts.
