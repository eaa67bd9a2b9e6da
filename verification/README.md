# SupaDaos in Dafny

Models of seven components of SupaDaos, an object store, with proofs about whole runs of
them. `dafny verify dfyconfig.toml` checks everything.

* **B+ tree** (`BTree*.dfy`). Nodes live in a pool of slots and are changed in place: insertion
  with split and root growth, deletion with sibling rebalance, merge and root shrink, probing,
  and the cursor that is a trace from the root. A ghost tree ties the pool to the sorted
  sequence of records. Nodes need only one key, and separators may be stale.
* **Container epochs** (`Epoch*.dfy`). Each handler runs in a transaction that reads only what
  was committed before it, over two stores of counters. `EpochHandler` has the handlers on any
  store, `EpochRef` the protocol at its simplest (handles and the highest committed epoch);
  `EpochServer` proves that a container is served as the reference says, and `EpochPool` what
  becomes of several containers whose handles share one store.
* **Task scheduler** (`Tse*.dfy`). Tasks with dependency counts and reference counts. A run is
  any sequence of single accesses to the scheduler by any threads; a check made without the
  lock and the change that follows it are separate events. The first event that goes wrong
  (`Faulty`) ends the run. `TseEvent.Does` says of every event what becomes of every task;
  `TseRun` is the scheduler's own loop, with task bodies that complete their tasks.
* **Array I/O** (`Array*.dfy`). User ranges are cut into extents per distribution key, and the
  user's scatter/gather list is cut in step.
* **Pool map** (`Pool*.dfy`, `Sort.dfy`). A flat buffer of components becomes a contiguous tree
  with sorted indices, and a buffer again.
* **LRU cache** (`Lru.dfy`): busy and idle items, deferred eviction.
* **Replicated-service client** (`Rsvc.dfy`): the search for a leader.

`Sequences.dfy` holds sums and distinctness. Keys of the tree, handles, tasks and items are
numbers; 64-bit epochs and counters keep their width, other integers are unbounded.

## Findings

What the code does not do, as its members prove it.

| what | where | exactly when |
|---|---|---|
| A commit that slips to the handle's own LRE counts that epoch twice. The extra count is never taken off and holds GLRE, and with it all aggregation, down for good. | src/container/srv_epoch.c:948 | `EpochRef.StepLeaks` and `EpochRef.RunLeaks`: exactly by effective commits without NOSLIP at an epoch equal to the handle's LRE; `EpochRef.LeakHappens` is a run, `EpochRef.LeakPins` the consequence. |
| Holding an epoch can fail with -DER_IO. | src/container/srv_epoch.c:659-697 | `EpochRef.HoldFails`: exactly for 0 < epoch <= HCE with GHCE < HCE; nothing changes. `EpochRef.HoldFailure` is a run. |
| A request may name another container than its handle's. It then moves that container's counters for a handle that is not there. | src/container/srv_container.c:1059-1080 | `EpochPool.AddressedRun`: with requests that name their handle's container no counter can underflow and every close succeeds. `EpochPool.StrayExact`: one that does not, and is carried out, leaves sound containers exactly if it moved a reference alone, from a leak to a leak. `EpochPool.StrayForever`: one that moved a hold leaves the container with a handle that cannot be closed, for good. `EpochPool.StrayHappens` is a run. |
| The root of a tree that becomes empty is never freed. | src/common/btree.c:2095, src/common/btree.c:2573-2581 | `BTree.Context.Delete`: exactly by the deletion of the last record; all other nodes are freed or in the tree. |
| A record that straddles two user buffers moves the boundary of every later I/O, or is cut off. | src/addons/dac_array.c:695-707 | `ArrayIo.DacArrayIo`: transfers are right exactly if every buffer that ends before the last I/O ends on a record boundary; `ArrayIo.CutRecord` is a failing input. |
| A completed task can be left without references and never freed, together with its results. | src/common/tse.c:553 | `TseEvent.Effect`, kept by `Tse.Sched.Step`: exactly when the loop over dependents lets go of the only reference of a task already dropped. `Tse.Sched.Run`: never, unless a task was completed while it waited for others or while its own completion callbacks ran, or began to wait after it had completed; and for good. `Tse.LeakExample` is a run. |
| A dependency can be linked to a task that has been processed meanwhile. The dependent then waits for ever. | src/common/tse.c:769-777, src/common/tse.c:785-791 | `TseTask.WaitsInv`: the link keeps the invariant exactly if the task's dependents are still to be processed; `Tse.LateLink` is a run. |
| Completing a task can abort on an assertion. | src/common/tse.c:259 | `TseEvent.Faulty`: exactly if the task was put back on the init list after the look at it; `Tse.LateFinish` is a run. |
| Extracting a pool map without domains takes a target for a domain, or reads outside the map. | src/common/pool_map.c:594-595 | `PoolTree.Extract`, `PoolMap.RoundTrip`: exactly without domains, though such maps are created. `PoolTree.FirstRead`: rank and version of the second target are read as a pointer; with one target the read is behind the map. `PoolMap.NoDomainFails` is such a buffer. |

## Model

| member | source | states |
|---|---|---|
| BTree.Context.Create | src/common/btree.c:2378-2413 | a tree is made exactly for the allowed orders, and is empty |
| BTree.Context.Run | src/common/btree.c:1416-1429 | after any updates and deletes the tree is well formed and its leaf records in order are the one ascending sequence that stands for the finite map after the same operations |
| BTree.Context.Update | src/common/btree.c:1363-1429 | the map gets the key's value, whether the record is inserted or overwritten; all shape invariants hold and no slot is lost |
| BTree.Context.Delete | src/common/btree.c:2136-2217 | finds the key exactly if the map has it, and takes it and nothing else off; only the last record's node is lost |
| BTree.Context.DeleteAtCursor | src/common/btree.c:2902-2928 | takes off exactly the record the cursor is on |
| BTree.Context.RootStart | src/common/btree.c:723-758 | the first record makes a tree of one leaf |
| BTree.Context.UpdateOnly | src/common/btree.c:1329-1358 | overwrites the record under the cursor and no other |
| BTree.Context.RootGrow | src/common/btree.c:768-814 | a new root over two halves is well formed, one deeper, and holds the records of both in order |
| BTree.Context.InsertRec | src/common/btree.c:980-991 | through any number of splits up to the root, the records are the old ones with the new one at its slot |
| BTree.Context.SplitAndInsert | src/common/btree.c:876-978 | the same for a full node, its right half going to the parent |
| BTree.Context.Rebalance | src/common/btree.c:1545-1596 | borrowing from a sibling leaves a well-formed tree without the doomed record, whatever the separators were |
| BTree.Context.Merge | src/common/btree.c:1609-1670 | merging two siblings hands the deletion to the parent; what remains at the end is the same |
| BTree.Context.DelRec | src/common/btree.c:1972-2057 | one level of deletion: done, or one level further up with the same records to remain |
| BTree.Context.RootDelRec | src/common/btree.c:2068-2134 | deletion at the root: drops a record, shrinks the tree or empties it, and says which slot is lost |
| BTree.Context.Probe | src/common/btree.c:1008-1150 | for every probe opcode, the record found is the one its meaning asks for or there is none, though separators may be stale; an update probe ends at the order-preserving slot |
| BTree.Context.Fetch | src/common/btree.c:1281-1307 | a record the opcode and key ask for: the only one, the first or the last of them; or says that no record is |
| BTree.FindsMeans | src/common/btree.c:1008-1150 | what each probe opcode means, said of all records |
| BTree.Context.ProbeNext | src/common/btree.c:1152-1202 | the cursor moves to the next record in order, or stays where it is after the last one |
| BTree.Context.ProbePrev | src/common/btree.c:1204-1257 | the cursor moves to the record before, or stays where it is at the first one |
| BTree.Context.StepAndBack | src/common/btree.c:1152-1257 | stepping on and back restores the trace |
| BTree.Context.Iterate | src/common/btree.c:2960-3027 | visits every record once, in ascending or descending order, and stops |
| BTree.Context.CursorUnique | src/common/btree.c:291-320 | a trace names one record |
| BTree.Context.TraceFits | src/common/btree.c:103-127 | a tree of depth d has at least 2^(d-1) records, so fewer than 2^40 never overrun the trace |
| BTreeShape.WFSize | src/common/btree.c:208-213 | a well-formed subtree of depth d has at least 2^(d-1) records |
| BTreeNode.Search | src/common/btree.c:1050-1108 | the binary search ends next to the key, with the comparison that tells the side |
| BTreeNode.InsertRecOnly | src/common/btree.c:816-842 | shifting in place inserts the record at its slot |
| BTreeNode.SplitLeaf | src/common/btree.c:876-978 | the two halves of a leaf are the cut of the leaf with the record inserted |
| BTreeNode.SplitInner | src/common/btree.c:876-978 | the same for an inner node, whose middle key moves up |
| BTreeNode.DelLeafOnly | src/common/btree.c:1493-1522 | shifting left or right takes off one record |
| BTreeNode.DelLeafRebal | src/common/btree.c:1545-1596 | one record taken off, one borrowed from the sibling, and the separator between the two |
| BTreeNode.DelLeafMerge | src/common/btree.c:1609-1670 | the left of two leaves gets what both keep, in order |
| BTreeNode.DelChildOnly | src/common/btree.c:1725-1776 | one child and the right separator are taken off |
| BTreeNode.DelChildRebal | src/common/btree.c:1788-1840 | a child is borrowed through the parent's separator |
| BTreeNode.DelChildMerge | src/common/btree.c:1851-1916 | the left of two inner nodes gets all children, joined by the parent's separator |
| EpochStore.Tx.EcIncrement | src/container/srv_epoch.c:70-100 | adds one to a counter as committed, refused if it would wrap around |
| EpochStore.Tx.EcDecrement | src/container/srv_epoch.c:102-136 | takes one from a counter as committed and removes it at zero, refused if there is none |
| EpochStore.Tx.EcFindLowest | src/container/srv_epoch.c:138-158 | finds the lowest epoch committed, or says there is none |
| EpochStore.Tx.EcLowestWithout | src/container/srv_epoch.c:166-185 | finds the lowest epoch that survives a decrement not yet visible |
| EpochStore.Tx.EcUpdateAndFindLowest | src/container/srv_epoch.c:194-253 | although it reads only the snapshot, it returns the lowest epoch of the store after commit; exact failures |
| EpochStore.LowestShifted | src/container/srv_epoch.c:187-253 | the lowest of what a decrement and an increment leave, from what is seen before them |
| EpochCount.LhesSet | src/container/srv_epoch.c:672-688 | moving a handle's hold keeps every LHE counter equal to the number of handles at it |
| EpochCount.LresSet | src/container/srv_epoch.c:948-951 | moving a handle's reference keeps every LRE counter at handles plus leaks; one more leak exactly if it moves to where it is |
| EpochCount.CountersDrop | src/container/srv_epoch.c:563-577 | closing a handle keeps both counters right |
| EpochHandler.ReadEpochAttr | src/container/srv_epoch.c:314-362 | what is read are the stored epochs and the lowest ones of both counter stores |
| EpochHandler.UpdateGhce | src/container/srv_epoch.c:466-498 | GHCE becomes the lower of GHPCE and GLHE - 1 in 64 bits; -DER_IO exactly if that is lower than before |
| EpochServer.Settle | src/container/srv_epoch.c:466-498 | after any request GHCE equals min(GHPCE, GLHE - 1), has not fallen, and every invariant check passes |
| EpochHandler.EpochInitHdl | src/container/srv_epoch.c:500-537 | on any store: exact failures, the store with the new handle counted, and its state |
| EpochHandler.EpochFiniHdl | src/container/srv_epoch.c:539-592 | on any store and handle: exact failures, the store with the handle no longer counted, and what to aggregate |
| EpochHandler.EpochQuery | src/container/srv_epoch.c:609-627 | on any store and handle: every field of its state, or -DER_IO exactly if the invariant check fails |
| EpochHandler.EpochHold | src/container/srv_epoch.c:629-709 | on any store and handle: the three ways to pick the LHE, the counters moved, GHCE recomputed only for a higher hold, exact failures |
| EpochHandler.EpochSlip | src/container/srv_epoch.c:711-786 | on any store and handle: LRE only rises, counters moved, what to aggregate, exact failures |
| EpochHandler.EpochDiscard | src/container/srv_epoch.c:831-873 | on any store and handle: the refusals in order |
| EpochHandler.CommitCounters | src/container/srv_epoch.c:926-967 | both counters moved and GHPCE raised, or refused exactly if a counter would wrap around |
| EpochHandler.EpochCommit | src/container/srv_epoch.c:875-999 | on any store and handle: no-op, exact refusals, counters moved, GHPCE and GHCE raised, what to aggregate |
| EpochServer.OpenRefines | src/container/srv_epoch.c:500-537 | on a store that holds a reference state, opening answers as the reference does |
| EpochServer.CloseRefines | src/container/srv_epoch.c:539-592 | there, closing cannot fail, and sends the aggregation the reference sends |
| EpochServer.HoldRefines | src/container/srv_epoch.c:629-709 | there, holding answers as the reference does, GHCE being right although recomputed only for a higher hold |
| EpochServer.SlipRefines | src/container/srv_epoch.c:711-786 | there, slipping answers as the reference does, aggregation included |
| EpochServer.CommitRefines | src/container/srv_epoch.c:875-999 | there, committing answers as the reference does, aggregation included |
| EpochServer.ServeRefines | src/container/srv_container.c:1041-1084 | there, every request is served as the reference does |
| EpochServer.OpenHdl | src/container/srv_container.c:565-625 | a handle opened again keeps its state and must keep its capabilities |
| EpochServer.CloseHdl | src/container/srv_container.c:671-700 | closing an unknown handle succeeds and changes nothing |
| EpochServer.Service.Handle | src/container/srv_container.c:1090-1135 | a request commits as a whole or leaves no trace; GHCE and GHPCE do not fall; every field of the state returned |
| EpochServer.Service.Run | src/container/srv_container.c:1041-1135 | any sequence of requests is answered as by the reference: counter underflow, a falling GHCE and failing checks are unreachable |
| EpochServer.NotFull | src/container/srv_epoch.c:70-100 | a counter can only overflow with as many handles and leaks as there are epochs |
| EpochPool.PoolService.Create | src/container/srv_container.c:247-334 | a new container starts at epoch zero without counts; one that exists stays as it is |
| EpochPool.PoolService.Handle | src/container/srv_container.c:1090-1135 | a request is served for the container it names, a close for the container of its handle, each in a transaction |
| EpochPool.AddressedServes | src/container/srv_container.c:1041-1084 | a request that names its handle's container is answered as that container's reference does, and leaves all containers sound |
| EpochPool.AddressedRun | src/container/srv_container.c:1041-1135 | over any run of such requests no counter can underflow, and every close succeeds |
| EpochPool.StrayExact | src/container/srv_container.c:1059-1080 | a request for another container that is carried out leaves containers sound exactly if it only moved a reference from a leak to a leak |
| EpochPool.StrayForever | src/container/srv_container.c:671-700 | once such a request has moved a hold, the container named is never without an open handle again |
| EpochPool.StrayHappens | src/container/srv_container.c:1059-1080 | a run in which such a request moves a hold |
| EpochPool.ServeKeeps | src/container/srv_epoch.c:194-253 | no request changes how many holds are not counted |
| EpochRef.StepMonotone | src/container/srv_epoch.c:480-497 | no request lowers GHCE or GHPCE |
| EpochRef.RunMonotone | src/container/srv_epoch.c:480-497 | the same over any run, in which the handles' invariant holds |
| EpochRef.StepRefuses | src/container/srv_epoch.c:629-999 | of every return code, exactly when a request gets it; a refused request changes nothing |
| EpochRef.StepTouches | src/container/srv_epoch.c:500-999 | a request changes no handle but its own; only commits change GHPCE and leaks; queries and discards nothing |
| EpochRef.OpenGives | src/container/srv_epoch.c:500-537 | a new handle reads GHCE, holds nothing, and can commit nothing above GHCE before it holds |
| EpochRef.CloseGives | src/container/srv_epoch.c:539-592 | closing succeeds, and the handle is gone |
| EpochRef.HoldGives | src/container/srv_epoch.c:629-709 | for epoch 0 the LHE is one above GHPCE and above what any handle committed; otherwise the epoch asked for or the first one above GHCE |
| EpochRef.HoldCommits | src/container/srv_epoch.c:629-709 | after a hold, a commit below EPOCH_MAX is carried out exactly at or above the LHE, and refused between HCE and LHE |
| EpochRef.SlipGives | src/container/srv_epoch.c:711-786 | slipping changes the LRE alone, which reaches the epoch asked for and never falls |
| EpochRef.CommitGives | src/container/srv_epoch.c:875-999 | HCE, LHE and LRE after a commit; done again it changes nothing, and the epoch can no longer be discarded |
| EpochRef.RunGhpce | src/container/srv_epoch.c:956-967 | GHPCE is the highest epoch that any handle ever committed |
| EpochRef.GhceIs | src/container/srv_epoch.c:459-498 | GHCE is the highest epoch committed by some handle and held by none |
| EpochRef.HoldFails | src/container/srv_epoch.c:659-709 | when a hold returns -DER_IO, both ways |
| EpochRef.HoldFailure | src/container/srv_epoch.c:629-709 | a run to a state in which holding any of a handle's own epochs fails |
| EpochRef.BelowGhceImmutable | src/container/srv_epoch.c:659-697 | nobody can hold, commit anew or discard an epoch at or below GHCE |
| EpochRef.RunImmutable | src/container/srv_epoch.c:850-974 | the same at any later point of any run |
| EpochRef.SentSafe | src/container/srv_epoch.c:364-382 | an aggregation range sent ends at or below GHCE and every handle's LRE |
| EpochRef.RunSafe | src/container/srv_epoch.c:364-382 | every range ever sent stays so over any run, through handles opened later and LREs set back by commits |
| EpochRef.SentExact | src/container/srv_epoch.c:364-382 | a range is sent exactly if GLRE has risen and the request is a slip, or a close or commit with purge; it ends at the lower of GLRE and GHCE |
| EpochRef.SentHighest | src/container/srv_epoch.c:364-382 | the range sent is all that is safe exactly if GLRE is the lowest LRE of the handles, or GHCE is no higher than GLRE |
| EpochRef.RunSentHighest | src/container/srv_epoch.c:364-382 | over any run without leaks, every range sent is all that is safe |
| EpochRef.StepLeaks | src/container/srv_epoch.c:948-951 | a request adds a leak exactly if it is an effective slipping commit at the handle's own LRE |
| EpochRef.RunLeaks | src/container/srv_epoch.c:948-951 | the leaks after a run are exactly those of its leaking commits |
| EpochRef.GlreExact | src/container/srv_epoch.c:314-362 | GLRE is the lowest LRE of the handles exactly if no leak is below it |
| EpochRef.LeakPins | src/container/srv_epoch.c:364-382 | after a leak GLRE, and every range sent, stays at or below it for ever |
| EpochRef.LeakHappens | src/container/srv_epoch.c:875-999 | a run from the new container that leaks any given epoch |
| Tse.Sched.TaskInit | src/common/tse.c:810-845 | a new task has one reference and waits for nothing |
| Tse.Sched.CheckDepend | src/common/tse.c:757-780 | what is decided without the lock |
| Tse.Sched.LinkDepend | src/common/tse.c:783-795 | the link counts once on each side, and keeps the scheduler valid exactly if what it waits for is unprocessed; it is needed unless the task is about to start |
| Tse.Sched.Schedule | src/common/tse.c:847-887 | to the init list, or running at once; refused exactly if a task without a body is to be run at once |
| Tse.Sched.Reinit | src/common/tse.c:889-937 | a running task goes back to the init list, and is in flight no more; exact refusals |
| Tse.Sched.CompleteLocked | src/common/tse.c:252-263 | completed once, and which completions come too early |
| Tse.Sched.BeginComplete | src/common/tse.c:716-723 | what is decided without the lock |
| Tse.Sched.EndComplete | src/common/tse.c:725-739 | completes the task unless its callbacks put it back |
| Tse.Sched.Pick | src/common/tse.c:422-431 | a task is taken exactly if it is on the init list and waits for nothing; no other task, and nothing else of these, changes |
| Tse.Sched.Start | src/common/tse.c:433-453 | a task from the init list starts only after every task it needs has completed |
| Tse.Sched.Splice | src/common/tse.c:574-578 | a task is taken over exactly if it is on the complete list; nothing else changes |
| Tse.Sched.PostLink | src/common/tse.c:492-553 | one dependent counted down, and completed or given the finished task as a result |
| Tse.Sched.PostCallback | src/common/tse.c:522-553 | the rest of that after the dependent's callbacks |
| Tse.Sched.PostEnd | src/common/tse.c:556-558 | one task less in flight |
| Tse.Sched.DecRef | src/common/tse.c:141-173 | frees exactly what has no reference left: dropped tasks, results in turn, none that is still linked |
| Tse.Sched.Drop | src/common/tse.c:584-585 | the last reference of the scheduler is given up |
| Tse.Sched.CheckComplete | src/common/tse.c:591-604 | complete exactly if every task handed over has been processed |
| Tse.Sched.Step | src/common/tse.c:127-937 | every event does to every task what `Does` says, field by field, and keeps the invariant; or is faulty, exactly when `Faulty` says, and changes nothing; which dependency it registers, which task it strands, both ways; a stranded task never changes |
| Tse.Sched.Run | src/common/tse.c:127-937 | over any run up to the first faulty event: counts and references account for all links; a task starts only after everything it was made to wait for earlier in the run, unless it was then already about to start, has completed; stuck tasks and their results are never freed; without a hasty completion every task keeps a reference |
| Tse.StartOrder | src/common/tse.c:422-453 | between a registration and a start of the same task in a run, what it waits for has completed |
| Tse.NeverStalls | src/common/tse.c:607-625 | with acyclic dependencies on scheduled tasks, a non-empty init list with nothing in flight has a task that waits for nothing |
| TseRun.PickFlies | src/common/tse.c:422-431 | there, taking what can be taken leaves something in flight |
| TseRun.PickOnward | src/common/tse.c:414-431 | the same of a step of the scheduler, which cannot be faulty |
| TseRun.SomeReady | src/common/tse.c:607-625 | as long as the scheduler is not done with a task, some such task waits for nothing |
| TseRun.Process | src/common/tse.c:480-589 | a completed task is processed to its end: all its dependents counted down, the task dropped, no task added |
| TseRun.ProcessComplete | src/common/tse.c:566-589 | the scheduler is done with all completed tasks; a count of zero means there was none, any other that less is left to do |
| TseRun.ProcessInit | src/common/tse.c:414-471 | what can be started is, and completes; a count of zero means everything on the init list waits, any other that less is left to do |
| TseRun.SchedRun | src/common/tse.c:607-625 | with acyclic dependencies on scheduled tasks, and bodies that complete their tasks, the loop ends and every task handed over has been processed |
| Tse.Grounded | src/common/tse.c:556-604 | the in-flight count is zero exactly if no task is running or completed and unprocessed |
| Tse.LeakExample | src/common/tse.c:536-553 | a run that leaves a task without references and pins another as its result |
| Tse.LateLink | src/common/tse.c:769-791 | a run in which a link is made too late, breaks the invariant and stalls the scheduler |
| Tse.LateFinish | src/common/tse.c:708-751 | a run in which completion meets a task put back |
| TseTask.WaitsInv | src/common/tse.c:769-791 | a link keeps the invariant exactly if what it waits for has dependents still to be processed |
| TseTask.Freed | src/common/tse.c:141-173 | a task that is freed has nothing linked to it |
| TseEvent.EffectNext | src/common/tse.c:492-553 | the loop over dependents strands the dependent exactly if it was dropped and this was its only reference |
| TseEvent.EffectResume | src/common/tse.c:522-553 | the same after the dependent's callbacks |
| ArrayDkey.LocateOnce | src/addons/dac_array.c:613-659 | every index has a place in the layout, and the place gives the index back |
| ArrayDkey.PlaceOnce | src/addons/dac_array.c:613-659 | every place of the layout is that of its index |
| ArrayDkey.ComputeDkey | src/addons/dac_array.c:613-659 | the arithmetic finds that place and what is left of its block; group, block, key and offset make up the index |
| ArraySgl.CreateSgl | src/addons/dac_array.c:661-718 | the sub-list is a prefix of the bytes left, and what remains is the rest |
| ArraySgl.AlignedIs | src/addons/dac_array.c:695-707 | alignment, said of all buffer ends before a limit |
| ArraySgl.TakenMisaligned | src/addons/dac_array.c:695-707 | out of alignment, more bytes are taken than the records have |
| ArrayIo.IoExtentSame | src/addons/dac_array.c:570-606 | ranges and buffers are compared by total size |
| ArrayIo.BuildIod | src/addons/dac_array.c:818-934 | the extents of one I/O cover exactly the next indices of its key |
| ArrayIo.DacArrayIo | src/addons/dac_array.c:720-1033 | refused exactly for unequal sizes; all indices are issued in order; every index gets its own bytes exactly if the buffers are aligned up to the last I/O |
| ArrayIo.WholeRecords | src/addons/dac_array.c:720-1033 | buffers of whole records are aligned |
| ArrayIo.CutRecord | src/addons/dac_array.c:695-707 | for every record size above one, a list of equal size that is not |
| ArrayStore.MovesIntended | src/addons/dac_array.c:720-1033 | the bytes moved by a faithful split are the intended ones |
| ArrayStore.WriteStores | src/addons/dac_array.c:1047-1057 | for distinct indices, a write stores every byte at its place in whatever order, and changes nothing else |
| ArrayStore.WriteStoresAt | src/addons/dac_array.c:1047-1057 | byte j of the buffers is then byte j % cell of record j / cell |
| ArrayStore.ReadFetches | src/addons/dac_array.c:1035-1045 | for distinct buffer bytes, a read fetches every byte from its place |
| ArrayStore.RoundTrip | src/addons/dac_array.c:1035-1057 | a read of the same ranges returns what a write stored |
| PoolBuffer.PoolBuf.Attach | src/common/pool_map.c:393-418 | attaches components while types do not descend; exact failures |
| PoolParse.LinkLayers | src/common/pool_map.c:484-539 | one pass over the buffer links every layer to the next |
| PoolParse.CountTargets | src/common/pool_map.c:543-568 | then every domain has its slice of the targets |
| PoolMap.Parse | src/common/pool_map.c:444-574 | the tree of a layered buffer; exact failures |
| PoolMap.TargetsOfChildren | src/common/pool_map.c:543-568 | a domain's slice of the targets is its children's slices one after the other |
| PoolTree.TreeCount | src/common/pool_map.c:646-677 | counts of domains, targets and layers from any layer on |
| PoolMap.TreeSane | src/common/pool_map.c:735-843 | a parsed tree is sane exactly if no version is too new |
| PoolMap.Initialise | src/common/pool_map.c:893-979 | succeeds exactly for ids unique in each layer; brings up what is new and leaves every other status |
| PoolMap.Create | src/common/pool_map.c:1349-1385 | a map is made exactly for a full buffer of layers with fit versions and unique ids; its targets are those of the buffer, new ones up |
| PoolMap.VersionsAre | src/common/pool_map.c:735-843 | versions fit exactly if no component of the buffer is newer than the map |
| PoolMap.UniquesAre | src/common/pool_map.c:893-979 | ids are unique exactly if no two components of a type have one id |
| PoolTree.Extract | src/common/pool_map.c:583-640 | the buffer of a tree with domains is its layers and then its targets; without domains, what is read in place of one |
| PoolTree.MoreThanRoot | src/common/pool_map.c:594-595 | a tree has a domain to begin with exactly if it has a layer of domains |
| PoolTree.FirstRead | src/common/pool_map.c:594-595 | the word read as the first domain's children pointer: that, or a target's rank, or outside the map |
| PoolMap.NoDomainFails | src/common/pool_map.c:478-483 | a buffer of one target that is accepted and cannot be extracted |
| PoolMap.RoundTrip | src/common/pool_map.c:583-640 | a buffer makes a map exactly if it is full, has no component newer than the map and no two of a type with one id; extracted, it has the same components in order, new ones up and every other status kept, exactly if it has domains; what is read otherwise |
| PoolMap.Map.FindTarget | src/common/pool_map.c:1490-1515 | agrees with a scan of all targets |
| PoolMap.Map.FindDomain | src/common/pool_map.c:1433-1476 | agrees with a scan of the layer of the type |
| Sort.ArraySort | src/common/sort.c:42-74 | ends, permutes, fails exactly if keys must differ and do not, and otherwise sorts |
| Sort.Pass | src/common/sort.c:61-71 | one pass permutes, finds equal keys, and with gap 1 lowers the number of inversions |
| Sort.ArrayFind | src/common/sort.c:84-117 | the first match in a sorted array, or none |
| Lru.Cache.Hold | src/common/lru.c:240-289 | holds the one item of the key that is not evicted, or makes it; the key is then found, and no other item has changed; exact failures, which change nothing |
| Lru.Cache.Search | src/common/lru.c:184-219 | looking at the heads of both lists first finds what the hash table finds |
| Lru.Cache.Release | src/common/lru.c:291-336 | the last release leaves the item idle, at the head, or frees it if evicted; then idle items go while the cache is full; keys and marks stay |
| Lru.Cache.Shrink | src/common/lru.c:320-334 | drops idle items from the tail, no more than needed, and no held one |
| Lru.Cache.Evict | src/common/lru.c:154-182 | idle items that match are freed, busy ones marked, others untouched |
| Lru.Cache.RefEvict | src/include/daos/lru.h:157-161 | the item is marked; the cache stays valid exactly if somebody holds it |
| Lru.Cache.Run | src/common/lru.c:154-336 | over any operations the counts equal the list lengths, busy items are those with holders, a key has one live item, idle items stay below the cache size, and no item is freed under a holder that keeps it |
| Lru.OneFound | src/common/lru.c:184-219 | a key has at most one item that is not evicted |
| Lru.ShrinkTakesOldest | src/common/lru.c:320-334 | what a full cache drops was released before all it keeps |
| Rsvc.Client.Init | src/common/rsvc.c:47-64 | refused exactly without ranks; keeps them in order, each once |
| Rsvc.Client.Choose | src/common/rsvc.c:83-101 | the leader, or the next rank in turn |
| Rsvc.Client.ProcessError | src/common/rsvc.c:104-125 | an error counts against the leader only, once, or for good if it leads no more |
| Rsvc.LeaderTries | src/common/rsvc.c:104-125 | a leader that fails is contacted as often as it is thought alive, or until it says that it leads no more; then come the ranks behind it in turn |
| Rsvc.RobinInTurn | src/common/rsvc.c:83-101 | without a leader the ranks are contacted in turn |
| Rsvc.Client.ProcessHint | src/common/rsvc.c:128-183 | a hint is adopted exactly if it is newer and not contradicted by its sender |
| Rsvc.Client.CompleteRpc | src/common/rsvc.c:199-240 | when to choose again, and the state after it |
| Rsvc.RpcLearns | src/common/rsvc.c:199-240 | exactly which replies make the client take whom for the leader, and what every other reply does |
| Rsvc.HintTries | src/common/rsvc.c:174-180 | a leader that answered itself is contacted once more after a failure, one only heard of is not |
| Rsvc.SearchContactsAll | src/common/rsvc.c:83-125 | from any state, at most n + 1 failing rounds without hints contact all n ranks |
| Rsvc.StepOnward | src/common/rsvc.c:128-183 | no step lowers the leader's term or changes the leader within it; ranks are only appended; indices stay in range |
| Rsvc.RunOnward | src/common/rsvc.c:83-240 | the same between any two states of any run |

## Left out

- Persistent-memory transactions and failing allocation in the B+ tree.
- Hash collisions and key classes: keys of the tree are distinct numbers in order.
- Destroying a tree, several contexts on one tree, and iterator flags.
- Failed broadcasts and storage errors in the epoch handlers, and what targets do.
- Destroying containers, and closing by pool handle.
- EpochServer.Service.Run: answers as the reference for fewer requests, handles and leaks together than there are epochs (2^64 - 1), so that no counter overflows; with more it only stays valid.
- Cancelling a scheduler, its own reference count, results and return codes of tasks, and the order of tasks within a list.
- TseRun.SchedRun: one thread, and bodies that complete their task before they return and add no tasks; other runs of a scheduler are those of `Tse.Sched.Run`.
- Tse.Sched.Run: a faulty event ends the run; what the C code does after it is not modelled.
- PoolTree.Extract: what the C code does with a word that is no pointer is not modelled.
- 64-bit overflow of array indices, the text form of distribution keys, and an empty list of ranges in place of which the code reads a first range.
- ArrayStore.WriteStores: overlapping ranges, where the order of I/Os decides.
- Array size queries and truncation.
- PoolMap.Parse: buffers whose layers do not add up, where the code links and counts past the end of what it has filled.
- PoolMap.Create: the same buffers.
- Merging, extending and comparing pool maps, locks and reference counts.
- How CaRT, which is not part of this model, sorts a rank list and drops duplicates (src/common/rsvc.c:54): `Rsvc.SortUniq` has the result.
- Encoding and decoding of a client.
- The hash table under the LRU cache is a map.
