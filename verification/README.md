# RezusCloud: a verified model of the management plane's core

RezusCloud keeps tenants, node groups and machines in a resource table, renders
them into OpenTofu configuration and applies it. This project models the seven
places where it is easy to be subtly wrong, and proves what each of them is for.

* **Unified diff** (`TextLines`, `EditScript`, `Hunks`, `PatchText`,
  `UnifiedDiff`). The LCS table and the walk over it yield a shortest edit
  script. The hunks, written out as text and read back by an independent strict
  patch program, turn the current lines into the desired ones.
* **Apply queue** (`ApplyQueue`, `ApplyQueueSections`). The per-tenant scheduler
  as a machine of atomic steps: one loop per tenant, exactly which wakeups are
  honoured, how many Applies an Enqueue can cause, what the listener hears.
* **Management link** (`BigEndian`, `NodePrefix`, `NodeAllocation`,
  `StreamSlots`). 128-bit address arithmetic, the /64 allocator under every
  interleaving of its SQL statements, the takeover protocol of stream slots.
* **CIDR enumeration** (`CidrScan`). In-place increment with wraparound, mask
  membership as interval membership, termination of the scan.
* **Reconciliation** (`RollingUpgrade`, `BindingTokens`, `Teardown`). The
  health-gated upgrade before `tofu apply`, token minting and the enqueues it
  causes, teardown with finalizers under every fault.
* **Resource store** (`ResourceStore`, `OptimisticUpdates`, `SnapshotRestore`).
  The table operations, optimistic concurrency over every interleaving, and the
  export and restore round trip.
* **Derived views** (`ProjectionIndex`, `LineTee`). The index over TF state
  against a linear search, its listing order, and the streaming line splitter
  against the batch one.

`Wrappers` and `Strings` hold the option and result types and the byte order on
strings.

Concurrent components are step functions over a state, and a statement about
"every run" is proved by induction over the sequence of steps. Objects that the
program updates in place are classes, and their methods are proved against those
step functions or against functions of the old contents. SQL tables are maps and
each SQL statement is one atomic step. Timers, tofu, the machine upgrader and
store faults are arbitrary inputs.

## Where the code differs from its own description

* `internal/applyqueue/queue.go:20-26` says a wakeup is never lost. The send
  happens after the mutex is released (lines 212-218), so this holds exactly for
  sends that land before the loop's exit decision (`SendServedIffBeforeExit`).
  `LostWakeup` and `LostForGood` give the other interleaving, and
  `LockedSendNeverLost` shows that sending under the mutex closes it.
* `internal/applyqueue/queue.go:241-245` reports a cancelled Apply as applied.
* `internal/provider/metal/discovery.go:135` promises both addresses of a /31;
  the code returns none (`ExpandCIDR`).
* `internal/mgmtlink/config.go:48-50` accepts prefixes up to /63. Above /48 the
  subnet ID overwrites prefix bits, and a node's /64 can lie outside the
  configured prefix; `InsideIff` says for which indices, and
  `NthEscapesLongPrefix` gives one.
* `internal/projection/index.go:117-120` says a Kind without an extractor gets an
  empty spec. `extractorFor` (lines 184-197) returns a nil function that Rebuild
  calls; the model reports this as `NilExtractor` (`NilExtractorCalled`).
* `internal/projection/index.go:279-285` decodes the `mode` of a TF resource and
  never looks at it: a data and a managed resource of one type and name get the
  same name and the same address, and the later one hides the other
  (`ModesCollide`).
* `internal/reconcile/applier.go:184-241` only logs errors of the cascade and of
  the removal of the secrets, so the tenant row can go while labelled rows or the
  secrets bundle stay behind, and nothing reruns then. `OrphansIff` and
  `SecretsLeftIff` say exactly when; `OrphanLeftBehind` and `SecretsLeftBehind`
  are instances, the latter with success reported.
* `internal/state/store.go:969-980` ignores errors of both AddFinalizer calls. A
  deleting tenant without finalizers, or with a foreign one, is never collected.
  One with the machines finalizer alone is torn down completely and reported as
  an error, since the second removal finds no row (`DestroyTwice`).
  `RerunConvergesIff` says, for every tenant and every fault, exactly when the
  teardown completes.
* `internal/api/machine/diff.go:107-123` starts every range at the next line. For
  an empty range the unified format asks for the line before, so `-1,0` and `+1,0`
  are off by one for a standard patch program. `EmptyRangeIffEmptyFile` shows that
  this happens only when one of the two files is empty.
* `internal/state/store.go:667-701` compares versions but not uids, so an update
  that was read from a deleted incarnation can succeed on its successor
  (`StaleIncarnationOverwrites`); `UpdateReplacesReadIff` says exactly when an
  update keeps its promise.
* `internal/state/store.go:830-883` changes finalizers by a read and an
  unversioned write. `FinalizerWriteKeepsOthersIff` says exactly when no other
  finalizer is lost (`ConcurrentFinalizersLost` is an instance), `CollectedIff`
  exactly when the row is deleted, fresh finalizers included
  (`FreshFinalizerCollected`). `StrandedIff` says, over all actions, exactly when a
  deleting row comes to be without finalizers, `StrandedEndsIff` exactly what ends
  that, and `StrandedForGood` that it lasts when no client holds a read on which
  it could collect the row.

## Model

| member | source | states |
|---|---|---|
| `UnifiedDiff.UnifiedDiff` | internal/api/machine/diff.go:12-130 | for all texts: the output is empty exactly when they agree up to trailing newlines; otherwise it has the two file headers, renders a shortest script, and, read by a strict patch program, turns the current text into the desired one, trailing newlines aside; the `!any` return is unreachable |
| `UnifiedDiff.ShortestScript` | internal/api/machine/diff.go:19-62 | no script with the same effect makes fewer changes, and no common subsequence is longer than the kept lines |
| `UnifiedDiff.AnyChange` | internal/api/machine/diff.go:66-76 | true exactly when some operation is not a context line |
| `UnifiedDiff.WriteDiff` | internal/api/machine/diff.go:88-129 | a script with a change yields non-empty text with at least one hunk |
| `UnifiedDiff.DiffApplies` | internal/api/machine/diff.go:64-129 | the rendered hunks of any correct script apply to the current lines and give the desired lines |
| `UnifiedDiff.AnyDiffApplies` | internal/api/machine/diff.go:64-129 | every text that is a diff of the two files applies and gives the desired lines |
| `TextLines.SplitLines` | internal/api/machine/diff.go:132-138 | no line contains a newline, and the lines joined by newlines are exactly the text up to trailing newlines |
| `TextLines.LinesUnique` | internal/api/machine/diff.go:132-138 | no other list of lines does that |
| `TextLines.SameLinesIffSameText` | internal/api/machine/diff.go:132-138 | two texts have the same lines exactly when they agree up to trailing newlines |
| `TextLines.JoinSplit` | internal/api/machine/diff.go:132-138 | joining the split lines gives the text back |
| `TextLines.SplitJoin` | internal/api/machine/diff.go:132-138 | splitting joined newline-free lines gives the lines back |
| `TextLines.EqualStrings` | internal/api/machine/diff.go:140-150 | true exactly when the two line lists are equal |
| `EditScript.FillTable` | internal/api/machine/diff.go:20-35 | every cell holds the longest-common-subsequence length of its two suffixes |
| `EditScript.Walk` | internal/api/machine/diff.go:37-62 | the script reads as the current file on context and deletions, as the desired file on context and insertions, and keeps as many lines as the table promises |
| `EditScript.NoLongerCommonSubsequence` | internal/api/machine/diff.go:19-35 | the table's number bounds every common subsequence |
| `EditScript.KeptIsSubsequence` | internal/api/machine/diff.go:37-62 | the lines a script keeps are a subsequence of either side |
| `EditScript.CountingChanges` | internal/api/machine/diff.go:37-62 | the number of changes is the two lengths minus twice the kept lines |
| `EditScript.KeepingLcsIsMinimal` | internal/api/machine/diff.go:19-62 | a script that keeps a longest common subsequence is shortest among all scripts with its effect |
| `EditScript.NoChangesMeansEqual` | internal/api/machine/diff.go:67-76 | a script of context lines only means equal files |
| `Hunks.FileLine` | internal/api/machine/diff.go:78-86 | the 1-based file line that operation number `upto` starts at, on the given side |
| `Hunks.CountSides` | internal/api/machine/diff.go:111-122 | the header counts are the lengths of the hunk's two sides |
| `Hunks.GrowRun` | internal/api/machine/diff.go:96-106 | the run is maximal: changes in it are at most six apart and none follows within six lines |
| `Hunks.CutHunk` | internal/api/machine/diff.go:107-123 | starts, counts and body of the hunk around a run with three lines of context |
| `Hunks.GroupHunks` | internal/api/machine/diff.go:90-128 | the hunks are cut around maximal runs, in order, without overlap, with only context between them |
| `Hunks.HunksRebuild` | internal/api/machine/diff.go:88-128 | a patch program that checks every start, count and context line accepts the hunks and produces the desired lines |
| `Hunks.ChangeIsInOneHunk` | internal/api/machine/diff.go:88-128 | every changed operation lies in a hunk, and each hunk ends before the next begins |
| `Hunks.ThreeLinesOfContext` | internal/api/machine/diff.go:64-109 | a hunk reaches exactly three unchanged lines, or to the end of the script, around its changes; its changes are at most six apart and more than six lines precede the next hunk's |
| `Hunks.EmptyRangeIffEmptyFile` | internal/api/machine/diff.go:107-123 | a header range is empty exactly when that file is empty, and then there is one hunk and both ranges start at line 1 |
| `PatchText.WriteHunk` | internal/api/machine/diff.go:123-126 | the text of one hunk |
| `PatchText.Write` | internal/api/machine/diff.go:88-129 | the two file headers followed by every hunk's text |
| `PatchText.ReadHeaderWritten` | internal/api/machine/diff.go:123 | a reader recovers the four numbers of a hunk header |
| `PatchText.ReadBodyWritten` | internal/api/machine/diff.go:124-126 | a reader driven only by the two counts recovers the body and stops where it ends |
| `PatchText.ReadWritten` | internal/api/machine/diff.go:88-129 | reading the rendered text gives exactly the hunks |
| `ApplyQueue.InvStep` | internal/applyqueue/queue.go:195-272 | every step keeps the active map the exact index of the live loops |
| `ApplyQueue.InvAlways` | internal/applyqueue/queue.go:195-272 | that invariant holds in every state of every run |
| `ApplyQueue.OneLoopPerTenant` | internal/applyqueue/queue.go:195-272 | in every run a tenant has at most one live or about-to-start loop and the active map points at it |
| `ApplyQueue.OwesStep` | internal/applyqueue/queue.go:224-262 | a loop that owes an Apply keeps owing it until it starts one or sees cancellation |
| `ApplyQueue.SendServedIffBeforeExit` | internal/applyqueue/queue.go:212-262 | a trigger that lands or is coalesced is followed by an Apply before the loop can exit uncancelled, if and only if it lands before the exit decision and before cancellation is seen |
| `ApplyQueue.SpawnServed` | internal/applyqueue/queue.go:196-210 | the Enqueue that spawns a loop is followed by an Apply of that loop |
| `ApplyQueue.LostWakeup` | internal/applyqueue/queue.go:212-218 | a concrete run in which an Enqueue during an Apply leaves nothing active and nothing pending |
| `ApplyQueue.LostForGood` | internal/applyqueue/queue.go:20-26 | after that run no continuation without a further Enqueue starts an Apply of the tenant |
| `ApplyQueue.LockedSendNeverLost` | internal/applyqueue/queue.go:20-26 | if sends happened under the mutex, every Enqueue would be followed by an Apply before an uncancelled exit |
| `ApplyQueue.CreditStep` | internal/applyqueue/queue.go:195-262 | only an Enqueue adds to the Applies a tenant can still start, and each start uses one up |
| `ApplyQueue.StartsBoundedByEnqueues` | internal/applyqueue/queue.go:195-262 | over any path, starts plus remaining credit stay within initial credit plus Enqueues |
| `ApplyQueue.AtMostOneApplyPerEnqueue` | internal/applyqueue/queue.go:195-262 | in every run a tenant's Apply starts never exceed its Enqueue calls, counted as steps of the run |
| `ApplyQueue.PendingBoundsBegins` | internal/applyqueue/queue.go:191-262 | along any path after the last send to a loop, however many have landed, the loop starts at most one Apply if it is at work or has no trigger pending, and at most two otherwise |
| `ApplyQueue.BurstCostsOneApply` | internal/applyqueue/queue.go:22-26 | any number of sends that land during an Apply are coalesced into at most one further Apply |
| `ApplyQueue.LogStep` | internal/applyqueue/queue.go:205-262 | every step keeps the listener's log in agreement with where the loop stands |
| `ApplyQueue.LogWellPhased` | internal/applyqueue/queue.go:205-262 | in every run a tenant's log is a prefix of (queued (applying (applied or failed))*)*, a cancelled Apply counting as applied |
| `ApplyQueue.ListenerHearsOutcomes` | internal/applyqueue/queue.go:238-245 | in every run "failed" is heard once per Apply that erred and "applied" once per Apply that succeeded or was cancelled |
| `ApplyQueue.StartsEndOrRun` | internal/applyqueue/queue.go:238-245 | in every run every Apply that started has ended or is the one at work |
| `ApplyQueue.ListenerHearsStarts` | internal/applyqueue/queue.go:237-240 | in every run "applying" is heard once per started Apply, or that Apply is about to start |
| `ApplyQueue.StopReachesLoops` | internal/applyqueue/queue.go:180-189 | Stop lets every waiting loop of the current context leave, and a second Stop does nothing |
| `ApplyQueue.DetachedLoopStays` | internal/applyqueue/queue.go:201-208 | a loop spawned before the first Start is never told to leave, in any continuation |
| `ApplyQueue.Restart` | internal/applyqueue/queue.go:159-189 | Start is idempotent and gives a context that is not cancelled, but a loop spawned between Stop and Start gets the cancelled one |
| `ApplyQueue.LoopKeepsContext` | internal/applyqueue/queue.go:201-209 | a loop keeps its tenant and context along every path, and cancellation is for good |
| `ApplyQueueSections.Queue.LookupOrMake` | internal/applyqueue/queue.go:195-212 | the first critical section of Enqueue refines the Lookup step |
| `ApplyQueueSections.Queue.TrySend` | internal/applyqueue/queue.go:213-218 | the non-blocking send refines the Send step |
| `ApplyQueueSections.Queue.Drain` | internal/applyqueue/queue.go:232-236 | receiving the trigger refines the Redebounce step |
| `ApplyQueueSections.Queue.DecideExit` | internal/applyqueue/queue.go:246-259 | the locked exit check refines the Decide step and continues exactly when a trigger was pending |
| `ApplyQueueSections.Queue.ReleaseLoop` | internal/applyqueue/queue.go:264-272 | release refines the Release step, and its guard is always true |
| `CidrScan.IncrementIP` | internal/provider/metal/discovery.go:173-181 | the bytes become the increment of the old bytes |
| `CidrScan.IncrementValue` | internal/provider/metal/discovery.go:173-181 | the increment is +1 modulo 2^(8*len) |
| `CidrScan.ContainsIffInInterval` | internal/provider/metal/discovery.go:160-163 | for a network small enough to scan, mask membership is membership in net..net+2^h-1, 4-in-6 addresses included |
| `CidrScan.ContainsMapped` | internal/provider/metal/discovery.go:160-163 | an IPv4 network contains a 16-byte address exactly when it is IPv4-mapped and its last four bytes lie in the interval |
| `CidrScan.WalkHosts` | internal/provider/metal/discovery.go:155-164 | the walk ends despite wraparound and lists net+1..net+2^h-1 in order |
| `CidrScan.ExpandCIDR` | internal/provider/metal/discovery.go:133-171 | the errors, the single address for h = 0, net+1..net+2^h-2 for IPv4 and net+1..net+2^h-1 for IPv6; in particular an IPv4 /31 yields no address |
| `BigEndian.MaskValue` | internal/provider/metal/discovery.go:160-163 | masking moves an address to the start of its block of 2^(host bits) numbers |
| `BigEndian.SameMaskIffInBlock` | internal/provider/metal/discovery.go:160-163 | two addresses share a masked form exactly when they lie in one block |
| `NodePrefix.PrefixNth` | internal/mgmtlink/store.go:159-172 | an error from /64 on, otherwise the masked prefix with subnet ID n |
| `NodePrefix.PrefixNthAddr` | internal/mgmtlink/server.go:307-318 | the n-th /64 with the last byte set |
| `NodePrefix.InsideIff` | internal/mgmtlink/store.go:159-172 | the n-th /64 lies inside the configured prefix exactly when n is one of the 2^(64-bits) subnet IDs from the base's own |
| `NodePrefix.NthInside48` | internal/mgmtlink/store.go:159-172 | up to /48, the n-th /64 is the masked base plus n*2^64 and inside the prefix, for every n |
| `NodePrefix.NthInjective` | internal/mgmtlink/store.go:159-172 | different indices give different /64s at every prefix length |
| `NodePrefix.NodesDisjoint` | internal/mgmtlink/store.go:159-172 | no address belongs to the /64s of two indices |
| `NodePrefix.ServerOutsideNodes` | internal/mgmtlink/server.go:135 | the server's address is in the 0-th /64 and in no node's |
| `NodePrefix.NthAddrValue` | internal/mgmtlink/server.go:307-318 | the address is that of the n-th /64 plus the last byte |
| `NodePrefix.ServerAddress` | internal/mgmtlink/server.go:135 | up to /48 the server's own address is the masked base plus one |
| `NodePrefix.NthEscapesLongPrefix` | internal/mgmtlink/config.go:48-50 | for an accepted /56 some index yields a /64 outside the prefix |
| `NodeAllocation.NextIndexExact` | internal/mgmtlink/store.go:145-157 | the next index is the number of rows plus one, without wrapping, or the prefix is exhausted at 65535 |
| `NodeAllocation.InvStep` | internal/mgmtlink/store.go:78-157 | every SQL statement and every fault of any concurrent call keeps the table and call invariant, and rows only grow |
| `NodeAllocation.InvAlways` | internal/mgmtlink/store.go:78-157 | the invariant holds after every interleaving |
| `NodeAllocation.IndicesExact` | internal/mgmtlink/store.go:31-41 | after every interleaving the assigned indices are exactly 1..n, each held by one identity, with n at most 65535 |
| `NodeAllocation.AddressNeverChanges` | internal/mgmtlink/store.go:13-16 | no later step changes an identity's index, /64 or stream address |
| `NodeAllocation.AnswersAreFinal` | internal/mgmtlink/store.go:78-132 | what a call returned is what the table holds for the identity, then and after any continuation |
| `NodeAllocation.CallAlone` | internal/mgmtlink/store.go:78-132 | three statements in a row complete a call: a known identity gets its row back with the new key, a new one the next index with its /64 and port, a full table is an error |
| `NodeAllocation.UndisturbedCall` | internal/mgmtlink/store.go:78-132 | after any interleaving, a call that nothing disturbs ends exactly so |
| `NodeAllocation.NodesDoNotOverlap` | internal/mgmtlink/store.go:31-41 | distinct identities hold disjoint /64s, none of them the server's |
| `NodeAllocation.NodesInsidePrefix` | internal/mgmtlink/store.go:159-172 | up to /48 every stored /64 is inside the prefix at base plus index*2^64 |
| `NodeAllocation.PeerStore.ReadNextIndex` | internal/mgmtlink/store.go:145-157 | the maximum query and the increment compute the model's next index |
| `NodeAllocation.PeerStore.Rekey` | internal/mgmtlink/store.go:86-103 | only the public key of the row changes |
| `NodeAllocation.PeerStore.Insert` | internal/mgmtlink/store.go:115-131 | one row is added and the index invariant kept |
| `NodeAllocation.PeerStore.FindOrAllocate` | internal/mgmtlink/store.go:78-132 | a known identity gets its row back with the new key, a new one gets index n+1, a full table is an error, nothing else changes: what the three statements of an undisturbed call do |
| `StreamSlots.InvAlways` | internal/mgmtlink/streamsvc.go:78-100 | in every interleaving the slots hold exactly the unreplaced attached streams |
| `StreamSlots.SlotHoldsLatest` | internal/mgmtlink/streamsvc.go:78-87 | an occupied slot holds the most recently attached stream of its address |
| `StreamSlots.ReplacedNeverTearsDown` | internal/mgmtlink/streamsvc.go:89-100 | a replaced stream neither removes its successor nor emits a disconnect |
| `StreamSlots.ReplacedForGood` | internal/mgmtlink/streamsvc.go:78-87 | a replaced stream stays replaced |
| `StreamSlots.BalanceStep` | internal/mgmtlink/streamsvc.go:78-100 | every step keeps the balance of connects and disconnects |
| `StreamSlots.ConnectsBalanceDisconnects` | internal/mgmtlink/streamsvc.go:78-100 | attaches to an empty slot equal disconnects emitted or pending plus one if the slot is occupied |
| `StreamSlots.StreamService.TakeSlot` | internal/mgmtlink/streamsvc.go:78-87 | the attaching critical section refines the Attach step |
| `StreamSlots.StreamService.GiveUpSlot` | internal/mgmtlink/streamsvc.go:89-100 | the deferred critical section refines the Detach step, and the stream owns the slot exactly when it was not replaced |
| `LineTee.BytesIndexByte` | internal/tfexec/exec.go:378-386 | the first index of the byte, or -1 if absent |
| `LineTee.SplitAppend` | internal/tfexec/exec.go:358-376 | appending text to joined pieces re-splits only the last piece |
| `LineTee.BatchSplit` | internal/tfexec/exec.go:346-376 | the output is its newline-terminated lines, each with the trailing CRs that were trimmed, followed by the rest |
| `LineTee.AppendText` | internal/tfexec/exec.go:358-376 | splitting the leftover plus new bytes continues the batch split |
| `LineTee.TakeLine` | internal/tfexec/exec.go:363-374 | removing the first line removes the first line of the batch split |
| `LineTee.Tee.LogLines` | internal/tfexec/exec.go:363-375 | every complete line of the leftover is logged without trailing CRs, the rest is kept |
| `LineTee.Tee.Write` | internal/tfexec/exec.go:358-376 | log and leftover stay those of everything the sink accepted; on a sink error nothing is logged |
| `LineTee.WriteAll` | internal/tfexec/exec.go:346-376 | for every cutting of an output into writes: all bytes reach the sink, the log is the batch split of the whole, the leftover is the text after its last newline |
| `RollingUpgrade.ListMachinesInOrder` | internal/upgrade/rolling.go:70-87 | the order is the stable permutation of the listed machines with control planes first |
| `RollingUpgrade.OrderUnique` | internal/upgrade/rolling.go:70-87 | there is only one such permutation |
| `RollingUpgrade.OrderByRoles` | internal/upgrade/rolling.go:70-87 | every machine once, every machine with role controlplane before every other, and machines of one kind as listed |
| `RollingUpgrade.RollUpgrade` | internal/upgrade/manager.go:158-229 | for any outcomes: Upgrade then Health over a prefix, at most one more machine and it ends in Rollback unless cancelled before it; Complete means that every machine was upgraded and healthy, Failed that the last call rolled back the machine it stopped at |
| `RollingUpgrade.RunByOutcomes` | internal/upgrade/manager.go:188-229 | in terms of the machines' outcomes: the completed ones were upgraded and healthy, with their two calls; a run is complete exactly if all are; a failed upgrade or health check ends in exactly the two or three calls with that machine's rollback |
| `RollingUpgrade.EveryUpgradeGated` | internal/upgrade/manager.go:158-229 | an upgrade is followed at once by its health check or by the final rollback, and a rollback is always the last call |
| `RollingUpgrade.RunUpgrade` | internal/upgrade/manager.go:265-274 | succeeds exactly when the machines could be listed and every one of them was upgraded and found healthy; the calls are those of a run over the listing |
| `RollingUpgrade.SharedVersion` | internal/reconcile/applier.go:647-663 | non-empty exactly when all listed machines report one non-empty version, and then it is that version |
| `RollingUpgrade.ApplyTenant` | internal/reconcile/applier.go:103-172 | tofu is reached exactly when rendering succeeds and, after uniform version drift, every relisted machine was upgraded and found healthy in control-plane-first order; without drift no machine is touched; success means init and apply both succeeded |
| `ResourceStore.Enqueues` | internal/reconcile/bus.go:36-61 | a status change enqueues nobody; any other change enqueues the tenant itself, or the tenant in the label of any other resource |
| `ResourceStore.Store.CreateResource` | internal/state/store.go:457-493 | succeeds exactly on a free key, at version 1, with one event |
| `ResourceStore.Store.UpdateResource` | internal/state/store.go:667-701 | succeeds exactly at the expected version, replaces spec, labels and annotations and bumps the version; a conflict changes nothing |
| `ResourceStore.Store.UpdateStatus` | internal/state/store.go:704-727 | replaces the status only, without touching the version |
| `ResourceStore.Store.DeleteResource` | internal/state/store.go:730-748 | marks a row that is not yet deleting and keeps it |
| `ResourceStore.Store.RemoveResource` | internal/state/store.go:752-768 | removes the row if present, with one event |
| `ResourceStore.Store.RemoveResourcesByTenant` | internal/state/store.go:779-825 | keeps, unchanged, every tenant row, every row without the label and every row labelled with another tenant; without a fault no other row labelled with the tenant is left, with one exactly the stated number is gone; one DELETED event per removed row in order of removal, and the count, which is 0 on a fault |
| `ResourceStore.Store.AddFinalizer` | internal/state/store.go:830-850 | adds the finalizer once, or fails and changes nothing |
| `ResourceStore.Store.RemoveFinalizer` | internal/state/store.go:854-883 | the last finalizer of a deleting row takes the row with it, with one event, and an error of that delete is swallowed; otherwise only that finalizer goes |
| `ResourceStore.WithoutKeepsAll` | internal/state/store.go:861-866 | removing a finalizer keeps all others with their repetitions |
| `ResourceStore.WithoutConcat` | internal/state/store.go:861-866 | and their order |
| `ResourceStore.Store.DeleteTenant` | internal/state/store.go:969-980 | marks the tenant row, publishes one event and adds the two teardown finalizers, by name, as far as the ignored errors of those calls allow; nothing else changes |
| `OptimisticUpdates.InvAlways` | internal/state/store.go:667-701 | over every interleaving of clients with status, finalizer and deletion writes, a read at the current version saw the current content |
| `OptimisticUpdates.UpdatesFormChain` | internal/state/store.go:667-701 | within an incarnation the version is 1 plus the successful updates, the k-th expected version k+1 and replaced what the one before wrote and what its client read, and the row holds what the last one wrote |
| `OptimisticUpdates.NoVersionUsedTwice` | internal/state/store.go:667-701 | no two successful updates of an incarnation expected the same version |
| `OptimisticUpdates.UpdateSucceedsIff` | internal/state/store.go:667-701 | for every client, whatever incarnation it read: an update succeeds exactly when the row is at the version read, which is one plus the number of commits |
| `OptimisticUpdates.UpdateReplacesReadIff` | internal/state/store.go:667-701 | in every reachable state an update fails or replaces exactly what its client read, if and only if the client read the incarnation that is there or the version differs |
| `OptimisticUpdates.UpdateRecords` | internal/state/store.go:667-701 | a successful update replaces spec, labels and annotations, bumps the version and keeps every other column |
| `OptimisticUpdates.DoUpdate` | internal/state/store.go:667-701 | UpdateResource on the table refines the Update step, and succeeds exactly when that step changes something |
| `OptimisticUpdates.DoAddFinalizer` | internal/state/store.go:830-850 | an undisturbed AddFinalizer is the read and the write in a row |
| `OptimisticUpdates.DoRemoveFinalizer` | internal/state/store.go:854-883 | an undisturbed RemoveFinalizer is the read and the write in a row, the removal of the row included |
| `OptimisticUpdates.OtherWritesKeepContent` | internal/state/store.go:704-883 | status, finalizer and deletion writes keep version, spec, labels and annotations; only a finalizer removal that collects takes the row |
| `OptimisticUpdates.StaleIncarnationOverwrites` | internal/state/store.go:667-701 | a client of a removed incarnation can overwrite content it never read |
| `OptimisticUpdates.ConcurrentFinalizersLost` | internal/state/store.go:830-850 | an instance: of two concurrent additions of finalizers one is lost |
| `OptimisticUpdates.FinalizerWriteKeepsOthersIff` | internal/state/store.go:830-883 | for any state and client, a finalizer write sets its own finalizer as asked and keeps all others if and only if the client's read of the others is still right |
| `OptimisticUpdates.CollectedIff` | internal/state/store.go:854-883 | a removal deletes the row if and only if its client read a deleting row with that one finalizer, whatever was added since |
| `OptimisticUpdates.StrandedIff` | internal/state/store.go:730-883 | over all actions, a row comes to be deleting without finalizers if and only if it is marked while it has none, or its last one is removed on a read from before the mark |
| `OptimisticUpdates.StrandedEndsIff` | internal/state/store.go:752-883 | such a row changes that if and only if it is removed outright, or a finalizer write on a different read collects it or puts finalizers back |
| `OptimisticUpdates.StrandedForGood` | internal/state/store.go:730-883 | in every run without outright removal and finalizer writes, a stranded row that no held read can collect stays stranded, and no later read can collect it |
| `OptimisticUpdates.MarkedTooEarly` | internal/state/store.go:969-980 | a row that is marked before it gets finalizers is stranded at once |
| `OptimisticUpdates.ReadStaysRight` | internal/state/store.go:830-883 | over any run without finalizer writes and removals since the read, the read finalizers are the row's |
| `OptimisticUpdates.UndisturbedFinalizerWrite` | internal/state/store.go:830-883 | in every such run the write loses and revives no other finalizer, and collects only a deleting row whose last finalizer it removes |
| `OptimisticUpdates.FreshFinalizerCollected` | internal/state/store.go:854-883 | a run in which a row is deleted although another client has just added a finalizer |
| `BindingTokens.MintKeysFacts` | internal/reconcile/applier.go:368-384 | every key ends up with a non-empty token, no token is replaced, only binding-token annotations change, and nothing is minted exactly when nothing changes |
| `BindingTokens.MintLoop` | internal/reconcile/applier.go:367-384 | the loop computes the annotations of the specification |
| `BindingTokens.PassAddsTokens` | internal/reconcile/applier.go:356-397 | a pass only adds annotations to node groups, even when it fails half-way or on a version conflict |
| `BindingTokens.PassTouchesOnlyGroups` | internal/reconcile/applier.go:356-397 | rows of no listed node group are unchanged |
| `BindingTokens.ReadyPassIsRead` | internal/reconcile/applier.go:356-397 | a pass over finished node groups only reads |
| `BindingTokens.PassFinishes` | internal/reconcile/applier.go:356-397 | a successful pass leaves every key with a token |
| `BindingTokens.CollectHolds` | internal/reconcile/applier.go:367-384 | a group contributes exactly its keys, each with its annotation, over what was collected before |
| `BindingTokens.PassReturnsTokens` | internal/reconcile/applier.go:356-397 | a successful pass returns exactly the keys of the groups with the non-empty tokens the rows now hold |
| `BindingTokens.AnnotationOf` | internal/reconcile/applier.go:347-350 | the annotation is the prefix and the key with colons and dots as dashes and slashes as underscores |
| `BindingTokens.SecondPassIsNoOp` | internal/reconcile/applier.go:352-356 | with unchanged node groups a second pass returns the same map and writes nothing, whatever it would meet or mint |
| `BindingTokens.PassWritesOnce` | internal/reconcile/applier.go:356-397 | a pass writes a node group at most once, and never a finished one |
| `BindingTokens.FirstPassEnqueuesOnce` | internal/reconcile/bus.go:36-61 | the first successful pass over a labelled node group that lacks a token writes it once and enqueues exactly once |
| `BindingTokens.StepEnqueuesOnce` | internal/reconcile/bus.go:36-61 | every Apply, status and destroy step pays for its enqueues about a node group: one for the missing tokens, one for its deletion, none otherwise |
| `BindingTokens.AtMostOneSelfEnqueue` | internal/reconcile/status.go:82-118 | over any run of Apply passes, status writes and teardowns a node group causes at most one enqueue while it exists, none once its tokens are minted, and at most one more by being deleted |
| `BindingTokens.EnsureBindingTokens` | internal/reconcile/applier.go:356-397 | the pass on the store gives the specified rows and published events, with an error for a missing row, an unreadable spec or a version conflict; on success the map has exactly the keys of the groups, each with the non-empty token on the row of the last group that has it |
| `Teardown.Destroy` | internal/reconcile/applier.go:184-241 | under any faults: if tofu does not succeed only tokens of the tenant's node groups were added and the secrets survive; otherwise the tenant row goes exactly when it is collectable and unhindered, and success is reported exactly when both removals found the row; in every case tenant rows of others, rows without the label and rows labelled with another tenant are unchanged, and after a complete cascade no other row with the tenant's label is left |
| `Teardown.Dismantle` | internal/reconcile/applier.go:220-238 | the steps after tofu: rows after cascade and finalizer removals, secrets and result for every combination of faults |
| `Teardown.TokensLeaveOthers` | internal/reconcile/applier.go:184-241 | minting before teardown leaves other tenants' rows and the set of children unchanged |
| `Teardown.TenantGoneIff` | internal/state/store.go:854-883 | under any faults the tenant row is collected exactly when it has finalizers, only the two that destroy removes, and no fault hinders a removal that is needed |
| `Teardown.FinalizersTouchOnlyTenant` | internal/state/store.go:854-883 | removing the finalizers changes no other row |
| `Teardown.CascadeLeaves` | internal/state/store.go:779-825 | the cascade keeps the tenant row, all rows of others, and leaves children exactly when it stops early |
| `Teardown.CleanTeardown` | internal/reconcile/applier.go:184-241 | after a complete cascade and an unhindered finalizer phase exactly the labelled rows and the tenant row are gone |
| `Teardown.CleanByLabels` | internal/state/store.go:779-786 | a clean teardown keeps exactly the rows other than the tenant's own that are tenants, lack the label or name another tenant in it |
| `Teardown.OrphansIff` | internal/reconcile/applier.go:184-241 | on the end state: the tenant row is gone while labelled rows remain, if and only if the cascade stops early and nothing hinders the collection of the tenant row |
| `Teardown.OrphansOfDeletedTenant` | internal/reconcile/applier.go:220-238 | with the finalizers that DeleteTenant sets: exactly when the cascade is the only thing that fails |
| `Teardown.OrphanLeftBehind` | internal/reconcile/applier.go:220-238 | a concrete tenant whose machine row outlives it |
| `Teardown.SecretsLeftIff` | internal/reconcile/applier.go:230-238 | on the end state: the tenant row is gone while its secrets remain, if and only if their removal fails and nothing hinders the collection of the tenant row |
| `Teardown.SecretsOfDeletedTenant` | internal/reconcile/applier.go:230-238 | with the finalizers that DeleteTenant sets: exactly when the finalizer phase has no fault |
| `Teardown.SecretsLeftBehind` | internal/reconcile/applier.go:230-238 | a concrete tenant whose secrets outlive it, with success reported |
| `Teardown.PhaseAbsorbs` | internal/state/store.go:854-883 | whatever finalizers there are, the finalizer phase after any interrupted one ends where an uninterrupted one ends |
| `Teardown.RerunConverges` | internal/reconcile/applier.go:184-241 | after any faults of cascade and finalizer phase, if the tenant row is still there, another attempt leaves exactly the clean rows, if and only if the tenant carries finalizers and none is foreign |
| `Teardown.RerunConvergesIff` | internal/reconcile/applier.go:103-113 | for every tenant and every fault: what Apply does next, a rerun or nothing, completes the teardown of rows and secrets, if and only if the tenant row is collectable and was not collected by an attempt that left labelled rows or secrets behind |
| `Teardown.RerunIdempotent` | internal/reconcile/applier.go:103-113 | one rerun does all that any number of reruns can do |
| `Teardown.DestroyTwice` | internal/reconcile/applier.go:184-241 | a destroy with arbitrary faults before or after tofu, then one without if the tenant row survived: exactly when rows and secrets end clean, whatever finalizers the tenant carries, and that success is reported exactly when these are not the machines finalizer alone |
| `SnapshotRestore.ExportKind` | internal/backup/service.go:167-187 | one entry per listed row, in listing order |
| `SnapshotRestore.ResourceSnapshot` | internal/backup/service.go:158-187 | exactly the rows of the five kinds that are not pending deletion are exported, each with its spec, status, labels and annotations, kind after kind in name order |
| `SnapshotRestore.SnapshotUnique` | internal/backup/service.go:158-187 | the export is determined by the rows |
| `SnapshotRestore.SnapshotContents` | internal/backup/service.go:158-187 | exactly the rows of the exported kinds that are not pending deletion are exported, unchanged |
| `SnapshotRestore.SnapshotColumns` | internal/backup/service.go:167-187 | the same column by column |
| `SnapshotRestore.SnapshotOnce` | internal/backup/service.go:167-187 | no row is exported twice |
| `SnapshotRestore.RestoreExact` | internal/backup/service.go:264-318 | after a restore every named row has the columns of its last entry, keeps its uid, finalizers and deletion mark and gets a higher version, and every other row is unchanged |
| `SnapshotRestore.RestoreIdempotent` | internal/backup/service.go:264-318 | restoring twice is restoring once, up to versions |
| `SnapshotRestore.SnapshotRestored` | internal/backup/service.go:264-318 | restoring an export onto any store gives every exported row the spec, status, labels and annotations it had, and keeps all others |
| `SnapshotRestore.SameExportSameSnapshot` | internal/backup/service.go:158-187 | stores that list the same content export the same |
| `SnapshotRestore.RestoreThenExportIff` | internal/backup/service.go:158-187 | restoring an export onto any store and exporting again gives the same export, if and only if the store lists nothing else of the five kinds and no exported row is pending deletion in it |
| `SnapshotRestore.RestoreThenExport` | internal/backup/service.go:158-187 | in particular on an empty store |
| `SnapshotRestore.ApplyEntry` | internal/backup/service.go:306-318 | creates the row or replaces its spec, labels, annotations and status; a failed write changes nothing, a failed status write leaves the rest replaced |
| `SnapshotRestore.Restore` | internal/backup/service.go:264-304 | which snapshots are refused, the rows after a restore, the exact half-way rows when the store fails, no change on a dry run, and the same per-type counts either way |
| `SnapshotRestore.RetryCompletes` | internal/backup/service.go:289-302 | a restore that failed half-way touched only exported rows, and repeating it ends where an undisturbed one ends, up to versions and the uids of new rows |
| `ProjectionIndex.ExtractorFor` | internal/projection/index.go:184-197 | the first mapping of the type decides the Kind, and there is none exactly if no mapping names the type |
| `ProjectionIndex.BuildTenant` | internal/projection/index.go:146-172 | the nested loops build the index of every mapped instance, or hit a missing extractor |
| `ProjectionIndex.OriginsAre` | internal/projection/index.go:149-154 | the projected instances are exactly those of the state's resources whose type has a Kind |
| `ProjectionIndex.EntryColumns` | internal/projection/index.go:155-165 | tenant, Kind, name, type, address, extracted spec and serial of an entry, for each form of instance key |
| `ProjectionIndex.Index.Rebuild` | internal/projection/index.go:128-180 | on an error nothing changes, an empty state drops the tenant, otherwise the tenant's entries are replaced by those of the state; other tenants are unchanged |
| `ProjectionIndex.NilExtractorCalled` | internal/projection/index.go:117-197 | one instance of a mapped type without an extractor is enough for Rebuild to call a nil function |
| `ProjectionIndex.FindIsLinearSearch` | internal/projection/index.go:200-213 | the two-level map answers what a linear search of the state answers |
| `ProjectionIndex.Index.Lookup` | internal/projection/index.go:200-213 | the entry under tenant, type and name, if there is one |
| `ProjectionIndex.Index.List` | internal/projection/index.go:218-236 | each entry of the Kind once, nothing else, sorted by address |
| `ProjectionIndex.Gather` | internal/projection/index.go:224-233 | whatever the map order, each selected entry is collected once |
| `ProjectionIndex.Sink` | internal/projection/index.go:347-351 | one round of the insertion sort extends the sorted prefix and keeps the elements |
| `ProjectionIndex.SortByAddress` | internal/projection/index.go:346-352 | a sorted permutation |
| `ProjectionIndex.BuildWellKeyed` | internal/projection/index.go:146-172 | every entry is stored under its own type and name |
| `ProjectionIndex.AllStoredIff` | internal/projection/index.go:146-172 | every instance is stored exactly when no two share type and name |
| `ProjectionIndex.OneEntryPerInstance` | internal/projection/index.go:146-172 | without '-' in mapped resource names, exactly one entry per mapped instance is stored |
| `ProjectionIndex.NameInjective` | internal/projection/index.go:312-324 | without '-' in the resource name, the instance name determines resource and key |
| `ProjectionIndex.DashCollides` | internal/projection/index.go:312-324 | with '-' two instances can share one name |
| `ProjectionIndex.ModesCollide` | internal/projection/index.go:279-285 | a managed and a data resource of one type and name share their address, and only the later one can be looked up |
| `ProjectionIndex.AddressesDistinct` | internal/projection/index.go:296-310 | instances that differ in type, resource name or key have distinct TF addresses |
| `ProjectionIndex.ListingUnique` | internal/projection/index.go:218-236 | two sorted listings of the same entries with distinct addresses are equal |
| `ProjectionIndex.ListDeterminedByState` | internal/projection/index.go:218-236 | after a Rebuild the state alone determines the listing of a Kind: whatever the map order, any two sorted enumerations are equal, names with '-' included |
| `ProjectionIndex.Index.Drop` | internal/projection/index.go:248-253 | only the tenant's entries and serial go |

## Left out

- HTTP handlers, middleware, CLI, templates and WebUI: presentation.
- WireGuard, gRPC, NATS, Talos, Helm and Docker clients: foreign libraries; only the slot and allocation state around them is modelled.
- JWT, OIDC, password and token hashing, AES: cryptography. Fresh binding tokens are arbitrary non-empty strings.
- JSON, YAML and `.tf.json` text: decoded values are modelled. `json.Marshal` of a string is the parameter `quote`, and what `AddressesDistinct` needs of it (injective, starts with a quote) is stated there.
- Timestamps, last-seen updates and metrics.
- The textual form of IP addresses: `ExpandCIDR` returns bytes. The bitwise mask is modelled arithmetically on bytes.
- Management-link prefixes that are IPv4; the address layout is IPv6.
- The peer's outbound queue: it is fetched before the slot is taken and closed after the slot is given up, so nothing is claimed about which queue a live stream holds.
- `Stop` waiting for its goroutines, `Len`, and liveness of the apply queue: runs may stop anywhere. The resync loop is any sequence of Enqueue calls.
- Distinctness of binding tokens per machine: annotation keys flatten several characters and slot keys repeat; `machineKeysFor` is a given list of keys per node group.
- A retry of a failed destroy by resync: default listings skip rows pending deletion and stop at 50 rows. The model speaks of listed machines and listed node groups.
- Teardown.Destroy: assumes that the node groups listed for the tenant carry its label in the table, as the listing query selects them, and that the mint returns non-empty tokens.
- The reload of a row after a write, and the publication of its event, happen in the same step as the write.
- SnapshotRestore.Restore: concurrent writers during a restore are not modelled.
- BindingTokens.AtMostOneSelfEnqueue: writes by other actors between the steps (a user editing a node group) are not part of the runs. Enqueues by events about the tenant row are not counted.
- BindingTokens.EnsureBindingTokens: when another client's update comes between the read and the write of a node group, the model knows the version that was read, not the older annotations.
- Backup retention, the database snapshot, upgrade run records and workdir naming: straight-line reads and writes without an invariant across operations. The enricher and converge engines: independent goroutines with no ordering between them.
- Database errors of single store calls, other than those in `Teardown.Destroy`, `Restore`, `DeleteTenant` and `NodeAllocation`: a failed statement changes nothing.
