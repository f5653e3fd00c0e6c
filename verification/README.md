# Verified models of mori

mori is a SWIM membership library with Lifeguard suspicion. This project states, in Dafny, what its hard parts
compute and proves it for every input, every reachable state or every interleaving:

- `LockHandoff.dfy`, `EventDispatch.dfy`: the context-bounded handoff of the node lock and the event dispatcher with its
  seal, as transition systems with a program counter per goroutine and unboundedly many goroutines. The `Runs` files say
  what every interleaving keeps, the `Serving` files that everybody is served in the end; `EventDispatchLog.dfy` says
  what is in the log of events and when receipts close; `Totals.dfy` adds up work.
- `Membership.dfy`: alive, suspect and dead messages, refutation, timers, reaping, leaving and updating on values.
  `MembershipRuns.dfy`, `MembershipTimers.dfy`: what whole runs keep and what stale timers do.
  `MembershipContents.dfy`: which contents, events and broadcasts each critical section leaves. `MembershipMerge.dfy`,
  `MembershipClosure.dfy`, `MembershipExchanges.dfy`: the push/pull merge, and exchanges interleaved with gossip and
  everything else. `Memberlist.dfy` is the same state machine in place (the slice, the map, the timers and the counter),
  each method proved to do what the values do.
- `Suspicion.dfy`: the suspicion timer.
- `Treap.dfy`: the intrusive treap, pointers and all. `BroadcastModel.dfy`, `BroadcastRuns.dfy`: the broadcast queue as
  a sorted sequence, the greedy packet filler and whole runs. `BroadcastQueue.dfy`: the queue in place.
- `Msgpack.dfy`, `Wire.dfy`: encoders and decoder of the twelve messages. `MsgpackFormats.dfy`, `MsgpackReaders.dfy`:
  the formats of the MessagePack specification, and what skipping and reading make of each. `MsgpackDecoder.dfy`: the
  decoder in place.
- `Compound.dfy`, `Packing.dfy`, `Delivery.dfy`, `Gossip.dfy`: compound framing, checksum, padding, encryption sizes,
  labels, compression, the way back to the handlers, and the packet budget.
- `MannWhitney.dfy`: the exact Mann-Whitney distribution of the benchmark comparison tool.

`dafny verify dfyconfig.toml` checks everything.

## Conventions

- Time, randomness, delegate answers, `Message()` answers, checksums and ciphers are parameters or nondeterministic.
- Incarnations are 32-bit and wrap; where a property fails at the wrap, an if-and-only-if lemma says exactly when.
- Strings in messages are their bytes; `None` is a nil slice.
- `refute` queues its broadcast under the address string, not under the node name, so queue names are unique per
  broadcast key and not per subject.
- The documentation of `less` calls the order of queued entries total; it is so because ids are unique among queued
  entries, which is part of the queue invariant and not a property of `less`.

## Model

| member | source | states |
|---|---|---|
| `LockHandoff.StepKeepsInv` | memberlist.go:732-805 | every step of any call or helper keeps ownership, queue mutex, helper and queue accounting |
| `LockHandoffRuns.RunsKeepInv` | memberlist.go:732-805 | every state of every interleaving of any number of calls and helpers satisfies that invariant |
| `LockHandoffRuns.ExactlyOneOwner` | memberlist.go:732-805 | nodeLock is held exactly when one call, helper or token in flight is accountable for it, and never two; it then has no readers |
| `LockHandoffRuns.OutcomeDecidesOwnership` | memberlist.go:732-779 | a call that returned nil owns the lock alone; one that returned an error owns nothing, has no token and is not queued |
| `LockHandoffRuns.EndedContextIsAnError` | memberlist.go:758-779 | a waiting call whose context ends never returns nil, even when handed the lock at that moment; once returned it holds neither the lock nor a token |
| `LockHandoffRuns.NilMeansNotEnded` | memberlist.go:758-763 | the context of a call that returned nil did not end while it waited |
| `LockHandoffRuns.ErrorMeansEnded` | memberlist.go:737-779 | a call gives up only because its context had ended, before it began or while it waited |
| `LockHandoffRuns.EndedBeforeStart` | memberlist.go:737-739 | a call whose context had ended before it began returns the error and touches no lock, queue or helper |
| `LockHandoffRuns.UnboundedNeverErrs` | memberlist.go:733-736 | a call whose context never ends never queues and never returns an error |
| `LockHandoffRuns.NewcomerCanBarge` | memberlist.go:740-745 | from any reachable state with the lock free, a newcomer can have it at once, ahead of everybody queued |
| `LockHandoffRuns.LeavesQueueOnce` | memberlist.go:732-805 | from the moment it queues a call is in exactly one of the queue and the log of departures, once; when its outcome is decided it has departed, by handoff or by deregistering, and the log only grows |
| `LockHandoffRuns.HandoffIsFifo` | memberlist.go:781-805 | when a waiter is handed the lock, whoever ever stood before it in the queue has departed |
| `LockHandoffRuns.OneHelperServes` | memberlist.go:732-805 | at most one helper that will look at the queue again is live or about to start, `parked` says whether one is, and a non-empty queue always has one or a caller about to start it |
| `LockHandoffRuns.AtMostOneWaits` | memberlist.go:716-731 | when two helpers are alive, one is about to release the lock and exit and the other, its successor, waits for it; there are never three |
| `LockHandoffRuns.TwoHelpersMeet` | memberlist.go:784-805 | a run in which two helpers are alive, so one helper at a time is not what the code guarantees |
| `LockHandoffRuns.ExitsWhenDrained` | memberlist.go:781-805 | a helper that has served the last waiter exits and never waits for the lock again |
| `LockHandoffRuns.HandoffNeverBlocks` | memberlist.go:784-805 | the helper never pops an empty queue and never blocks on a full channel; a handed-over call never waits for its token |
| `LockHandoffServing.DrainedIsClean` | memberlist.go:732-805 | when no step is left but an arrival or a context ending, every call is resolved, both locks are free, nobody is queued and every helper has exited |
| `LockHandoffServing.AllWaitersServed` | memberlist.go:742-747 | every continuation without arrivals in which no context ends is bounded by the work at its start, and at its end every queued call has had the lock |
| `EventDispatch.StepKeepsInv` | events.go:76-168 | every step of producers, dispatcher and shutdown keeps the log, count, wake and receipt invariants |
| `EventDispatchRuns.RunsKeepInv` | events.go:76-168 | every state of every interleaving satisfies them |
| `EventDispatchRuns.NothingLostOrReordered` | events.go:76-168 | delivered ++ in flight ++ queued is the committed sequence, numbered 1, 2, 3, … |
| `EventDispatchRuns.PendingCountsUndelivered` | events.go:76-147 | whenever eventMu is free, eventPending counts queued plus in flight |
| `EventDispatchRuns.NoLostWakeup` | events.go:76-147 | a parked dispatcher with work or a seal has a wake token present or about to be posted |
| `EventDispatchRuns.NothingAfterSeal` | memberlist.go:1286-1313 | once sealed, the committed sequence never changes again |
| `EventDispatchRuns.ExitMeansAllDelivered` | events.go:118-147 | the dispatcher exits only with everything delivered, and it stays so |
| `EventDispatchRuns.ShutdownDrains` | memberlist.go:1286-1313 | when finishShutdown returns, every committed event has been delivered once |
| `EventDispatchRuns.ReceiptsCloseOnce` | events.go:152-168 | a receipt is closed at most once and only after its event was delivered |
| `EventDispatchLog.CommittedAsAppended` | events.go:76-94 | the committed events are, in order and number, those the sections appended: each with the payload of its append, and with the section's receipt exactly when that append attaches it and no earlier one did |
| `EventDispatchLog.SectionCommitsAll` | events.go:76-94 | a finished section has committed every event it asked for |
| `EventDispatchLog.RefusedOnlyAfterShutdown` | state.go:977-987 | a section is turned away only after shutdown |
| `EventDispatchLog.DeliveredReceiptsAreClosed` | events.go:152-168 | the receipt of every delivered event is closed, except at most that of the last while its callback is returning |
| `EventDispatchLog.DrainedClosesReceipts` | events.go:152-168 | when nothing but an arrival is possible, every receipt that was attached has been closed |
| `EventDispatchServing.DeliveryNeverStuck` | events.go:118-168 | unless it has exited, or is parked with nothing to do, the dispatcher can move, or the holder of the mutex it wants can, or somebody about to wake it can |
| `EventDispatchServing.DrainedIsDelivered` | events.go:118-168 | when nothing but an arrival is possible, every section is done and everything committed has been delivered |
| `EventDispatchServing.EverythingIsDelivered` | events.go:76-168 | every continuation without arrivals is bounded by the work at its start, and at its end everything committed has been delivered in commit order |
| `Membership.IPEqualIsEquivalence` | state.go:1088-1090 | addresses are equal exactly when they are the same address in 4- or 16-byte form, which is an equivalence |
| `MembershipRuns.StepKeepsInv` | state.go:997-1381 | every message, expiry, reap, leave and update keeps the slot, timer, local-node and event-log invariants |
| `MembershipRuns.StepCommitsAtMostOne` | state.go:1111-1380 | every critical section commits at most one event and keeps those before it, so its receipt is attached at most once |
| `MembershipRuns.ListenersReachStart` | memberlist.go:174-176 | whatever the listeners learn about other nodes before setAlive, it finds a state that runs may start from |
| `MembershipRuns.RunsKeepInv` | state.go:997-1381 | every state of every run from setAlive, over any peers, timers and events learnt before it, satisfies them |
| `MembershipRuns.EventLogIsFaithful` | state.go:1133-1199 | folding the join, update and leave events gives exactly the names and Meta that Members returns |
| `MembershipRuns.FoldsIffCycles` | state.go:1342-1380 | a log folds exactly when the events of every name are join, update*, leave cycles; the names it folds to are those with an open cycle |
| `MembershipRuns.EventsAreCycles` | state.go:1133-1199 | in any run each node's events are such cycles, open exactly while it is a member |
| `MembershipRuns.TimersMatchSuspects` | state.go:1230-1306 | a name has a timer exactly when its record is Suspect, with that timer's change time |
| `MembershipRuns.ExpiryActsIffCurrent` | state.go:1277-1305 | an expiry marks the node dead when its change time is current and otherwise changes nothing |
| `MembershipTimers.OnlyArmingSuspects` | state.go:1255-1306 | only a suspicion of an alive node, at that very clock value, makes a record suspect since t |
| `MembershipTimers.StaleExpiryChangesNothing` | state.go:1277-1305 | once a timer is not the current one, for whatever reason, its expiry changes nothing at any later point of the run, unless the node was suspected anew at the same clock value |
| `MembershipTimers.ExpiryActsIffHeldThroughout` | state.go:1277-1305 | over any such stretch the expiry marks the node dead exactly when its timer was current all along, and otherwise changes nothing |
| `MembershipTimers.StaleForGood` | state.go:1255-1306 | with a clock that moves between suspicions, a timer that is not current is stale for good |
| `MembershipTimers.SupersededTimerNeedsClockToMove` | state.go:1255-1306 | after an alive message and a new suspicion the old timer is harmless exactly when the clock has moved between the two suspicions |
| `MembershipRuns.RefuteBeatsIff` | state.go:948-972 | the refuting incarnation exceeds the accusation exactly when the accusation is below 2^32-1, and also the old counter exactly when that is too |
| `MembershipRuns.AccusationIsAnswered` | state.go:1241-1246 | an accusation at or above the local incarnation leaves the local record alive at the counter and broadcasts an alive message strictly above it (below the wrap) |
| `MembershipRuns.LocalStaysAlive` | state.go:1141-1161 | until leave, the local record is in the table, alive, at the incarnation counter and with the configured versions |
| `MembershipRuns.PeerBelieves` | state.go:1124-1184 | a peer holding the record at the same address and a lower incarnation becomes alive on the message and drops its timer |
| `MembershipRuns.RefutationWins` | state.go:948-972 | from any reachable state, the answer to an accusation makes any peer that believed it see the node alive above the accusation |
| `MembershipRuns.StepPrecedes` | state.go:1096-1131 | every committed change of a record raises (incarnation, rank) with Alive < Suspect < Dead = Left, except an address takeover of a left or reclaimable dead record, which leaves it alive at the message's incarnation |
| `MembershipRuns.NeverGoesBack` | state.go:1171-1375 | over any stretch of a run without takeover or wrap a record never goes back |
| `MembershipRuns.UpdateKeepsLocalIff` | memberlist.go:848-909 | UpdateNode leaves the local record alive at the counter exactly when the counter is below 2^32-1 |
| `MembershipRuns.LeaveKeepsInv` | memberlist.go:1026-1106 | leaving keeps the invariant and marks the local record dead or left |
| `MembershipRuns.ReapKeepsInv` | state.go:583-604 | reaping keeps the invariant |
| `MembershipContents.AliveIsTakenOver` | state.go:1111-1200 | an alive message that prevails is taken over whole: address, port, metadata, incarnation and versions are the record's, the suspicion ends, a join or update with these contents is told as due, and the very message is passed on; nothing else changes |
| `MembershipContents.AliveIsIgnored` | state.go:997-1131 | any other alive message about another node at most tells the conflict delegate, with both nodes, or leaves a dead placeholder |
| `MembershipContents.SuspicionIsStarted` | state.go:1230-1306 | a suspicion that is news makes the record suspect at its incarnation, arms a timer with the window and confirmations of the cluster size, and is passed on |
| `MembershipContents.SuspicionIsBacked` | state.go:1226-1235 | a suspicion of a suspect goes to its timer and is passed on exactly when it counts |
| `MembershipContents.SuspicionIsIgnored` | state.go:1204-1240 | any other suspicion of another node changes nothing |
| `MembershipContents.DeathIsTakenOver` | state.go:1342-1380 | a death that is news makes the record dead, or left when the node says so itself, at its incarnation; it is told and passed on |
| `MembershipContents.DeathIsIgnored` | state.go:1326-1345 | any other death of another node changes no record |
| `MembershipContents.ExpiryIsDeath` | state.go:1277-1305 | the expiry of a current timer makes the node dead at the suspected incarnation, and passes that on in our name |
| `MembershipContents.UpdateIsApplied` | memberlist.go:848-909 | UpdateNode puts the new metadata at the next incarnation into the local record and nothing else, tells an update exactly when it differs, and announces that record |
| `MembershipContents.StartIsApplied` | memberlist.go:563-599 | setAlive enters the local node with the given address, port and metadata at the next incarnation, tells the join and announces it |
| `MembershipContents.LeaveIsApplied` | memberlist.go:1026-1106 | leaving makes the local record left at its incarnation, tells it and passes it on as its own word |
| `MembershipContents.ReapRemovesExactly` | state.go:583-604 | exactly the dead or left records of longer than the interval go, and the others are untouched |
| `MembershipMerge.MergeIsIdempotent` | state.go:1385-1411 | merging a distinct-name snapshot twice at one instant leaves the same table, timers, confirmations and local incarnation as once, refutations included |
| `MembershipContents.RemoteDeathIsSuspicion` | state.go:1385-1411 | a remote death or suspicion of an alive node only starts a suspicion of our own |
| `MembershipContents.RemoteLeaveIsTaken` | state.go:1385-1411 | a remote leave is taken at its word |
| `MembershipContents.RemoteAliveIsTaken` | state.go:1385-1411 | a remote alive entry that prevails is taken over with its address, port, metadata and incarnation |
| `MembershipContents.MergeNeverKills` | state.go:1385-1411 | merging any snapshot declares nobody dead |
| `MembershipMerge.VerifiedHaveVectors` | state.go:733-837 | with an alive node that refuses nodes without versions, a verified alive entry carries a version vector |
| `MembershipMerge.VectoredMergesAreClosed` | state.go:1385-1411 | merging a verified snapshot whose alive entries carry vectors, or with an alive delegate, leaves a membership that passes verification on its own |
| `MembershipMerge.VerifiedMergesAreClosed` | net.go:1265-1274 | with a local alive node of protocol minimum at least one, merging a verified snapshot leaves a membership that passes verification on its own |
| `MembershipClosure.AlwaysClosedIff` | state.go:733-837 | verified merges into a membership are always closed exactly when there is an alive delegate, or an alive node that refuses nodes without versions, or nobody who may come to take part has versions that clash with having none |
| `MembershipExchanges.AliveKeepsCompatibleIff` | state.go:997-1184 | an alive message keeps a membership compatible, with itself and with a snapshot being merged, exactly when it is not taken over or everybody else gets along with its versions, on both sides, and they with themselves |
| `MembershipExchanges.FamiliarSuits` | state.go:733-837 | versions that an alive member or an alive entry of the verified snapshot already has always do |
| `MembershipExchanges.StepSubdues` | state.go:1204-1381 | no critical section but an alive message brings in a participant or any versions |
| `MembershipExchanges.ExchangesStayCompatibleIff` | net.go:1259-1274 | over any run of exchanges, gossip and everything else, the membership is compatible at every moment, with itself and with what is yet to be merged, exactly when every alive message and entry got along with everybody when it was applied |
| `MembershipExchanges.VerifiedEntriesSuit` | state.go:1385-1411 | an alive entry of a verified snapshot with vectors always does |
| `MembershipExchanges.ExchangesStayCompatible` | net.go:1259-1274 | under the merge lock, with an alive delegate or an alive node that refuses nodes without versions, exchanges never mix the protocols: whatever else comes in between, with gossip that gets along with everybody, the membership passes verification at every moment |
| `MembershipExchanges.LocalIsDemanding` | memberlist.go:563-599 | until it leaves, the instance itself is an alive node that refuses nodes without versions |
| `MembershipExchanges.SideBySideExchangesClash` | net.go:1259-1264 | without the lock it fails: two snapshots that verify against the same table, but whose newcomers do not understand each other, mix the protocols when both are merged |
| `MembershipExchanges.ClashingPair` | net.go:1259-1264 | such newcomers exist for every member that can do more than the protocol it speaks |
| `MembershipExchanges.NewcomerKeepsCompatibleIff` | state.go:977-1131 | gossip about somebody new keeps a membership compatible exactly when all members and the newcomer get along, the newcomer with itself included |
| `MembershipExchanges.GossipIsNotVerified` | state.go:997-1024 | into every membership some alive message that is accepted mixes the protocols |
| `MemberlistState.Memberlist.constructor` | memberlist.go:186-342 | the fresh tables are valid and empty |
| `MemberlistState.Memberlist.NextIncarnation` | state.go:845-847 | the counter moves by one modulo 2^32 |
| `MemberlistState.Memberlist.SkipIncarnation` | state.go:850-852 | the counter moves by the offset modulo 2^32 |
| `MemberlistState.Memberlist.Refute` | state.go:948-972 | in place, the refutation of the model: incarnation beyond the accusation, broadcast under the address key |
| `MemberlistState.Memberlist.AliveNodeLocked` | state.go:997-1200 | in place, what the model does for every branch; nodes stays a duplicate-free permutation of nodeMap with numNodes its length |
| `MemberlistState.Memberlist.AliveNode` | state.go:977-987 | the same, and nothing after shutdown |
| `MemberlistState.Memberlist.SuspectNode` | state.go:1204-1307 | in place, what the model does, including the armed or confirmed timer |
| `MemberlistState.Memberlist.TimerExpired` | state.go:1277-1305 | in place, the model's expiry for the change time the timer was armed with |
| `MemberlistState.Memberlist.DeadNodeLocked` | state.go:1326-1381 | in place, what the model does |
| `MemberlistState.Memberlist.DeadNode` | state.go:1311-1319 | the same, and nothing after shutdown |
| `MemberlistState.Memberlist.MergeState` | state.go:1385-1411 | the loop applies the entries in order as the model does |
| `MemberlistState.Memberlist.VerifyProtocol` | state.go:733-837 | the four accumulators accept exactly when every vector is well formed and everybody alive understands every speaker |
| `MemberlistState.Memberlist.MergeRemoteState` | net.go:1265-1274 | merges exactly the snapshots that verify, and otherwise changes nothing |
| `MemberlistState.Memberlist.ResetNodes` | state.go:583-604 | removes exactly the dead or left records older than the interval, and shuffles the rest |
| `MemberlistState.Memberlist.ClearTimers` | memberlist.go:1301-1304 | no timer is left and nothing else changes |
| `MemberlistState.Memberlist.Shutdown` | memberlist.go:1239-1304 | in place, the model's shutdown: the flag that fences the handlers off, and no timer left |
| `MemberlistState.Memberlist.Start` | memberlist.go:563-599 | the local node is announced at the next incarnation, unless shut down |
| `MemberlistState.Memberlist.UpdateNode` | memberlist.go:848-909 | in place, the model's update |
| `MemberlistState.Memberlist.LeaveNode` | memberlist.go:1026-1106 | in place, the model's leave |
| `MemberlistState.Memberlist.Members` | memberlist.go:974-993 | lists exactly the records not dead or left, each once |
| `MemberlistState.MoveDeadNodes` | util.go:118-137 | permutes in place so that exactly the stale records are at the end, and returns where they begin |
| `MemberlistState.ShuffleNodes` | util.go:96-101 | permutes |
| `Suspicion.Timeout.constructor` | suspicion.go:53-83 | the timer starts at max, or at min when no confirmation is expected |
| `Suspicion.Timeout.ConfirmBy` | suspicion.go:106-133 | in place, the model's confirmation; true exactly for a new confirmer while fewer than k are counted |
| `Suspicion.CountsDistinctConfirmers` | suspicion.go:106-133 | over any run n is the number of distinct confirmers other than the originator, capped at max(k, 0) |
| `Suspicion.FiringTimeInWindow` | suspicion.go:53-133 | the firing time stays within [start+min, start+max], is start+min at the cap, and the timeout runs at most once |
| `Suspicion.ElapsingFiresIffDue` | suspicion.go:53-83 | at any point of a run, time alone fires the timer exactly when the firing time has come, and otherwise changes nothing |
| `Suspicion.CapDecides` | suspicion.go:106-133 | at any point of a run the confirmation that reaches the cap moves the firing time to start+min, or fires at that very moment when that is past |
| `Suspicion.FiringTimeNeverLater` | suspicion.go:106-133 | confirmations never move the firing time later |
| `Suspicion.TimeoutBounds` | suspicion.go:89-100 | the timeout is within [min, max] and is min at n = k |
| `Suspicion.TimeoutShrinks` | suspicion.go:89-100 | the timeout never grows with n |
| `Suspicion.TimeoutFollowsCurve` | suspicion.go:89-100 | the timeout is the share of the window the confirmations leave, to the whole millisecond, and is the minimum only when that share is within a millisecond of it |
| `Suspicion.ConfirmationShortens` | suspicion.go:89-100 | a confirmation worth a millisecond of the window shortens a timeout above the minimum strictly |
| `Suspicion.ConfirmationHastens` | suspicion.go:106-133 | at any point of a run such a confirmation fires the timer or moves the firing time strictly earlier |
| `Treap.SplitCuts` | queue.go:85-95 | splitting cuts the sorted sequence at the key and keeps heap order |
| `Treap.InsertPlaces` | queue.go:67-82 | inserting puts the entry in its sorted place for any priority and keeps heap order |
| `Treap.PlaceSorts` | queue.go:55-63 | the sorted place keeps the order and adds exactly that entry |
| `Treap.MergeConcatenates` | queue.go:98-111 | merging concatenates and keeps heap order |
| `Treap.DeleteRemoves` | queue.go:114-126 | deleting removes exactly that entry and keeps heap order |
| `Treap.Split` | queue.go:85-95 | the relinked pointers have the split shapes, sharing no node |
| `Treap.Insert` | queue.go:67-82 | the relinked pointers have the inserted shape |
| `Treap.Merge` | queue.go:98-111 | the relinked pointers have the merged shape |
| `Treap.Delete` | queue.go:114-126 | the relinked pointers have the deleted shape; the entry is unlinked and keeps its key |
| `Treap.AscendFrom` | queue.go:130-152 | the callback sees the sorted entries not before k, up to the first it refuses |
| `Treap.Descend` | queue.go:155-169 | the callback sees the sorted entries backwards, up to the first it refuses |
| `Treap.Ceil` | queue.go:172-182 | the first sorted entry not before k |
| `Treap.Next` | queue.go:185-195 | the first sorted entry after k |
| `Treap.Min` | queue.go:197-202 | the first sorted entry |
| `Treap.Max` | queue.go:204-209 | the last sorted entry |
| `BroadcastModel.FillIsScan` | queue.go:416-462 | the tier loop, from any point it can reach, is the rest of one greedy pass over the sorted queue |
| `BroadcastModel.OutcomeIsGreedy` | queue.go:396-469 | a call hands out exactly what one greedy pass takes of the entries that fit by recorded and by current length |
| `BroadcastModel.NegativeOverheadComesBack` | queue.go:416-462 | for every overhead below zero there are two entries for which the tier loop comes back and the greedy pass does not |
| `BroadcastModel.FillShares` | queue.go:416-462 | what is taken and what is left share out the queue, for any overhead |
| `BroadcastModel.OutcomeWithinLimit` | queue.go:416-447 | what is handed out never exceeds the limit, overhead included, for any overhead |
| `BroadcastRuns.StepKeepsInv` | queue.go:304-513 | queue, get, prune and reset keep order, distinct ids and names, and conservation |
| `BroadcastRuns.RunsKeepInv` | queue.go:304-513 | every queue of every run satisfies them |
| `BroadcastRuns.CallsAreGreedy` | queue.go:396-469 | in every reachable queue, with lengths as recorded, a call is the greedy pass by message length |
| `BroadcastRuns.EachQueuedOrFinishedOnce` | queue.go:304-513 | every submission is queued, or has had Finished called, exactly once |
| `BroadcastRuns.SentOnce` | queue.go:396-469 | one call sends a queued entry at most once and nothing else |
| `BroadcastRuns.SendsAreBounded` | queue.go:449-461 | with every retransmit limit at most L no submission is sent more than max(1, L) times |
| `BroadcastRuns.SendsAreExact` | queue.go:449-461 | under a constant limit L an entry that leaves the queue by being sent was sent exactly max(1, L) times and is then finished; while queued, fewer times |
| `BroadcastRuns.NamesAreUnique` | queue.go:331-336 | a non-empty name is queued at most once |
| `BroadcastRuns.QueueIsOrdered` | queue.go:49-63 | in every reachable queue, whoever was sent less often comes first, then the longer, then the newer |
| `BroadcastRuns.SubmissionSupersedes` | queue.go:304-361 | a submission leaves exactly the entries it does not supersede, unchanged, and its own: a named one replaces its namesake, a unique one nothing, a plain one the plain ones it invalidates |
| `BroadcastRuns.PruneDropsTheLast` | queue.go:502-512 | pruning leaves exactly that many entries, each preceding every one dropped |
| `BroadcastQueue.TransmitLimitedQueue.AddItem` | queue.go:375-382 | the treap, count and name index gain the entry at any random priority |
| `BroadcastQueue.TransmitLimitedQueue.DeleteItem` | queue.go:365-371 | the treap, count and name index lose exactly that entry |
| `BroadcastQueue.TransmitLimitedQueue.QueueBroadcast` | queue.go:304-361 | in place, the model's submission: victims finished and removed, a fresh entry with the next id |
| `BroadcastQueue.TransmitLimitedQueue.GetBroadcasts` | queue.go:396-469 | returns the messages of the model's outcome; the queue afterwards is the model's; terminates although a round need not advance the tier |
| `BroadcastQueue.TransmitLimitedQueue.Prune` | queue.go:502-512 | keeps the first entries in order and finishes the rest |
| `BroadcastQueue.TransmitLimitedQueue.Reset` | queue.go:485-498 | finishes every entry and starts over |
| `BroadcastQueue.TransmitLimitedQueue.NumQueued` | queue.go:472-476 | the length of the sorted queue |
| `BroadcastQueue.Search` | queue.go:425-436 | ceiling and skip loop stop at the first entry the sorted scan of one round would stop at |
| `Msgpack.UintReads` | internal/msgpack/msgpack.go:93-106 | an encoded unsigned integer followed by anything reads back and leaves what followed |
| `Msgpack.IntReads` | internal/msgpack/msgpack.go:111-133 | so does an encoded signed integer |
| `Msgpack.StringReads` | internal/msgpack/msgpack.go:148-150 | so does a string within the limit |
| `Msgpack.BytesRead` | internal/msgpack/msgpack.go:154-159 | so does a byte slice within the limit, nil and empty kept apart |
| `Msgpack.BoolReads` | internal/msgpack/msgpack.go:85-90 | so does a boolean |
| `Msgpack.KeyReads` | internal/msgpack/msgpack.go:424-445 | so does a key of at most 64 bytes |
| `Msgpack.MapHeaderReads` | internal/msgpack/msgpack.go:327-358 | a map header reads back in both modes when its entries can follow |
| `Msgpack.ReadIntegerExtends` | internal/msgpack/msgpack.go:449-488 | more input does not change an integer already read |
| `Msgpack.SkipExtends` | internal/msgpack/msgpack.go:540-613 | more input does not change what skipping consumed |
| `Msgpack.SkipModesAgree` | internal/msgpack/msgpack.go:540-613 | skipping succeeds in slice mode exactly when it does in stream mode, with the same rest |
| `MsgpackFormats.SkipsAnyValueIff` | internal/msgpack/msgpack.go:540-613 | a value in any format of the MessagePack specification, followed by anything, is skipped exactly, in both modes, when it nests at most 32 deep, and is refused otherwise |
| `MsgpackFormats.SkipUndoesAppend` | internal/msgpack/msgpack.go:82-175 | skipping undoes every encoder |
| `MsgpackFormats.SkipUndoesEncode` | internal/wire/wire.go:203-598 | every message is written as one MessagePack map and is skipped whole |
| `MsgpackFormats.UnknownEntryIsPassedOver` | internal/wire/wire.go:203-225 | an entry under an unknown or overlong key is passed over, whatever value it holds, nested up to 32 deep |
| `MsgpackReaders.IntegerFormats` | internal/msgpack/msgpack.go:449-488 | an integer in any format, signed or not, is read as the number it is, nil as 0, and every other format is refused |
| `MsgpackReaders.UintFormats` | internal/msgpack/msgpack.go:491-503 | a bounded field takes exactly the numbers in its range, in any format |
| `MsgpackReaders.BytesFormats` | internal/msgpack/msgpack.go:386-398 | a string or binary value of any format is read whole up to the limit, nil is absent, and every other format is refused |
| `MsgpackReaders.StringFormats` | internal/msgpack/msgpack.go:401-419 | so for strings, with nil the empty one |
| `MsgpackReaders.KeyFormats` | internal/msgpack/msgpack.go:424-445 | a key of any length is consumed whole and names a field only up to 64 bytes |
| `MsgpackReaders.BoolFormats` | internal/msgpack/msgpack.go:523-535 | exactly true and 1, and false, 0 and nil |
| `MsgpackReaders.MapFormats` | internal/msgpack/msgpack.go:327-358 | a map of any format gives its number of pairs up to 2^31-1, in both modes, nil none, and every other format is refused |
| `MsgpackDecoder.Decoder.ReadByte` | internal/msgpack/msgpack.go:221-235 | advances as the function says |
| `MsgpackDecoder.Decoder.ReadFixed` | internal/msgpack/msgpack.go:238-259 | the shift loop computes the big-endian value of the next n bytes |
| `MsgpackDecoder.Decoder.ReadInto` | internal/msgpack/msgpack.go:272-294 | the growth loop returns the next n bytes; its buffer never exceeds twice the received bytes plus one chunk for lengths up to the exact threshold, for any length that plus what the last growth overshot, nor two and a half times the received bytes plus one chunk |
| `MsgpackDecoder.TwiceIsKeptIff` | internal/msgpack/msgpack.go:268-294 | twice the received bytes plus one chunk is kept throughout a read of n bytes, whatever slices.Grow leaves, exactly when n with its quarter and the rounding is within five chunks |
| `MsgpackDecoder.Decoder.Discard` | internal/msgpack/msgpack.go:297-309 | skips n bytes or reports truncation |
| `MsgpackDecoder.Decoder.ReadMapHeader` | internal/msgpack/msgpack.go:327-358 | reads the count, with the early check in slice mode only |
| `MsgpackDecoder.Decoder.RawLen` | internal/msgpack/msgpack.go:361-381 | reads a str or bin header |
| `MsgpackDecoder.Decoder.ReadBytes` | internal/msgpack/msgpack.go:386-398 | reads bytes within the limit |
| `MsgpackDecoder.Decoder.ReadString` | internal/msgpack/msgpack.go:401-419 | reads a string within the limit |
| `MsgpackDecoder.Decoder.ReadKey` | internal/msgpack/msgpack.go:424-445 | reads a key; longer than 64 bytes is consumed and matches nothing |
| `MsgpackDecoder.Decoder.ReadInteger` | internal/msgpack/msgpack.go:449-488 | reads any integer format |
| `MsgpackDecoder.Decoder.ReadUint` | internal/msgpack/msgpack.go:491-503 | refuses negative and too large values |
| `MsgpackDecoder.Decoder.ReadInt` | internal/msgpack/msgpack.go:506-519 | refuses values out of range |
| `MsgpackDecoder.Decoder.ReadBool` | internal/msgpack/msgpack.go:523-535 | reads true, false, 0, 1 or nil |
| `MsgpackDecoder.Decoder.Skip` | internal/msgpack/msgpack.go:540-613 | consumes one value of any type nested at most 32 deep |
| `MsgpackDecoder.DecodeMessage` | internal/wire/wire.go:203-225 | the entry loop decodes what the function of the whole message says |
| `Wire.NamesAreDistinct` | internal/wire/wire.go:291-305 | every field name is recognised as itself |
| `Wire.CountsFields` | internal/wire/wire.go:278-316 | the count written in each map header is the number of entries that follow |
| `Wire.LimitsAre` | internal/wire/wire.go:203-598 | a writable message is within every decoder limit exactly when its strings and slices are at most a mebibyte, or 64 for a compressed payload; no integer is ever refused |
| `Wire.RoundTrip` | internal/wire/wire.go:203-598 | for all twelve messages with strings and slices of at most a mebibyte (64 for a compressed payload), decoding the encoding followed by anything, in either mode, gives the message back (an empty source address as nil) and leaves exactly what followed |
| `Wire.ReadsBackIff` | internal/wire/wire.go:203-598 | with fields of any length whatever, an encoding reads back exactly when every field is within those sizes |
| `Wire.DecodedReadsBack` | internal/wire/wire.go:203-598 | whatever the bytes, a decoded message is within those sizes, so encoding it again reads back to it |
| `Wire.PrefixesAreRefused` | internal/wire/wire.go:203-598 | every strict prefix of such an encoding is refused in either mode |
| `Wire.DecodeExtends` | internal/wire/wire.go:203-225 | more input does not change a message already decoded |
| `Wire.ModesAgree` | internal/wire/wire.go:203-225 | every byte string decodes in slice mode exactly when it does in stream mode, to the same message and rest |
| `Compound.MakeCompoundMessage` | util.go:205-219 | the two loops build the packed form |
| `Compound.DecodeCompoundMessage` | util.go:224-258 | the two loops compute the parts and the number truncated |
| `Compound.ReadsBackIff` | util.go:205-258 | a compound message reads back exactly when it has at most 255 parts of at most 65535 bytes |
| `Compound.TooManyAreLost` | util.go:205-219 | 256 messages packed together read back as none, whatever they are |
| `Compound.TruncationKeepsTheWhole` | util.go:224-258 | a compound message cut short after its lengths gives exactly the parts that are whole and the number of those missing |
| `Compound.TruncatedLengthsRefused` | util.go:224-238 | one cut short within its lengths is refused |
| `Compound.MakeCompoundMessages` | util.go:189-200 | the loop packs the messages in groups of 255 |
| `Compound.SplittingIsLossless` | util.go:189-258 | the split form delivers exactly the messages, in order, however many there are |
| `Packing.LabelReadsBackIff` | label.go:24-66 | removing the label undoes adding it exactly when there is one or the bare packet does not start with 244; the overhead is exact |
| `Packing.LabelFoundIff` | label.go:37-66 | a packet is read as having a label exactly when that label was added to the rest |
| `Packing.Pkcs7Encode` | security.go:41-47 | the loop appends the padding |
| `Packing.PaddingReadsBack` | security.go:41-61 | unpadding undoes padding, which fills whole blocks with 1 to 16 bytes |
| `Packing.UnpaddedIff` | security.go:52-61 | unpadding accepts exactly a last byte of 1 to 16 within the buffer, and drops that many |
| `Packing.SealedSize` | security.go:64-121 | encryptedLength is the exact size, within encryptOverhead, and opening undoes sealing |
| `Packing.OpenedWasSealed` | security.go:139-168 | with a cipher that authenticates, whatever opens was sealed, under its own version byte, nonce and data, and has at least 29 bytes, or 45 for version 0 |
| `Packing.ChecksumReadsBack` | net.go:801-809 | checking undoes summing, at five bytes |
| `Packing.CheckedIff` | net.go:345-355 | a message is read exactly from its summed form, or bare when it does not look summed |
| `Packing.WrappedSize` | net.go:768-825 | checksum, worst-case padding, encryption and label cost at most what senders reserve |
| `Packing.WrappedExactly` | net.go:768-825 | the size of a wrapped message is what senders reserve less the checksum not added and the padding not needed |
| `Packing.ReserveIsTight` | net.go:768-825 | summed, and with whole blocks under version 0, it is exactly what they reserve |
| `Packing.ArrivesIff` | net.go:300-356 | a packet delivers the message that was wrapped exactly when the bare message cannot be taken for a wrapper that was not added |
| `Gossip.GetBroadcasts` | broadcast.go:75-104 | our messages, then the delegate's framed ones in what is left |
| `Gossip.CollectedInBudget` | broadcast.go:75-104 | with a compliant delegate both together keep to the limit |
| `Gossip.GossipTo` | state.go:631-660 | collects, packs and wraps; every packet is within packetBufferSize |
| `Gossip.GossipInBudget` | state.go:631-660 | whatever fits the gossip room is within packetBufferSize once packed, compressed only if smaller, and wrapped |
| `Delivery.DecompressUndoes` | util.go:291-345 | decompressing undoes compressing whenever the result is used, through the wire envelope |
| `Delivery.ShortcutIsFree` | util.go:260-266 | not compressing messages of up to 22 bytes loses nothing: what goes out is the smaller of the message and its compressed form, whatever the length |
| `Delivery.LongerCouldShrink` | util.go:260-266 | with 23 bytes the bound on LZW no longer rules out a gain, and one is used |
| `Delivery.PartsNeverMultiply` | net.go:373-507 | inside a compound each part comes to at most one handled message |
| `Delivery.CompressionIsTransparent` | net.go:723-733 | compressed or not, the same messages are handled |
| `Delivery.PacketDelivers` | net.go:768-825 | wrapped and compressed or not, a message is handled as it would be bare |
| `Delivery.CompoundDeliversIff` | net.go:369-507 | a compound delivers its parts in order exactly when there are at most 255 |
| `Gossip.GossipIsLossless` | state.go:631-660 | with packets of at most 65535 bytes and any compliant delegate, the packets of a round, compressed, sealed, summed and labelled or not, deliver exactly the collected messages, in order |
| `Gossip.UserMessagesArrive` | net.go:369-507 | the user handler gets exactly the delegate's messages, byte for byte and in order, and nothing of ours |
| `Gossip.AliveReachesItsHandler` | net.go:478-492 | an alive message reaches the alive handler, which decodes the very message |
| `Gossip.GossipRoomIsTight` | state.go:631-660 | messages that use up the gossip room make, wrapped in the worst case, exactly packetBufferSize |
| `Gossip.SendMsg` | net.go:742-764 | the message with what fits on its back; within packetBufferSize whenever something does |
| `Gossip.PiggybackInBudget` | net.go:742-764 | a message with others on its back is within packetBufferSize |
| `Gossip.SendRoomIsTight` | net.go:742-764 | what uses up the room on the back of a message makes, wrapped in the worst case, exactly packetBufferSize |
| `Gossip.PiggybackIsLosslessIff` | net.go:756-763 | what sendMsg sends delivers the message and everything on its back exactly when these are at most 255 together |
| `Gossip.ChattyDelegateLosesAll` | net.go:756-763 | a compliant delegate with 255 one-byte messages makes sendMsg lose the message and everything on its back |
| `Gossip.AliveNoLongerThanWorst` | memberlist.go:698-706 | the encoded length is monotone: no alive message of the node is longer than the worst case checked |
| `Gossip.MetaFitsIff` | memberlist.go:671-714 | validateMetaMaxSize passes exactly when every alive message the node might send fits a gossip packet on its own |
| `Gossip.OwnAliveAlwaysFits` | memberlist.go:671-714 | a node that passed validateMetaMaxSize can always fit its own alive message in a gossip packet |
| `MannWhitney.UCountsPairs` | tools/benchcmp/main.go:103-122 | U of an arrangement is the number of pairs with the x above the y |
| `MannWhitney.ArrangementsAreAll` | tools/benchcmp/main.go:140-175 | the arrangements counted are exactly those of n1 x and n2 y items |
| `MannWhitney.WaysByLargest` | tools/benchcmp/main.go:140-175 | the recurrence of the table holds for the count of arrangements |
| `MannWhitney.WaysSum` | tools/benchcmp/main.go:140-175 | the entries sum to C(n1+n2, n1) |
| `MannWhitney.WaysSymmetric` | tools/benchcmp/main.go:140-175 | the entries are symmetric about n1*n2/2 |
| `MannWhitney.NextTable` | tools/benchcmp/main.go:148-163 | one round of the dynamic programme fills the table for one more x |
| `MannWhitney.Distribution` | tools/benchcmp/main.go:140-164 | the final row is the number of arrangements with each U |
| `MannWhitney.ExactU` | tools/benchcmp/main.go:140-175 | the p-value is the share of arrangements at least as far from the centre |
| `MannWhitney.RankSum` | tools/benchcmp/main.go:103-122 | twice the u of the ranking loop is the pair score, ties counting half, and ties are detected exactly |
| `MannWhitney.ScoreIsTwiceU` | tools/benchcmp/main.go:103-122 | without ties the loop's u is the pair count of the sorted arrangement |
| `MannWhitney.PValue` | tools/benchcmp/main.go:86-137 | the exact branch is taken exactly for small untied samples and gives the share of arrangements; empty samples give 1 |

## Left out

- AES-GCM, CRC32 and LZW internals: only sizes, that opening undoes sealing and expanding undoes squeezing, for
  OpenedWasSealed that only what was sealed opens, and for ShortcutIsFree the bound on LZW codes that the source states.
- Several installed keys: one cipher stands for the first that authenticates.
- Floating-point logarithms of suspicion timeouts, retransmit limits and push/pull scaling: an arbitrary curve that is
  0 at n = 0, 1 at n = k and monotone, and arbitrary limits.
- Transports, streams, DNS, address resolution, stream labels, probe waits, ack channels and TCP fallback: input and
  output.
- goroutine ids, callback nesting markers and re-entrant shutdown: runtime detection.
- awareness, keyring, netaddr, config, metrics and logging: clamps, lists and wrappers that would add easy members.
- The normal approximation, its tie correction, float rounding and the sort in mannWhitney: floating point; the sorted
  list is an input.
- Before a successful setAlive a remote claim to the local name takes another path: runs start at a setAlive that
  finds no record under the local name.
- EventDispatchRuns.ReceiptsCloseOnce: a critical section is any sequence of events of which at most one has its
  receipt; that a section commits at most one event at all is StepCommitsAtMostOne, on the membership model.
- MembershipRuns.StepKeepsInv: assumes an update finds the incarnation counter below 2^32-1; UpdateKeepsLocalIff shows
  that this is exactly when an update keeps the local record at the counter.
- MembershipRuns.StepPrecedes: assumes the counter and the claim below 2^32-1 on a step that makes the local node
  count up, for the same reason.
- BroadcastModel.OutcomeIsGreedy: stated for overhead at least 0, because for every negative one
  NegativeOverheadComesBack shows that it fails; the limit, sharing and termination hold for any overhead.
- BroadcastQueue.TransmitLimitedQueue.Prune: takes a non-negative limit; with a negative one the source dereferences
  nil.
- BroadcastQueue.TransmitLimitedQueue.QueueBroadcast: needs an id below 2^63-1, which the source takes for granted.
- Treap.AscendFrom: the callback is a pure predicate and the result is the list of nodes it saw; effects of the
  callback are in the methods that use the list.
- MsgpackDecoder.Decoder.ReadInto: slices.Grow may overshoot by a quarter plus a fixed rounding; a stream is the
  finite sequence of bytes it will deliver, and an I/O error other than end of input is not modelled.
- Wire.RoundTrip: for fields of at most a mebibyte (64 for a compressed payload); ReadsBackIff shows that this is
  exactly when an encoding reads back.
- Gossip.GossipIsLossless: for queued messages that start with a type a handler takes, as all of ours do; handling
  ends where the message reaches its handler.
- MemberlistState.Memberlist.MergeRemoteState: the advisory first check and the merge delegate are not modelled, and
  the method merges without interruption; what holds when other handlers run between the entries is in
  MembershipExchanges.
- MembershipClosure.AlwaysClosedIff: for a membership that passes verification and has no record at incarnation
  2^32-1, which no alive message can revive.
- MembershipExchanges.ExchangesStayCompatible: assumes gossip that gets along with everybody;
  ExchangesStayCompatibleIff and AliveKeepsCompatibleIff show that this is exactly what it takes.
