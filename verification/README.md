# pxd: request lifecycle, failover, suspend ledger and byte iterator, verified

This project models the hard core of the pxd kernel block driver in Dafny and proves properties of it over
every input, every run and every interleaving. The driver takes block IO and either forwards it to a userspace
daemon over a FUSE-style queue (the slowpath) or sends clones of it straight to up to three backing files or
devices (the fastpath). Four state machines carry the risk:

1. **FUSE requests and their ids** (`dev.c`). 2^18 slots, a global stack of free ids, per-CPU stacks of at most
   256, ids of 64 bits whose high bits count generations, a request map indexed by slot, a pending and a
   processing list; senders on any number of CPUs, a daemon that reads, replies, dies and comes back, and a
   timeout that aborts. `FuseIds`, `FuseProtocol`, `FuseSafety`, `FuseTheorems`, `FuseOutcomes` for who ends
   with which status and when requests are taken, and `FuseStray` for replies the daemon should not send; the in-place code on arrays and lists is `FuseConnection`, the batched read `FuseRead`,
   zero-write detection `ZeroWrites`.
2. **Fan-out, failover and reissue** (`pxd_bio_makereq.c`, `pxd.c`). Clones complete in any order; the last one
   reconciles the status; -EIO parks the IO until a marker has made a round trip through userspace. `Fanout`,
   `FailoverProtocol`, `FailoverSafety`, `FailoverTheorems`, `FailoverOutcomes`, `FailoverStranding`, `FailoverUnits`; in place:
   `FailoverDevice`.
3. **The suspend ledger, routing and file handles** (`pxd_fastpath.c`, `pxd.c`, both bio files). `FastpathLedger`,
   `Routing`; in place: `FastpathDevice`.
4. **The scatter/gather iterator and PXD_READ_DATA** (`iov_iter.c`, `dev.c`). `IovIter`, `ReadData`.

A protocol is a datatype of state, a datatype of steps, `Enabled` and `Apply`; a run is a legal sequence of
steps. A step is what the driver does under one lock, with one atomic, pinned to one CPU, or inside one RCU read
section. Where the driver changes fields in place, a class has the same fields, and its methods are proved against
the protocol steps, the ledger operations or the byte and list functions they stand for. Outcomes of the kernel, the
block layer and user memory (faults, allocation failures, flush results, completion statuses) are parameters.

`dafny verify dfyconfig.toml` checks everything.

## What does not hold, and exactly when it does

- *A parked IO can be left behind.* A failover worker that finds the switch taken returns success without taking
  over the parked IO, a control-started failover that fails gives up without aborting the fail queue, and a
  marker that comes back after a reset loses its compare-and-swap. `StrandsExactly`: from any state of any run,
  a step strands a parked IO if and only if something is parked, the step is one of these, and nobody else is
  under way. `FallbackStrands`, `FailedControlStrands` and `ResetStrands` are runs that get there;
  `NobodyLeftBehind` covers all runs without resets, fallbacks and such failures.
- *The suspend count can hold a unit nobody owns.* A failover whose marker cannot be allocated calls the
  application's resume instead of the internal one (pxd.c:955). `PlainStepExactly`: the plain ledger breaks exactly
  there, and heals exactly at a reset or at a cleanup that takes that unit; `PlainLedgerExactly`: it holds if and only
  if no such unit is held. `LeakedUnit` and `LeakedUnitDropsTheApplication` are runs.
- *Interleaving can orphan a unit, or release one twice.* `AccountedExactly`: a step unsettles the count if and only if
  it is that failover, a marker that comes back to a switch given up under it, or a reset that takes a unit from the
  count. `ResetOrphansUnit` is a run that ends with a unit nobody releases, `ResetOverdraws` one that ends at -1.
- *A cleanup can release somebody else's unit* and the count then falls below zero (`StolenUnit`).
  `CoveredExactly`: every owner keeps its unit throughout a run if and only if no cleanup is issued while suspend is
  positive and at most the application's and the switch's units.
- *A reset does not always clear the count.* `ResetCleans`: after any operations it does if and only if the count covers
  the application; after a cleanup that took the application's unit it ends at -1 (`ResetAfterTheft`).
- *A marker that comes back after a reset can finish somebody else's switch* (`LateMarkerWins`).
  `LateMarkerExactly`: it changes nothing if and only if no switch is active when it returns.
- *Path changes can happen under running submitters*: on blk-mq in a suspension that began before the disk existed,
  whose queue was never quiesced (`SuspendedBeforeDisk`, `ExposedUpdate`), and on either variant once the count is
  below zero (`StolenUnitExposes`). Each control method says exactly when it makes one; a make-request device whose
  count covers its owners never does (`Kept`); `RoutingExactly` says what that means for submitters.
- *Replies can hit a request that its sender has not queued yet, that a read is still copying, or that is being ended.*
  `SafeExactly`: a step keeps the invariant if and only if it is no such reply, with these exceptions: a reply whose
  payload faults does no harm before the request is queued, nor to the request a read is at if the read has read its
  link already, nor to the last of a batch if the read is at it or its next link leads there; and a reply to a request
  in the middle of a batch that the read has not come to only makes the read pass it by. `EndedTwice`, `EndedUnderReader` and `QueuedAfterItsEnd` are runs.
- *A reply whose payload faults takes its slot out of circulation*: no abort ends that request (`DetachedStaysOut`);
  only a read that was still copying it can, by failing to (`UnheldStaysOut`).
- *A batched read whose first pass copies nothing across* adds later bytes to -EFAULT and returns 14 too few
  (`ShortRead`). `ReturnsBytesCopiedExactly`: the value is the bytes copied if and only if one of the pending requests
  that fitted at the start could be copied; `ReturnsShortExactly` says what it is otherwise.
- *PXD_READ_DATA delivers bytes past a segment's end* when a batch of iovecs runs out inside a segment.
  `NotifyReadData`: it succeeds exactly when every batch needed is announced, present and large enough, and then the
  bytes are the right ones if and only if the batches run out between segments. `MisalignedTransfer` is one that
  succeeds with a byte past the segment.
- *Ids repeat* once a slot has gone through all its generations; `IdsDistinctExactly` says they are distinct
  exactly until then. Slot 0 has one generation fewer, since id 0 is never issued.
- *The two bio variants reconcile differently* (`VariantsCompared`, `VariantsDiffer`).
- *The exemption of flush and FUA writes from zero detection* never spares a request while detection is on,
  because the request was already converted when it was built (`SyncExemptionNeverApplies`).

`switch_uid` is read before the id is assigned (pxd.c:929-930), so it is always 0 and a reset never finds the
marker; the reset modelled here takes that branch.

## Model

| member | source | states |
|---|---|---|
| FuseIds.NextId | dev.c:154-165 | the id handed out is never zero and keeps its slot, across 64-bit wrap too |
| FuseIds.NextIdOrbit | dev.c:154-165 | the k-th id of a slot has a closed form: the generation counts up modulo its period |
| FuseIds.IdsRepeatExactly | dev.c:154-165 | two issues carry the same id if and only if they are of one slot, a whole number of periods apart |
| FuseIds.MaskIsRemainder | dev.c:188-190 | the mask that computes a slot is the remainder modulo the number of slots |
| FuseIds.TakeRemoves | dev.c:132-153 | taking an id, refill included, removes one occurrence of its slot from the pool and of no other, and keeps the stack bounds |
| FuseIds.GiveAdds | dev.c:167-188 | giving an id back, spill included, adds one occurrence of its slot and of no other, and keeps the stack bounds |
| FuseIds.SumLenBounds | fuse_i.h:137-146 | the per-CPU stacks together hold at most the given one plus 256 for each other CPU |
| FuseIds.TakeUndoesGive | dev.c:132-193 | the next id taken on a CPU is the last one given back there, and the pool is as before but for a spill |
| FuseIds.RefillsExactly | dev.c:142-151 | any number of gets in a row on one CPU go to the global stack once for every 128 ids beyond those on the CPU's own stack |
| FuseIds.SpillsExactly | dev.c:175-184 | giving back any number of ids goes to the global stack once for every 128 ids beyond those the CPU's own stack has room for |
| FuseSafety.StepKeepsInv | dev.c:132-269 | every step keeps the whole invariant: slots partitioned among stacks and outstanding requests, map exact, ids current, lists exact, history exact, submission order; replies and read faults count as steps while their request is there and no thread is deprived of it, and FuseStray.SafeExactly says that exactly the other replies break it |
| FuseSafety.EveryRunIsSafe | dev.c:132-269 | the invariant holds after every run, on any number of CPUs, of send, read, reply, restart and abort steps; runs with stray replies, readers included, are FuseStray.EveryRunSafeExactly |
| FuseSafety.ReachableStep | dev.c:1161-1210 | states of runs are closed under steps, so the in-place code stays among them |
| FuseTheorems.PoolNeverEmpty | dev.c:142-152 | the empty-pool assertion cannot fire while outstanding + 256*(CPUs-1) is below the number of slots |
| FuseTheorems.SpillAlwaysFits | dev.c:175-188 | per-CPU stacks hold at most 256 ids and the spill assertion never fires |
| FuseTheorems.IdsDistinctExactly | dev.c:154-165 | all ids ever issued are nonzero, and pairwise distinct if and only if no slot was issued more often than it has generations |
| FuseTheorems.FindExact | dev.c:585-598 | the lookup finds a request if and only if it is outstanding, stored, and carries that very id |
| FuseTheorems.ReplyNeverMisdirected | dev.c:585-598 | until a slot wraps, a reply finds the request its id was issued to or nobody; a finished request's id finds nobody |
| FuseTheorems.LateClearIsHarmless | dev.c:188-193 | the late clear of the map entry leaves every other stored request findable |
| FuseTheorems.QueueStep | dev.c:195-198 | sending appends to processing ++ pending, ending or detaching a request takes that one out, every other step (reading and restarting included) leaves it unchanged |
| FuseTheorems.OrderAcrossRestarts | dev.c:1271-1278 | processing ++ pending is the submission order restricted to the listed requests, in every run with restarts |
| FuseTheorems.AbortNeverStuck | dev.c:1130-1149 | while the abort drains, one of its own steps is always possible |
| FuseTheorems.DrainStep | dev.c:1130-1149 | while the abort drains, only its own steps touch the lists, and each reduces the remaining work by one |
| FuseTheorems.AbortDrains | pxd.c:2441-2461 | in every interleaving with senders the abort ends after one step per listed request and two more, both lists empty, every listed request ended with -ECONNABORTED |
| FuseTheorems.EndedOnce | dev.c:216-234 | in every run without stray replies each request is ended at most once; FuseStray.EndedTwice and FuseStray.EndedUnderReader are runs with one |
| FuseTheorems.LaterSendsRefused | dev.c:255-268 | after the abort, until the daemon opens again, nothing is queued and every later request ends with -ENOTCONN; when requests are taken is FuseOutcomes.RequestsOutliveDaemon |
| FuseTheorems.OutstandingAfterAbort | dev.c:1130-1149 | when the abort is done, only requests that have not passed the flag check, detached ones and ids on their way back are outstanding |
| FuseTheorems.DetachedStaysOut | dev.c:1058-1071 | a detached request keeps its slot through aborts and restarts until a complete reply with its id, or the fault of a read that was still copying it |
| FuseOutcomes.ReplyEndsWithStatus | dev.c:1067-1069 | a complete reply that finds a request ends that request with the status the reply carries; one that finds none ends nothing |
| FuseOutcomes.StepEnds | dev.c:216-234 | each step ends exactly what it is a reason for: a refused send with -ENOTCONN, a faulted copy with -EIO, the abort's next request with -ECONNABORTED, a complete reply's request with its status |
| FuseOutcomes.EndedExactly | dev.c:216-269 | after any run a request is recorded as ended with a status if and only if some step of the run was a reason for it |
| FuseOutcomes.FlagsFollowRun | pxd.c:2386-2451 | after any run the connection is open iff it was opened and not released since, and lets requests wait iff nothing aborted since the last open |
| FuseOutcomes.RequestsOutliveDaemon | pxd.c:2411-2430 | from a new context or an open on, through any number of releases and opens, until an abort: no send is refused, and every stored request can be let in and is queued behind all others |
| FuseOutcomes.NobodyRefused | dev.c:255-268 | in such runs no step refuses a request, and nobody ends with -ENOTCONN unless the daemon replies with it |
| FuseStray.TameStep | dev.c:216-269 | with senders, readers and enders as threads of their own, every step but a stray reply is the protocol's step, or none, and leaves every thread with its requests |
| FuseStray.SafeExactly | dev.c:1047-1075 | a step keeps the invariant, every sender, reader and ender with its requests and every reader on its way to the last of its batch, if and only if it is no stray reply: none to a request being ended, no complete one to a request not queued yet, and only those that every reader bears to a request still being read |
| FuseStray.EveryRunSafeExactly | dev.c:1047-1075 | the same for whole runs of a new connection; without stray replies its states are the protocol's |
| FuseStray.EndedTwice | dev.c:473-478 | a run in which a request whose copy faulted is answered before its id is back: ended twice |
| FuseStray.EndedUnderReader | dev.c:458-481 | a run in which a request is answered while a read copies it and the copy then faults: ended twice, its id on the free stacks twice |
| FuseStray.ReplyUnderReader | dev.c:470-480 | a complete reply to the request a read is at is stray, and so is one that faults before the read has read its link, unless it is the last of its batch |
| FuseStray.UnheldStaysOut | dev.c:1058-1071 | a detached request that no read holds is moved by nothing but a complete reply with its id |
| FuseStray.QueuedAfterItsEnd | dev.c:246-260 | a run in which a request is answered before its sender queues it: on the pending list for good, its id free |
| FuseConnection.IdPool.constructor | dev.c:1184-1202 | fills the arrays so that they stand for the initial pool |
| FuseConnection.IdPool.TakeBatch | dev.c:142-151 | the copy loop moves the top of the global array to the CPU's row: the abstract refill |
| FuseConnection.IdPool.Get | dev.c:132-165 | pops and bumps an id as the abstract take and NextId say |
| FuseConnection.IdPool.GiveBatch | dev.c:175-184 | the copy loop moves the upper half of a full row to the global array: the abstract spill |
| FuseConnection.IdPool.Put | dev.c:167-193 | pushes an id as the abstract give says |
| FuseConnection.Connection.constructor | pxd.c:2465-2483 | a new context's connection is in the protocol's initial state: every id free, not open, requests allowed to wait |
| FuseConnection.Connection.RequestFind | dev.c:585-598 | reads the map entry of the slot and compares the whole id: the abstract lookup |
| FuseConnection.Connection.PutUnique | dev.c:167-193 | is the protocol's put step, map entry included |
| FuseConnection.Connection.UnlinkAndEnd | dev.c:216-234 | takes the request off its list and ends it, as the protocol's ending steps say |
| FuseConnection.Connection.GetUnique | dev.c:132-165 | is the protocol's get step |
| FuseConnection.Connection.StoreInMap | dev.c:241-254 | is the protocol's store step |
| FuseConnection.Connection.AdmitAndQueue | dev.c:255-262 | is the admit and the enqueue step |
| FuseConnection.Connection.SendNowait | dev.c:241-269 | does get, store and then queue, or reject and put, depending on the connection |
| FuseConnection.Connection.AnswerFaulted | dev.c:1058-1071 | a reply whose payload cannot be copied takes the request off its list, if it is on one, ends nothing, and changes nothing else |
| FuseConnection.Connection.Answer | dev.c:950-979 | a complete reply ends the request it found, whatever its phase, with the reply's status, and returns its id |
| FuseConnection.Connection.DoWrite | dev.c:1047-1075 | return code for bad status, unknown id, closed connection, fault and success, each with the whole new state, for every request the id finds; exactly a complete reply ends its request, with its own status; an orderly reply leaves a state of some run |
| FuseConnection.Connection.MoveBatch | dev.c:453-455 | the cut and splice of a read is the protocol's move |
| FuseConnection.Connection.ScanPending | dev.c:434-447 | the scan counts the longest prefix of pending that fits |
| FuseConnection.Connection.ReadPass | dev.c:434-481 | a pass takes the longest prefix of pending that fits, and is a legal run of the protocol: the move, and fault and put for each request that cannot be copied |
| FuseConnection.SoundIsCopied | dev.c:458-481 | the requests such a pass keeps are those the batched read counts as copied |
| FuseConnection.Connection.ControlOpen | pxd.c:2386-2395 | processing is put back in front of pending, flags set: the protocol's open step |
| FuseConnection.Connection.EndHead | dev.c:1134-1140 | one turn ends the head with -ECONNABORTED and returns its id, and shrinks the lists |
| FuseConnection.Connection.EndRequests | dev.c:1130-1141 | the loop terminates with its list empty and is a legal run of the protocol |
| FuseConnection.Connection.EndQueuedRequests | dev.c:1143-1149 | both lists end empty, every listed request ended with -ECONNABORTED and gone, its slot exactly once on a free stack |
| FuseConnection.IdsBack | dev.c:1143-1149 | if only removals lead to empty lists, each listed request's slot is back on one stack, once |
| FuseRead.Queue.Scan | dev.c:434-447 | the scan stops at the first request that does not fit, with the room left |
| FuseRead.Queue.CopyOut | dev.c:458-481 | the copy loop keeps what was copied on processing, ends the rest with -EIO, and counts the copied bytes |
| FuseRead.Queue.AwaitPending | dev.c:421-432 | exactly when -EAGAIN, -ENODEV, -ERESTARTSYS or something pending, and which state each leaves |
| FuseRead.Queue.Pass | dev.c:434-484 | one pass moves the longest prefix of pending that fits |
| FuseRead.Queue.DoRead | dev.c:434-494 | all passes together move a prefix of everything sent so far that fits the buffer, starting with the longest prefix of pending that fits, stop only when nothing is pending or its head does not fit, and terminate; the value returned is short by 14 if nothing of that first prefix could be copied |
| FuseRead.Queue.Read | dev.c:409-499 | the same for the whole read, with the wait before it and its error returns |
| FuseRead.ReturnsBytesMoved | dev.c:473-494 | without faults the value returned is the sum of the moved lengths |
| FuseRead.ReturnsBytesCopiedExactly | dev.c:473-494 | with faults the value returned is the bytes copied if and only if one of the pending requests that fitted the buffer at the start could be copied |
| FuseRead.ReturnsShortExactly | dev.c:473-494 | if none of those could be copied the value is -EFAULT when nothing was copied at all, else the bytes copied less 14 |
| FuseRead.OutcomeMeaning | dev.c:473-481 | each request moved has one outcome, in list order: the next to be copied, or the next to be ended with -EIO |
| FuseRead.FitCountExactly | dev.c:434-447 | the first pass takes the longest prefix of pending that fits the buffer |
| FuseRead.ShortRead | dev.c:473-494 | a read that copies 40 bytes and returns 26 |
| ZeroWrites.CheckZeroPageWrite | dev.c:319-338 | the word-then-tail scan answers true if and only if every byte is zero, for every length |
| ZeroWrites.Request.ConvertZeroWrites | dev.c:344-393 | the opcode becomes DISCARD if and only if all bytes of all segments are zero |
| ZeroWrites.Request.DetectAtRead | dev.c:463-468 | only a plain non-empty write is looked at when the daemon reads it |
| ZeroWrites.Request.BuildWrite | pxd.c:728-738 | a non-empty write is looked at when it is built, whatever its flags |
| ZeroWrites.DiscardEqualsWrite | dev.c:341-343 | on any disk, discarding has the effect of the write if and only if the data is all zero |
| ZeroWrites.ConversionPreservesDisk | dev.c:341-398 | whatever the settings, the disk ends as after the original write, if discarded blocks read back zero |
| ZeroWrites.ConvertedExactly | dev.c:463-468 | a write ends as a discard if and only if it has data, all zero, and is looked at when built, or when read without flush or FUA; with detection off nothing is converted, and never anything but a write |
| ZeroWrites.SyncExemptionNeverApplies | pxd.c:737-738 | with detection on, all-zero writes are discards whatever their flags |
| Fanout.ReconcileMeaning | pxd_bio_makereq.c:367-388 | the reconciled status is 0 iff all succeeded, -EIO iff some clone failed other than with -EOPNOTSUPP, -ENOSPC or -ENOMEM, else the first error in list order |
| Fanout.ReconcileMqMeaning | pxd_bio_blkmq.c:83-93 | the blk-mq status is the first error in list order |
| Fanout.VariantsCompared | pxd_fastpath.h:142-153 | the variants agree on success, and on failing over exactly when the first error is -EIO whenever some clone's failure is not spared |
| Fanout.VariantsDiffer | pxd_bio_blkmq.c:83-93 | statuses on which only one variant fails over |
| Fanout.LastDrop | pxd_bio_makereq.c:519-525 | the count reaches zero exactly when all clones are in, and then the submitter has sent its last clone |
| Fanout.ExactlyOneCompleter | pxd_bio_makereq.c:585-632 | in every order of sending and completing exactly one completer sees zero once all are in, none before |
| Fanout.WalkSeesLiveTrackers | pxd_bio_makereq.c:600-632 | the head goes last: while the submitter is at a replica whose link it still follows, no completer has seen zero, in any order of completions |
| FailoverSafety.EveryRunConserves | pxd_bio_makereq.c:390-441 | after every run each submitted IO has exactly one place |
| FailoverSafety.ExactlyOnePlace | pxd_bio_makereq.c:546-573 | each IO is in exactly one of fastpath, failover work, failQ, a marker's list, slowpath or done; done at most once; ncount is fastpath plus slowpath; which of them is FailoverOutcomes.Journey, with which status FailoverOutcomes.DoneExactly |
| FailoverSafety.CompleterTest | pxd_bio_makereq.c:519-525 | in every run the completer's test is that the count reached zero |
| FailoverOutcomes.CompletionOutcome | pxd_bio_makereq.c:546-573 | when an IO's last clone is in, it goes to the failover worker iff the device can fail over and some clone's failure is not spared; otherwise it ends with 0 iff all succeeded, -EIO iff some failure is not spared, else the first error, replicas before the head |
| FailoverOutcomes.RecordKept | pxd_bio_makereq.c:500-525 | the status a clone comes back with is the one its IO is settled on: nothing overwrites it, whatever interleaves |
| FailoverOutcomes.EndAllMeaning | pxd_bio_makereq.c:354-364 | aborting failQ appends -EIO for each parked IO, oldest first, and nothing else |
| FailoverOutcomes.StepEnds | pxd_bio_makereq.c:322-441 | each step ends exactly the IOs it is a reason for: no memory, a last clone, a reply from userspace, an aborted or failed reissue |
| FailoverOutcomes.DoneExactly | pxd_bio_makereq.c:546-573 | after any run an IO is recorded as ended with a status if and only if some step of the run was a reason for it |
| FailoverOutcomes.Submitted | pxd_bio_makereq.c:749-783 | a new IO goes to userspace while the fastpath is off and to its clones, none sent, while it is on; without memory it ends |
| FailoverOutcomes.Journey | pxd_bio_makereq.c:390-573 | where every step takes every IO, in any run |
| FailoverOutcomes.PathFollowsRun | pxd_fastpath.c:482-520 | after any run the path is on iff the last attempt to switch it on succeeded and nothing switched it off since; whether it may fail over is what that attempt asked for, until the path is switched off |
| FailoverOutcomes.OneFailoverAtATime | pxd_bio_makereq.c:402-412 | however many IOs fail, the workers start one failover until the device forgets about it |
| FailoverTheorems.FailQInParkingOrder | pxd_bio_makereq.c:349-352 | after any run failQ is the IOs parked since it was last emptied, in the order of the steps that parked them |
| FailoverTheorems.WinnerReissuesFailQ | pxd.c:886-902 | from the splice on, after any run and whatever interleaves: failQ is empty at once, what is reissued followed by what is left is the IOs parked since failQ was last emptied, in the order they were parked, the marker finishes exactly when all are reissued, and each reissued IO is rerouted on status 0 and otherwise ended with -EIO |
| FailoverTheorems.ReissuedAreServed | pxd_bio_makereq.c:322-347 | no later step takes back what a marker did with an IO |
| FailoverTheorems.ReissuedInParkingOrder | pxd_bio_makereq.c:322-347 | whatever interleaves, what a marker has reissued followed by what is left is what it took |
| FailoverTheorems.NobodyLeftBehind | pxd_bio_makereq.c:402-430 | in every run without reset, fallback and failing control requests, whenever an IO is parked somebody is under way to empty failQ |
| FailoverTheorems.FallbackStrands | pxd.c:943-945 | a run in which a fallback holds the switch and a parked IO is left behind |
| FailoverTheorems.FailedControlStrands | pxd.c:947-957 | a run in which a failing control request leaves a parked IO behind |
| FailoverTheorems.ResetStrands | pxd_fastpath.c:680-716 | a run in which a reset leaves a parked IO behind |
| FailoverStranding.StrandsExactly | pxd.c:934-960 | in any run, a step strands a parked IO if and only if something is parked, the step deserts it, and nobody else is under way |
| FailoverUnits.StepClaims | pxd.c:934-988 | how each step of a switch changes the number of units held by starters and markers |
| FailoverUnits.AccountedExactly | pxd.c:934-988 | with switches, the application and the steps of a reset interleaved, every unit stays accounted for if and only if the step is no failover that cannot send its marker, no marker that comes back to a switch given up under it, and no reset that takes a unit from the count |
| FailoverUnits.EveryRunAccountedExactly | pxd_fastpath.c:680-716 | the same for whole runs of a new device |
| FailoverUnits.ResetOrphansUnit | pxd.c:970-981 | a reset between the compare-and-swap and the suspend of a fallback leaves a unit in the count that nobody will release |
| FailoverUnits.ResetOverdraws | pxd_fastpath.c:701-714 | a switch that suspends between the clear and the drain of a reset ends with the count at -1 |
| FailoverDevice.Device.AbortFailQueue | pxd_bio_makereq.c:354-364 | everything parked ends with -EIO, oldest first |
| FailoverDevice.Device.RerouteSlowpath | pxd.c:993-1022 | counted and sent, or ended with -EIO |
| FailoverDevice.Device.ParkOrReroute | pxd_bio_makereq.c:390-437 | is the protocol's failover work: parked at the tail of failQ if a failover is active or the fastpath on, else counted and sent or ended with -EIO; the first to park goes on to start a failover |
| FailoverDevice.Device.ReissueAll | pxd_bio_makereq.c:322-347 | the loop reroutes or ends every IO of the list, as a legal run of the protocol |
| FailoverDevice.Device.TrySwitch | pxd.c:876-878 | the compare-and-swap of a returning marker |
| FailoverDevice.Device.TakeFailQueue | pxd.c:891-895 | the splice under the lock: all of failQ in order, flag cleared |
| FailoverDevice.Device.IoSwitchComplete | pxd.c:869-905 | a failover marker that wins empties failQ, every IO rerouted or ended; a fallback marker that wins only gives the switch back; one that loses does nothing |
| FastpathLedger.LedgerBalances | pxd_fastpath.c:284-383 | after every sequence of control operations with any outcome the count is the units of the application and the switch plus the failed enables and the leaked units still held, less the units that cleanups took from owners |
| FastpathLedger.ResumeUndoesSuspend | pxd_fastpath.c:341-383 | a suspend takes one unit once, and a resume gives exactly that back |
| FastpathLedger.SwitchGivesBack | pxd.c:869-988 | a switch holds one unit, on the same path, until its marker returns; then unit and switch are given back and the fastpath is off |
| FastpathLedger.CoveredExactly | pxd_fastpath.c:471-480 | suspend covers the application and the switch throughout a run if and only if no cleanup is issued while 0 < suspend <= app + switch |
| FastpathLedger.NeverNegative | pxd_fastpath.c:284-383 | in every state that such operations lead a new device to, the count is the owners' units plus those that failures left and nobody released, and never negative |
| FastpathLedger.StolenUnit | pxd_fastpath.c:471-480 | an undisciplined cleanup drives the count to -1 |
| FastpathLedger.PlainLedgerExactly | pxd.c:952-957 | suspend = app + switch + failed enables not cleaned up, if and only if no leaked unit is held |
| FastpathLedger.PlainStepExactly | pxd.c:947-957 | the plain ledger breaks exactly at a failover that suspended IO and cannot get a request for its marker, and heals exactly at a reset or at a cleanup that finds one leaked unit and no failed enable |
| FastpathLedger.LeakedUnit | pxd.c:952-957 | a run that ends with one unit nobody owns |
| FastpathLedger.LeakedUnitDropsTheApplication | pxd.c:952-957 | with a suspended application the same failure drops the application's claim instead |
| FastpathLedger.ResetCleans | pxd_fastpath.c:680-716 | after any control operations a reset leaves the ledger as new, but for the markers still away, if and only if the count covers the application |
| FastpathLedger.ResetAfterTheft | pxd_fastpath.c:680-716 | a reset after a cleanup that took the application's unit ends with the count at -1 |
| FastpathLedger.LateMarkerExactly | pxd.c:876-899 | a marker that was away at a reset and comes back after any further operations changes nothing if and only if no switch is active then; otherwise it takes another switch, and releases its unit while the marker of that switch is away |
| FastpathLedger.LateMarkerWins | pxd.c:876-899 | a run in which the first failover's marker finishes the second failover |
| Routing.RoutingStable | pxd_bio_makereq.c:750-783 | in every interleaving with a control side that changes the path only while IO is shut out, fastpath, nfd and file[] do not change under a submitter |
| Routing.RoutingExactly | pxd_bio_makereq.c:750-783 | no submitter sees the path change in any interleaving if and only if the control side changes it only while IO is shut out |
| Routing.ExposedExactly | pxd_bio_makereq.c:750-783 | the running check of the control side's writes is that condition |
| FastpathDevice.Device.constructor | pxd_fastpath.c:522-566 | a new device is valid, nothing owed, its trace one entry long |
| FastpathDevice.SuspendMeaning | pxd_fastpath.c:284-338 | a suspend that continues on error, or flushes nothing, fails only if not enabled or a flush is pending; one that has to flush succeeds iff every replica did in time, and else returns -EBUSY or the first failure |
| FastpathDevice.Device.SuspendIo | pxd_bio_blkmq.c:156-171 | one unit more; the first one shuts IO out if there is a disk, otherwise IO stays shut out only until the disk comes |
| FastpathDevice.Device.ResumeIo | pxd_bio_blkmq.c:173-191 | one unit less, below zero too; IO is shut out exactly while the count is positive and the suspension began with a disk |
| FastpathDevice.Device.RequestSuspendInternal | pxd_fastpath.c:284-338 | succeeds, with one unit more, exactly if the device is enabled and the flush succeeds or is waived; the exact return code |
| FastpathDevice.Device.RequestSuspend | pxd_fastpath.c:341-356 | is the ledger's suspend operation; the exact return code |
| FastpathDevice.Device.RequestResume | pxd_fastpath.c:370-383 | is the ledger's resume on the device's fields |
| FastpathDevice.Device.Resume | pxd_fastpath.c:370-383 | the same between control operations |
| FastpathDevice.Device.OpenAll | pxd_fastpath.c:407-446 | opens the paths in order, succeeds if and only if all are usable; open handles are exactly the non-null entries throughout |
| FastpathDevice.Device.CloseAll | pxd_fastpath.c:454-463 | every opened file is closed once and every entry is null |
| FastpathDevice.Device.EnableFastPath | pxd_fastpath.c:389-469 | active iff all paths opened; otherwise settled, all closed, and one unit left behind; exactly when the path is changed while IO is let in |
| FastpathDevice.Device.DisableFastPath | pxd_fastpath.c:482-520 | settled and inactive, count unchanged, effect on the failover flags; the path is changed while IO is let in exactly if the fastpath was active and one unit more did not shut IO out |
| FastpathDevice.Device.InitFastpathTarget | pxd_fastpath.c:573-620 | is the ledger's path update; what becomes of the failover flags |
| FastpathDevice.Device.UpdatePath | pxd.c:1835-1845 | the same with the refusals for disabled and active devices, and exactly when the path is changed while IO is let in |
| FastpathDevice.Device.Disable | pxd_fastpath.c:482-520 | is the ledger's disable |
| FastpathDevice.Device.VolCleanup | pxd_fastpath.c:471-480 | is the ledger's cleanup, whoever owns the unit; a count that covered its owners still does exactly if it was 0 or more than app + switch |
| FastpathDevice.Device.InitiateFailover | pxd.c:934-960 | is the ledger's failover start, the send failure with its wrong resume included; the exact return code; a failing flush does not stop it |
| FastpathDevice.Device.InitiateFallback | pxd.c:962-988 | is the ledger's fallback start; the exact return code |
| FastpathDevice.Device.IoswitchComplete | pxd.c:869-899 | is the ledger's completion of the marker that came back, whichever it is |
| FastpathDevice.Device.ResetDevice | pxd_fastpath.c:680-716 | from every state of an enabled device: no owner, fastpath off, nfd 0, no open file, IO let in, and count 0 if and only if it covered the application |
| FastpathDevice.Device.ResumeAll | pxd_fastpath.c:709-714 | the resume loop ends with the count at zero, or where it was if it was not positive |
| FastpathDevice.SuspendedBeforeDisk | pxd_bio_blkmq.c:156-171 | a device suspended before its disk exists is not quiesced afterwards: suspended, and IO flows |
| FastpathDevice.ExposedUpdate | pxd_fastpath.c:591-616 | the next path update of that device changes the path while IO is let in |
| FastpathDevice.StolenUnitExposes | pxd_fastpath.c:471-480 | a cleanup that takes the application's unit lets a path update of a make-request device happen under submitters, once the application resumes |
| IovIter.GatherMeaning | iov_iter.c:417-435 | a gather puts the byte of address k into buffer place k and changes nothing else |
| IovIter.ScatterMeaning | iov_iter.c:397-415 | a scatter puts buffer byte k at address k, for distinct addresses, and changes nothing else |
| IovIter.Iter.constructor | iov_iter.c:358-372 | a new iterator's view is the first count addresses |
| IovIter.Iter.Commit | iov_iter.c:115-150 | steps over a used-up segment, keeps nr_segs and iov_offset consistent, and drops exactly what was moved from the view |
| IovIter.Iter.CopyIter | iov_iter.c:397-435 | a copy moves a prefix of the view in order and drops exactly that prefix; all of min(n, count) if and only if nothing can fault or no segment a byte is taken from does, else it stops in the first that faults, short of its run there by the bytes that fault |
| IovIter.Iter.Advance | iov_iter.c:513-516 | drops exactly size addresses, so two advances are one by the sum |
| IovIter.Iter.CopyPage | iov_iter.c:152-312 | for every fault pattern of both phases exactly the first k bytes are moved in order, k is returned, the iterator is advanced by k; the first phase, if there is one, gets as far as its faults say, and the second from there as far as its own say |
| IovIter.Iterate | iov_iter.c:22-96 | the walk over iovec, kvec and bvec, zero-length segments included: every segment before the last copied to its end, the last up to n bytes or its fault |
| IovIter.CopyWalk | iov_iter.c:172-189 | the loop shared by the macros and the phases: bytes moved in order, where it stops |
| IovIter.StopsOnce | iov_iter.c:22-96 | where a copy stops is determined by the segments and the faults |
| IovIter.StopsAsFaultsSay | iov_iter.c:22-43 | a walk that went segment by segment up to what was left over has stopped where the faults alone say |
| IovIter.StopsAtOnce | iov_iter.c:22-43 | the faults alone determine how many bytes get through |
| IovIter.TwoPhases | iov_iter.c:169-220 | the second phase continues where the first stopped, each stopped by its own first fault, at the byte the faults say |
| ReadData.WantedIsDrop | dev.c:662-672 | skipping segment by segment is dropping offset bytes from the concatenation |
| ReadData.CopyInIovec | dev.c:613-634 | the next batch of at most 64 iovecs, or -EFAULT exactly if none is announced or too few are there |
| ReadData.CopySegment | dev.c:661-697 | one segment's bytes, whether they are the right ones, exactly when it fails, and what of the batches is left |
| ReadData.Deliver | dev.c:661-700 | returns 0 exactly if every further batch needed is announced, present and large enough, else -EFAULT; on success the bytes are right if and only if the batches run out between segments, and otherwise a byte past a segment is delivered |
| ReadData.NotifyReadData | dev.c:637-700 | returns 0 exactly if the first and every further batch needed is announced, present and large enough; then the bytes delivered are the segments' concatenation dropped by offset and cut at the capacity, if and only if the batches run out between segments |
| ReadData.OneBatchServed | dev.c:661-697 | a daemon that announces exactly the iovecs it sends, at most one batch, always succeeds and gets the right bytes |
| ReadData.AnnouncedMustBePresent | dev.c:613-634 | one that announces none, or more than it sends, never succeeds |
| ReadData.OverreadNotWanted | dev.c:684-689 | a delivered byte past a segment's end is never one that was asked for |
| ReadData.MisalignedBatch | dev.c:684-689 | 65 iovecs on which the transfer succeeds and a batch ends inside a segment |
| ReadData.MisalignedTransfer | dev.c:684-689 | that transfer returns 0 and delivers a byte past the segment |

## Left out

- FuseStray.SafeExactly: that following a poisoned link crashes the kernel is not modelled, only that it is followed.
- FuseConnection.Connection.ControlOpen: the splice and the two flag writes of an open are one step.
- FailoverTheorems.NobodyLeftBehind: a sufficient condition on runs; the exact condition is stated per step, by StrandsExactly.
- FailoverOutcomes.CompletionOutcome: the debug switch `force_fail`, which turns every reconciled status into -EIO, is taken as off.
- ReadData.Deliver: faults while copying to the daemon's iovecs are not modelled; the copies themselves are those of IovIter.
- FuseRead.Queue.DoRead: the loop is taken without the replies that come in while it copies; those are the readers of FuseStray, and a single pass of it is shown to follow the protocol by Connection.ReadPass.
- Control operations of one device are taken one after the other in FastpathLedger and FastpathDevice; in FailoverUnits the steps of the switches and the application, and of a reset its clear of path and switch, its resume of the application and each unit it takes, are interleaved; failed enables and cleanups are not.
- FuseStray.Tame: that a release waits for the reads under way is taken from the kernel, which holds the file open for them.
- The forced re-open branch of `enableFastPath`: with the invariant that an inactive device has no files it cannot be taken.
- blk-mq reissue from `failQ` and blk-mq `ncount` accounting: conservation is stated for the make-request variant.
- blk-mq clone submission: only its reconcile function and its suspend/resume pair are modelled.
- Flag, size and unknown-opcode checks of slowpath requests: an allocation or build failure is one outcome, ending with -EIO.
- Splitting of requests that exceed the queue limits: the request modelled is what remains after it.
- Notifications with id 0 other than PXD_READ_DATA: plumbing.
- Zero-filling of the destination after a faulted user copy, page pinning, checksum and alignment helpers of the iterator: they depend on kernel functions.
- Debug suspend, resume and force-fail switches: they bypass the ledger on purpose.
- Worker selection and load balancing, path-list parsing, device add, export and remove, congestion control, IO accounting, sysfs, ioctls, module init and exit, kernel-version branches, the VFS wrapper for file-backed replicas: plumbing or easy members.
