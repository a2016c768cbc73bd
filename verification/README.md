# Tetherplane: protocols and transformations, verified

Tetherplane lets an AI client act on a person's machine through a local agent, a relay and a
browser extension. Most of it is adapters; what this project models are the small stateful
protocols between them, whose guarantees only show over whole runs, and the transformations whose
results a client relies on:

- `Idempotency` — a keyed mutation is looked up, reserved on disk, executed and published by
  rename. Every file operation is one step of a machine that may crash between any two steps; the
  store and the runtime are classes whose methods extend the machine's history.
- `OutputLog`, `PtyFilter` — the bounded output buffer as a window onto an unbounded log, and the
  pseudo-terminal filter that cuts cursor-position queries out of a stream arriving in pieces
  (ECMA-48 sections 8.3.14 and 8.3.35).
- `SearchSession`, `SearchReplay` — the search queue, one producer, readers and cancellers
  interleaved at atomic-operation granularity, and the compatibility adapter that rebuilds
  random-access pages over it.
- `DeviceRegistry`, `DeviceRouter`, `DeviceGateway` — device bindings, routed calls and live
  sockets, with every callback an event that may come at any time.
- `JobLease`, `ForegroundLease`, `LoginProof`, `TabController` — leases, one-time proofs and tab
  grants under a clock.
- `Utf8`, `TextBudget`, `Patch` — well-formed text (RFC 3629 sections 3 and 4), paging under a
  budget, and exact replacement in a file.
- `Semantic`, `VerifiedAction` — semantic references that survive a rerender, and the engine that
  acts on a page and verifies the outcome, against an adversarial page.

`Wrappers` holds the shared `Option`, `Result` and `byte`. Code that updates state in place is a
class here, proved against functions on values; the theorems about whole runs are about those
functions, or (`DeviceGateway.Serve`) about the classes themselves. What such a function means is
also stated without it: by a theorem over runs, or by a lemma whose name ends in `Means`. Faults, clocks, random draws
and what other threads do in between are parameters or arbitrary choices; where a choice can only
make an operation fail, a constant such as `reliable` rules it out, so that contracts also say
what must succeed. Field names that would
be Dafny keywords are changed (`old` and `new` of a patch are `target` and `replacement`).

Four things the proofs brought out, each with a run that shows it and its exact condition:

- A keyed mutation can be executed twice. The lookup takes a failing existence check for absence,
  and after publication only the completed record is left to see; a step executes an identity again
  exactly if the lookup of its call did not see that record
  (`Idempotency.ReexecutesExactlyAfterBlindLookup`, `Idempotency.OneFaultExecutesTwice`).
- A browser wait can report failure together with a state that meets every expectation: the
  observation after the last examined one is not examined, if it is the last of twenty or looks
  unchanged (the last clause of `VerifiedAction.Wait`, `VerifiedAction.WaitCanMissUnnoticed`,
  `VerifiedAction.MissedUnnoticedExactlyUnlessNoticed`, and two runs).
- An accepted checkpoint can lie in no lease interval of its principal, exactly when the record
  stored at the end of its millisecond has no unexpired lease of that principal any more
  (`JobLease.CheckpointsAreCovered`, `JobLease.SameMillisecondRelease`).
- A text page makes no progress exactly when the next character is longer than the budget
  (`TextBudget.TextPageStalls`, `TextBudget.OneByteStalls`).  Only a hand-made budget is that
  small: those of the response modes always advance (`TextBudget.ModesAdvance`).

Verify with `dafny verify dfyconfig.toml`.

## Model

| member | source | states |
|---|---|---|
| Idempotency.ExecutesAtMostOnce | agent/tetherd/src/runtime.rs:162-186 | Over every run, with a crash between any two steps and any file operation failing but one, an identity is executed at most once and stays recorded; the one is the existence check of its completed record once the pending one is gone |
| Idempotency.ReexecutesExactlyAfterBlindLookup | agent/tetherd/src/idempotency.rs:61-115 | In every run, faults of every kind included, a call makes the provider act for an identity executed before exactly if its own lookup failed to see that identity's completed record standing alone |
| Idempotency.ExecutesTwiceExactlyIfRepeated | agent/tetherd/src/runtime.rs:162-186 | An identity is executed more than once exactly in the runs in which such a call reaches the provider |
| Idempotency.BlindLookupExecutesAgain | agent/tetherd/src/idempotency.rs:61-115 | After any such lookup four ordinary steps execute the identity again |
| Idempotency.OneFaultExecutesTwice | agent/tetherd/src/idempotency.rs:61-75 | A run with that single fault in which a request is executed twice, for every keyed request |
| Idempotency.MisledMeansBlindInCall | agent/tetherd/src/idempotency.rs:61 | The history flag of a call says exactly that its lookup was of that kind |
| Idempotency.SightedMeans | agent/tetherd/src/idempotency.rs:61 | A run is without blind lookups of an identity exactly if no event of it is one |
| Idempotency.SightedKeepsSingle | agent/tetherd/src/idempotency.rs:51-164 | Without such a lookup of it, an identity has one answer, and its records carry the fingerprint that was executed |
| Idempotency.RecordsAreForEver | agent/tetherd/src/idempotency.rs:86-164 | Once executed, an identity has a pending or completed record after every continuation |
| Idempotency.RecordForbidsExecution | agent/tetherd/src/idempotency.rs:51-84 | With no call running and either record present, no continuation without a blind lookup executes the identity again |
| Idempotency.BlockedForEver | agent/tetherd/src/idempotency.rs:51-115 | The same with a call in progress that has not found the record absent |
| Idempotency.ConflictingRequestGetsNothing | agent/tetherd/src/idempotency.rs:61-83 | Without a blind lookup, once the provider was made to act for a request, no request with the same caller, device, capability and key but another job, session, arguments, preconditions or expectations ever reaches it or is told a result, across crashes |
| Idempotency.ResultsAreAnswers | agent/tetherd/src/idempotency.rs:61-71 | In every run, whoever is told a result is told a provider answer to the very same identity and fingerprint |
| Idempotency.ResultsAnswerTheSameRequest | agent/tetherd/src/runtime.rs:162-186 | In every run a result told, executed or replayed, is the provider's answer to a request begun before that agrees in caller, device, capability, key, job, session, arguments, preconditions and expectations |
| Idempotency.DigestsMean | agent/tetherd/src/idempotency.rs:166-269 | Two requests share a record exactly if caller, device, capability and key agree, and a fingerprint exactly if job, session, arguments, preconditions and expectations do |
| Idempotency.ReplaysAreFaithful | agent/tetherd/src/idempotency.rs:61-71 | Without a blind lookup, every replay is the one provider answer for its identity, with only protocol version and request id rewritten |
| Idempotency.RetryReplays | agent/tetherd/src/idempotency.rs:55-71 | After any history without a blind lookup of it, a completed identity answers a retry that finds and reads its record with its one result, or with a conflict exactly when the fingerprint differs |
| Idempotency.RetryIsToldItsOwnResult | agent/tetherd/src/idempotency.rs:55-71 | A request told its executed result and retried is told the same result, or a conflict exactly if job, session, arguments, preconditions or expectations changed |
| Idempotency.UnfinishedRetryIsToldSo | agent/tetherd/src/idempotency.rs:73-82 | A request that reached the provider and has no completed record is told so when retried, or a conflict if it asks for something else |
| Idempotency.ToldMeans | agent/tetherd/src/idempotency.rs:55-84 | What a working directory says: completed before pending before nothing, own request from others, torn from written |
| Idempotency.LookupReplies | agent/tetherd/src/idempotency.rs:55-72 | The steps of a lookup that sees and reads a completed record tell the caller what that record says |
| Idempotency.HistoryGrows | agent/tetherd/src/runtime.rs:162-186 | Effects and answers are only ever appended, crashes included |
| Idempotency.StepKeepsInv | agent/tetherd/src/idempotency.rs:51-164 | Every file operation, fault and crash, failing existence checks included, keeps the invariant of all runs |
| Idempotency.RunKeepsInv | agent/tetherd/src/idempotency.rs:51-164 | That invariant holds after every run |
| Idempotency.StepKeepsPc | agent/tetherd/src/runtime.rs:166-184 | Under the held mutex a call that is about to execute does so for the first time, or was misled by its lookup |
| Idempotency.StepKeepsEffects | agent/tetherd/src/idempotency.rs:86-164 | Every step, whatever fails, leaves every executed identity with a record |
| Idempotency.StepKeepsSingle | agent/tetherd/src/idempotency.rs:86-164 | Every step other than a blind lookup keeps one identity's records, answer and execution single |
| Idempotency.StepKeepsCompleted | agent/tetherd/src/idempotency.rs:139-161 | A completed record holds what the provider answered |
| Idempotency.StepKeepsReplies | agent/tetherd/src/runtime.rs:162-186 | Nobody is told a result other than the answer to its own identity and fingerprint |
| Idempotency.IdempotencyStore.LookUp | agent/tetherd/src/idempotency.rs:51-84 | On a working disk the directory's verdict on the request (completed before pending before miss); on any disk a verdict in which either file may have been overlooked |
| Idempotency.IdempotencyStore.LookUpPending | agent/tetherd/src/idempotency.rs:75-84 | The pending record's verdict, or a miss if it is not seen |
| Idempotency.IdempotencyStore.ReadCompletedRecord | agent/tetherd/src/idempotency.rs:61-72 | A completed record replays to its own request and conflicts with every other; an error only from a failing disk |
| Idempotency.IdempotencyStore.ReadPendingRecord | agent/tetherd/src/idempotency.rs:73-82 | A pending record is reported as unresolved to its own request and as a conflict to others; an error only from a failing disk or a torn file |
| Idempotency.IdempotencyStore.Reserve | agent/tetherd/src/idempotency.rs:86-115 | Writes the pending record where there was none, or leaves none or a torn one; refuses on a working disk exactly if one is there |
| Idempotency.IdempotencyStore.CreatePendingFile | agent/tetherd/src/idempotency.rs:101-107 | Creation is exclusive |
| Idempotency.IdempotencyStore.WritePendingFile | agent/tetherd/src/idempotency.rs:108-114 | A write that fails leaves the file torn |
| Idempotency.IdempotencyStore.CreateTempFile | agent/tetherd/src/idempotency.rs:148-155 | A temporary file comes into being empty; nothing published changes |
| Idempotency.IdempotencyStore.WriteTempFile | agent/tetherd/src/idempotency.rs:139-155 | A temporary file that is written holds the whole record |
| Idempotency.IdempotencyStore.RenameTempFile | agent/tetherd/src/idempotency.rs:156-161 | The completed record appears whole or not at all |
| Idempotency.IdempotencyStore.Publish | agent/tetherd/src/idempotency.rs:139-161 | Writing and renaming change the completed records by exactly this record or not at all |
| Idempotency.IdempotencyStore.DropPending | agent/tetherd/src/idempotency.rs:162-163 | At most this identity's pending record goes away |
| Idempotency.IdempotencyStore.CheckExisting | agent/tetherd/src/idempotency.rs:128-137 | A completed record that is there already is accepted exactly if it is of the same request |
| Idempotency.IdempotencyStore.PublishOnce | agent/tetherd/src/idempotency.rs:128-161 | A completed record that is seen is kept and must match; otherwise this one is published |
| Idempotency.IdempotencyStore.Complete | agent/tetherd/src/idempotency.rs:117-164 | The pending record goes only once a completed one exists; on a working disk an existing one is kept and it fails exactly on a mismatch |
| Idempotency.IdempotencyStore.Restart | agent/tetherd/src/idempotency.rs:43-49 | A new process finds the files as they were left |
| Idempotency.AgentRuntime.Perform | agent/tetherd/src/runtime.rs:177-184 | Exactly one execution of the reserved request, then its publication |
| Idempotency.AgentRuntime.ExecuteMiss | agent/tetherd/src/runtime.rs:172-182 | After a miss nothing is performed unless reserved, and a pending record refuses that even if overlooked; a result is told only once published |
| Idempotency.AgentRuntime.ExecuteIdempotent | agent/tetherd/src/runtime.rs:162-186 | On a working disk the caller is told exactly what the directory says; on any disk the outcome is the machine's reply and answers this very request, the provider is reached at most once, and for a recorded identity only if its completed record stands alone and is overlooked; without a store, never |
| Idempotency.AgentRuntime.ExecuteLocked | agent/tetherd/src/runtime.rs:166-184 | The same with the store locked |
| Idempotency.AgentRuntime.Bound | agent/tetherd/src/runtime.rs:140-143 | Only the principal is replaced, and only in a bound runtime |
| Idempotency.MutationsAreGuarded | agent/tetherd/src/idempotency.rs:191-215 | Every listed mutation and every verified browser action or physical desktop operation is guarded |
| Idempotency.AgentRuntime.Execute | agent/tetherd/src/runtime.rs:140-160 | Only keyed mutations use the store, under the bound principal, and are refused without one |
| OutputLog.OutputBuffer.Append | agent/providers/process/src/output.rs:26-40 | The buffer holds the newest bytes ever appended, all of them or as many as its capacity, at their absolute offset |
| OutputLog.OutputBuffer.EndOffset | agent/providers/process/src/output.rs:42-50 | The end offset is the number of bytes ever appended |
| OutputLog.OutputBuffer.TextSince | agent/providers/process/src/output.rs:52-69 | Returns everything from an offset, or if that is more than the capacity its newest part, and says which |
| OutputLog.OutputBuffer.TextTail | agent/providers/process/src/output.rs:71-78 | Returns the longest end of the log within the limit and the buffer |
| OutputLog.ProcessSession.TakeUnseenOutput | agent/providers/process/src/session.rs:356-360 | Both streams are read from their cursors to their ends and the cursors move there |
| OutputLog.ProcessSession.OutputFrom | agent/providers/process/src/session.rs:362-366 | A read from a given offset moves no cursor |
| OutputLog.ProcessSession.HasUnseenOutput | agent/providers/process/src/session.rs:392-402 | Holds exactly when the next unseen read would return bytes |
| OutputLog.ReadsAreConsecutive | agent/providers/process/src/session.rs:575-582 | However appends and reads alternate, a read returns what was appended since the last one, or the newest bytes the buffer holds with a warning exactly if more came than it holds |
| OutputLog.UnflaggedReadsAreLossless | agent/providers/process/src/session.rs:575-582 | Unflagged reads concatenate to the log up to the cursor |
| OutputLog.ReadsConserveBytes | agent/providers/process/src/output.rs:52-69 | Bytes delivered plus bytes lost are the cursor, and bytes are lost exactly when some read is flagged |
| OutputLog.LogIsWhatWasAppended | agent/providers/process/src/output.rs:26-40 | The log is what was appended in order, and a read leaves none of it unread |
| PtyFilter.FindBytes | agent/providers/process/src/session.rs:569-573 | The leftmost query, or none anywhere |
| PtyFilter.StripConservesBytes | agent/providers/process/src/session.rs:536-567 | Stripping removes four bytes per counted query and nothing else |
| PtyFilter.StripLeavesPieces | agent/providers/process/src/session.rs:536-567 | The stream is pieces without a query, one more than the queries counted, with a query between each and the next; stripping leaves the pieces |
| PtyFilter.CutQuery | agent/providers/process/src/session.rs:543-556 | A query found in what has arrived is cut the same way whatever follows |
| PtyFilter.FindSkipsHead | agent/providers/process/src/session.rs:558-564 | With no query found and three bytes held back, no later query can start in what is emitted |
| PtyFilter.RemoveQuery | agent/providers/process/src/session.rs:543-556 | Cutting one query keeps emitted and held bytes equivalent to the whole input, whatever follows |
| PtyFilter.HoldBack | agent/providers/process/src/session.rs:558-564 | So does emitting all but the last three bytes |
| PtyFilter.ReadMore | agent/providers/process/src/session.rs:521-531 | So does another read, however the stream is cut |
| PtyFilter.RepresentsNow | agent/providers/process/src/session.rs:514-534 | At the end of the stream emitted plus held bytes are the stripped input, and answers are its queries |
| PtyFilter.HeldTailHasNoQuery | agent/providers/process/src/session.rs:558-564 | What is held back contains no query |
| PtyFilter.PtyPump.Answer | agent/providers/process/src/session.rs:546-554 | One reply per query while the writer is open, none after it was taken |
| PtyFilter.PtyPump.ProcessPtyBytes | agent/providers/process/src/session.rs:536-567 | Afterwards at most three bytes are held, without a query; a failed reply leaves only output that is right whatever follows |
| PtyFilter.PtyPump.PumpPtyOutput | agent/providers/process/src/session.rs:514-534 | For every way of cutting the stream, the log at its end is the whole stream stripped leftmost, with one reply per query while the writer stays open; an undisturbed pump ends only as the stream does |
| PtyFilter.UnflaggedReadsAreStripped | agent/providers/process/src/session.rs:514-582 | Unflagged reads of a pseudo-terminal session, however they alternate with the pump's appends, concatenate to a head of the stripped stream, and to all of it when the last read follows the last append |
| SearchSession.NothingLostOrReordered | agent/providers/search/src/session.rs:73-132 | In every interleaving, items read, in hand and queued, in that order, are the items sent, and those are the first matches |
| SearchSession.QueuedIsBounded | agent/providers/search/src/session.rs:73-132 | The counter never underflows nor exceeds the capacity, and is exact when the gate is free |
| SearchSession.DoneIsFinal | agent/providers/search/src/session.rs:104-132 | After a read reports done, everything ever sent has been read and no continuation sends again |
| SearchSession.DoneStaysDone | agent/providers/search/src/session.rs:73-132 | One step after such a read changes nothing about that |
| SearchSession.CompletedIsLossless | agent/providers/search/src/lib.rs:274-411 | A search that is completed and done has returned every match up to its limit |
| SearchSession.ExitedIsOver | agent/providers/search/src/lib.rs:392-411 | When the producer is gone the search is over; if nobody cancelled it, it is completed |
| SearchSession.ReadAfterExitIsDone | agent/providers/search/src/session.rs:104-132 | A read after that which asks for more than there is returns what there is and reports done |
| SearchSession.UncancelledReadsEverything | agent/providers/search/src/session.rs:104-132 | If nobody cancels, a read that reports done has seen every match up to the limit |
| SearchSession.CancellationEnds | agent/providers/search/src/session.rs:50-55 | A canceller's two operations set the flag and end a running search, and do nothing else |
| SearchSession.CancelledIsOver | agent/providers/search/src/session.rs:50-55 | A cancelled search with nobody between the two operations of a cancellation is over |
| SearchSession.CancelledNeverCompletes | agent/providers/search/src/lib.rs:392-411 | A search cancelled before its producer's last look at the flag never reads as completed |
| SearchSession.RunKeepsInv | agent/providers/search/src/lib.rs:274-411 | The protocol invariant holds in every interleaving of producer, readers and cancellers |
| SearchSession.StepKeepsControl | agent/providers/search/src/session.rs:44-132 | Every atomic step keeps conservation, the counter, the gate discipline and the producer's progress |
| SearchSession.StepKeepsDone | agent/providers/search/src/session.rs:44-132 | A closed session stays closed and results are only added |
| SearchSession.OthersRespectGate | agent/providers/search/src/session.rs:73-132 | While a reader holds the gate, others touch only the cancel flag and the state |
| SearchSession.ReadTakesTheHead | agent/providers/search/src/session.rs:104-132 | Reads are atomic: whatever producer and cancellers do between a reader's entry into the gate and its return, it takes the asked-for head of the queue it found, and is done only when that ran dry and the search is over |
| SearchSession.SendAddsAtTheTail | agent/providers/search/src/session.rs:73-102 | Sends are atomic: whatever readers and cancellers do during a turn of the send loop, the next match is queued behind what they left of the queue, or not at all, exactly as fullness and cancellation say |
| SearchSession.SearchSession.MarkCompleted | agent/providers/search/src/session.rs:44-48 | Completes a running search and no other |
| SearchSession.SearchSession.Cancel | agent/providers/search/src/session.rs:50-55 | Sets the flag and ends a running search; a finished one keeps its state |
| SearchSession.SearchSession.SendOnce | agent/providers/search/src/session.rs:73-102 | One turn of the send loop, whatever readers take before the gate is entered, meets the relation proved of the machine's turns; refused before that if cancelled |
| SearchSession.SearchSession.ReadUnseen | agent/providers/search/src/session.rs:104-132 | The loop meets the relation proved of the machine's reads, whatever others do to flag and state meanwhile |
| SearchReplay.Need | adapters/rdc-compat/src/service.ts:224-233 | What is asked of the stream is never nothing and enough for the page |
| SearchReplay.NeedMeans | adapters/rdc-compat/src/service.ts:224-233 | A page that an unfinished search has not got in its cache causes a read for at least what is missing; a page at the end of the cache never does |
| SearchReplay.DefaultsMean | adapters/rdc-compat/src/service.ts:639-650 | An unusable offset is 0, an unusable or negative length 100 |
| SearchReplay.Agent.Read | agent/providers/search/src/session.rs:104-132 | A read consumes the next items of the stream; done only at its end |
| SearchReplay.CompatibilityService.Refill | adapters/rdc-compat/src/service.ts:224-255 | One upstream read, whose items extend the cache; a failed one changes nothing |
| SearchReplay.CompatibilityService.StartSearch | adapters/rdc-compat/src/service.ts:178-205 | A started search begins with an empty cache at the stream's position; a refused start changes nothing |
| SearchReplay.CompatibilityService.Open | adapters/rdc-compat/src/service.ts:217-221 | A search not known here is taken as just started |
| SearchReplay.CompatibilityService.CacheIsHeadOfRest | adapters/rdc-compat/src/service.ts:207-272 | What is cached is a head of what the stream gives since the cache was created, and all of it if done and not stopped |
| SearchReplay.CompatibilityService.ReadSearch | adapters/rdc-compat/src/service.ts:207-272 | The page served is cut from a cache equal to a slice of the stream; upstream is asked exactly once, for a non-zero number, when the page needs it, and not otherwise |
| SearchReplay.CompatibilityService.StopSearch | adapters/rdc-compat/src/service.ts:274-290 | An accepted stop ends this search's cache and no other |
| SearchReplay.CompatibilityService.CompatPid | adapters/rdc-compat/src/service.ts:511-518 | A handle keeps its number, a new one gets an unused number, and both maps stay inverse |
| SearchReplay.CompatibilityService.ResolveCompatPid | adapters/rdc-compat/src/service.ts:520-555 | Undoes `CompatPid` for every handle but the empty one |
| SearchReplay.ServedResultsNeverChange | adapters/rdc-compat/src/service.ts:234-272 | A later page at the same position extends the earlier one, and equals it if that was full |
| SearchReplay.PageIsSliceOfStream | adapters/rdc-compat/src/service.ts:256-272 | A page at a non-negative offset is the slice of the whole stream clipped to the reported total |
| SearchReplay.NegativePageIsTail | adapters/rdc-compat/src/service.ts:256-272 | A page at a negative offset is the newest part of the cache and asks for nothing |
| SearchReplay.WalkSearch | adapters/rdc-compat/src/service.ts:207-272 | A client looping over `ReadSearch` from the end of what it has, whatever was read of the search before, collects a head of what the stream has given and will give since its cache was created, and all of it once a page is complete and the offset is at the total; with an agent that answers and has something ready, every page gets further |
| SearchReplay.NextPage | adapters/rdc-compat/src/service.ts:207-272 | One page more keeps what the client has a head of the cache, and gets further or finds it complete |
| DeviceRegistry.DeviceRegistry.StartPairing | relay/src/devices/registry.ts:61-89 | Refused exactly for a device bound and unrevoked; a new code replaces an equal one |
| DeviceRegistry.DeviceRegistry.ApprovePairing | relay/src/devices/registry.ts:91-113 | A code binds its device once, before it expires, and is gone after any attempt |
| DeviceRegistry.DeviceRegistry.RevokeDevice | relay/src/devices/registry.ts:141-154 | Only the owning account revokes; nothing else about the binding changes |
| DeviceRegistry.DeviceRegistry.GetDevice | relay/src/devices/registry.ts:156-159 | The binding found names the one account, if any, that the device is bound to unrevoked |
| DeviceRegistry.DeviceRegistry.ListDevices | relay/src/devices/registry.ts:161-165 | Exactly the devices bound to the account |
| DeviceRouter.DeviceRouter.ConnectDevice | relay/src/routing/device-router.ts:56-90 | Only for a bound unrevoked device; supersedes the old connection, whose calls in flight, and no others, fail |
| DeviceRouter.DeviceRouter.DisconnectDevice | relay/src/routing/device-router.ts:92-95 | Exactly the device's calls in flight fail |
| DeviceRouter.DeviceRouter.DisconnectHandle | relay/src/routing/device-router.ts:85-88 | A handle of a superseded connection changes nothing |
| DeviceRouter.DeviceRouter.Disconnect | relay/src/routing/device-router.ts:199-220 | Drops the connection if current and fails exactly the calls in flight on it |
| DeviceRouter.DeviceRouter.NothingOn | relay/src/routing/device-router.ts:199-220 | Nobody waits on a device that is not connected |
| DeviceRouter.FailingKeepsCalls | relay/src/routing/device-router.ts:203-219 | Failing pending calls keeps every routed call waiting unresolved or resolved once |
| DeviceRouter.ResolvingKeepsCalls | relay/src/routing/device-router.ts:171-198 | So does resolving one, if a delivered result is of its connection and request id |
| DeviceRouter.AddingKeepsCalls | relay/src/routing/device-router.ts:127-153 | So does adding one |
| DeviceRouter.DeviceRouter.FailRoutes | relay/src/routing/device-router.ts:203-219 | Exactly the pending calls of this device and generation are settled as disconnected |
| DeviceRouter.DeviceRouter.AddConnection | relay/src/routing/device-router.ts:72-78 | A new connection has a generation that no earlier one had |
| DeviceRouter.DeviceRouter.ResolveConnection | relay/src/routing/device-router.ts:229-301 | The connection meant, or exactly which error: unknown, not the account's, offline, ambiguous |
| DeviceRouter.DeviceRouter.Call | relay/src/routing/device-router.ts:101-169 | Routed exactly when resolvable, to the current connection of a device bound to the caller and unrevoked at that time; refused with the error of what is missing |
| DeviceRouter.DeviceRouter.AddRoute | relay/src/routing/device-router.ts:127-153 | The call waits, unsettled, under a route id of its own |
| DeviceRouter.DeviceRouter.TimeOut | relay/src/routing/device-router.ts:134-145 | Settles a call still pending and does nothing to a settled one |
| DeviceRouter.DeviceRouter.SendFailed | relay/src/routing/device-router.ts:155-167 | Settles a call still pending and does nothing to a settled one |
| DeviceRouter.DeviceRouter.Receive | relay/src/routing/device-router.ts:171-198 | Only a reply over the current connection the call was routed to settles it, delivered exactly if the request id matches |
| DeviceGateway.DeviceWebSocketGateway.AcceptSocket | relay/src/devices/ws-gateway.ts:127-171 | The new socket alone is live for its device, and live map and connections agree |
| DeviceGateway.DeviceWebSocketGateway.OnMessage | relay/src/devices/ws-gateway.ts:154-157 | A message on the live socket settles exactly the call it answers on that connection, with this very result if the request id matches; any other message changes nothing |
| DeviceGateway.DeviceWebSocketGateway.OnClose | relay/src/devices/ws-gateway.ts:159-171 | A close or error of a superseded socket changes nothing; of the live one it takes the device offline and fails exactly its calls in flight |
| DeviceGateway.DeviceWebSocketGateway.DisconnectDevice | relay/src/devices/ws-gateway.ts:54-63 | The device is offline in both maps |
| DeviceGateway.Serve | relay/src/devices/ws-gateway.ts:54-171 | After any events in any order: maps agree; the registry holds what the pairing, approval and revocation events among them make of it; every call routed on the way was made by an event at which that registry bound the routed device to the caller unrevoked; every routed call is pending on its device's current connection or settled exactly once for ever, by an event that may do so: a result was sent unchanged in a message on a socket of its connection, a failure has its timer, failed send or lost connection |
| DeviceGateway.DeviceWebSocketGateway.Handle | relay/src/devices/ws-gateway.ts:54-171 | One event keeps all of that; a call it routes goes to a device bound at that moment |
| DeviceGateway.StillCalled | relay/src/routing/device-router.ts:101-169 | Calls routed at one event and those routed before are all called at some event |
| DeviceGateway.StillSettled | relay/src/routing/device-router.ts:134-220 | Calls settled at one event and those settled before were all settled by some event |
| DeviceGateway.DeviceWebSocketGateway.CallsAreSettledOnce | relay/src/routing/device-router.ts:171-219 | A valid state has every routed call waiting on a current connection or resolved once, genuinely |
| JobLease.LeasesNeverOverlap | agent/tetherd/src/job.rs:273-381 | Whatever operations prune in between, no two leases of a job are in force at one time |
| JobLease.CheckpointsAreCovered | agent/tetherd/src/job.rs:223-271 | Every accepted checkpoint was saved under a lease of its own principal, and lies inside a half-open lease interval of its principal exactly if the stored record still had an unexpired lease of that principal when the millisecond of the save was over |
| JobLease.InsideExactlyIfHeld | agent/tetherd/src/job.rs:223-381 | A moment lies in some lease interval of a principal exactly if the record stored when its millisecond was over had an unexpired lease of that principal |
| JobLease.LaterStepKeepsInside | agent/tetherd/src/job.rs:273-381 | What happens in a later millisecond moves no checkpoint into or out of a lease interval |
| JobLease.SameMillisecondRelease | agent/tetherd/src/job.rs:223-381 | A run whose accepted checkpoint lies in no lease interval |
| JobLease.ConflictMeansInForce | agent/tetherd/src/job.rs:297-306 | An acquisition is refused as conflicting only while the newest lease is in force |
| JobLease.LeaseIsGrantedExactly | agent/tetherd/src/job.rs:273-322 | After any run a lease is granted exactly to a permitted principal asking for at most an hour while none is in force |
| JobLease.LeaseIsReleasedExactly | agent/tetherd/src/job.rs:324-381 | A lease is given back exactly by its own principal while it is in force, under its own id if one is named |
| JobLease.CheckpointIsSavedExactly | agent/tetherd/src/job.rs:223-271 | A checkpoint is accepted exactly from a permitted principal whose lease is in force, and sets the status it names |
| JobLease.GrantsWereRequested | agent/tetherd/src/job.rs:223-381 | Every lease was granted and released at the request of its own principal, for the time asked or a minute; the stored checkpoint is the newest accepted, as sent |
| JobLease.RefusalsMean | agent/tetherd/src/job.rs:223-381 | Which request is refused with which error |
| JobLease.LookMeans | agent/tetherd/src/job.rs:110-126 | Looking takes away an expired lease from the sight of those who may see the job, and nothing else |
| JobLease.RunKeepsInv | agent/tetherd/src/job.rs:223-381 | The stored lease is the newest grant, unreleased; all others have ended |
| JobLease.StepKeepsLeases | agent/tetherd/src/job.rs:548-558 | Every operation, with or without pruning, keeps that |
| JobLease.StepKeepsSaves | agent/tetherd/src/job.rs:524-546 | Every operation keeps every checkpoint covered |
| JobLease.JobProvider.CreateJob | agent/tetherd/src/job.rs:65-108 | A new job is active, without lease and checkpoint, stamped now, and permits its creator |
| JobLease.JobProvider.AcquireLease | agent/tetherd/src/job.rs:273-322 | Grants as `Acquire` says; a rejected request leaves every record as it was |
| JobLease.JobProvider.ReleaseLease | agent/tetherd/src/job.rs:324-381 | Releases as `Release` says; a rejected request leaves every record as it was |
| JobLease.JobProvider.SaveCheckpoint | agent/tetherd/src/job.rs:223-271 | Saves as `Save` says; a rejected request leaves every record as it was |
| JobLease.JobProvider.GetJob | agent/tetherd/src/job.rs:110-126 | Shows a job to its permitted principals and stores it back only if its lease had expired |
| JobLease.JobProvider.VisitJobs | agent/tetherd/src/job.rs:168-203 | Finds exactly the matching visible jobs and prunes exactly the expired leases among the visible ones |
| JobLease.JobProvider.Sort | agent/tetherd/src/job.rs:205-209 | The jobs found, oldest first and by id within a moment |
| JobLease.LessMeans | agent/tetherd/src/job.rs:205-209 | Ids compare at their first difference |
| JobLease.JobProvider.ListJobs | agent/tetherd/src/job.rs:128-221 | Lists the oldest matching visible jobs in order, as many as the limit allows, and leaves out only younger ones; refused requests change nothing |
| ForegroundLease.MovesAndRestores | agent/providers/desktop/src/lib.rs:378-496 | Over any run every pointer move is inside the lease's lifetime and no later than its release, no move follows a restore attempt, and at most one restore succeeds, last |
| ForegroundLease.NoMoveAfterRelease | agent/providers/desktop/src/lib.rs:422-463 | Once a lease is released or expired no continuation moves the pointer under it, not even in the same millisecond |
| ForegroundLease.MovesWereAsked | agent/providers/desktop/src/lib.rs:422-463 | Every move was asked for by the lease's principal on the pointer while the human was idle; a lease ends in time or at the request of a human or its principal |
| ForegroundLease.MoveIsMadeExactly | agent/providers/desktop/src/lib.rs:422-463 | A request moves the pointer exactly if it is the principal's, on the pointer, with coordinates, while the human is idle, before release and expiry |
| ForegroundLease.ReleaseReleases | agent/providers/desktop/src/lib.rs:398-420 | A release by a human or the principal takes effect at once |
| ForegroundLease.PendingSurvivesFailure | agent/providers/desktop/src/foreground_lease.rs:130-193 | A restore is owed from release or expiry until an attempt succeeds, and then no longer; the time recorded is that attempt's |
| ForegroundLease.TermsNeverChange | agent/providers/desktop/src/foreground_lease.rs:69-193 | Principal, lifetime and baseline never change, and a release time is kept |
| ForegroundLease.StepKeepsInv | agent/providers/desktop/src/lib.rs:378-463 | Every operation keeps the lease's invariant |
| ForegroundLease.RunKeepsInv | agent/providers/desktop/src/lib.rs:378-463 | The invariant holds after every run under a monotone clock |
| ForegroundLease.DesktopProvider.LeaseAcquire | agent/providers/desktop/src/lib.rs:326-376 | Granted exactly to a human asking for the pointer, for a bounded time, when activity and cursor can be read, and armed with the cursor's position |
| ForegroundLease.DesktopProvider.Expire | agent/providers/desktop/src/foreground_lease.rs:225-232 | An expired lease is released as of now and owes its restore |
| ForegroundLease.DesktopProvider.StoreRelease | agent/providers/desktop/src/foreground_lease.rs:130-162 | Only a human or the holder releases; an expiry noticed on the way stays |
| ForegroundLease.DesktopProvider.RestorePending | agent/providers/desktop/src/lib.rs:483-496 | Attempts an owed restore once and records it only if it succeeded |
| ForegroundLease.DesktopProvider.LeaseGet | agent/providers/desktop/src/lib.rs:378-396 | One step of the lease's machine; a returned lease owes nothing |
| ForegroundLease.DesktopProvider.LeaseRelease | agent/providers/desktop/src/lib.rs:398-420 | One step of the lease's machine; other leases are untouched |
| ForegroundLease.DesktopProvider.Refresh | agent/providers/desktop/src/lib.rs:428-433 | Expiry is noticed and an owed restore attempted before the lease is used |
| ForegroundLease.DesktopProvider.PhysicalPointerMove | agent/providers/desktop/src/lib.rs:422-463 | One step of the lease's machine; the pointer is moved exactly under a lease in force for this request with the human idle, and every refusal has its own error |
| LoginProof.ProofsAreOneTime | relay/src/auth/login-proof-registry.ts:44-131 | Over any run each proof is started, approved and consumed at most once, in that order, unexpired, and consumption yields the account approved for that interaction and code |
| LoginProof.AppendKeepsLog | relay/src/auth/login-proof-registry.ts:44-131 | An entry earned by those before it keeps the whole history earned |
| LoginProof.ApprovedProofIsConsumedOnce | relay/src/auth/login-proof-registry.ts:82-131 | An approved proof is consumed by its own interaction and code until it expires, and then not again |
| LoginProof.OperationsMean | relay/src/auth/login-proof-registry.ts:82-140 | Who is refused an approval or a consumption, and that nothing else changes but expired proofs going |
| LoginProof.RunKeepsInv | relay/src/auth/login-proof-registry.ts:44-168 | Live proofs have distinct codes and agree with the history |
| LoginProof.StartKeepsInv | relay/src/auth/login-proof-registry.ts:44-80 | Starting a proof keeps that |
| LoginProof.ApproveKeepsInv | relay/src/auth/login-proof-registry.ts:82-108 | Approving keeps that and is recorded once |
| LoginProof.ConsumeKeepsInv | relay/src/auth/login-proof-registry.ts:110-131 | Consuming keeps that and is recorded once, for an earned account |
| LoginProof.AuthLoginProofRegistry.Start | relay/src/auth/login-proof-registry.ts:44-80 | Adds one unapproved proof under a free code to the unexpired ones, or only prunes |
| LoginProof.AuthLoginProofRegistry.Approve | relay/src/auth/login-proof-registry.ts:82-108 | Both indexes see the approval; the outcome is that of `AfterApprove` |
| LoginProof.AuthLoginProofRegistry.Consume | relay/src/auth/login-proof-registry.ts:110-131 | The proof leaves both indexes; the outcome is that of `AfterConsume` |
| LoginProof.AuthLoginProofRegistry.PruneExpired | relay/src/auth/login-proof-registry.ts:133-140 | Exactly the expired proofs leave both indexes |
| LoginProof.AuthLoginProofRegistry.Delete | relay/src/auth/login-proof-registry.ts:142-145 | One proof leaves both indexes |
| LoginProof.Drawn | relay/src/auth/login-proof-registry.ts:147-168 | A drawn code is free |
| LoginProof.NextDrawDecides | relay/src/auth/login-proof-registry.ts:147-168 | A draw that is too short or gives a free code decides; without one the codes are exhausted |
| LoginProof.TakenAreSkipped | relay/src/auth/login-proof-registry.ts:147-168 | Draws that give codes in use are passed over |
| LoginProof.CodeShape | relay/src/auth/login-proof-registry.ts:155-160 | A code is four hexadecimal digits, a dash and four more |
| LoginProof.CodesDifferByBytes | relay/src/auth/login-proof-registry.ts:155-160 | Equal codes come from equal bytes |
| LoginProof.AuthLoginProofRegistry.CodeFreeMeans | relay/src/auth/login-proof-registry.ts:147-168 | A code is free among the live proofs exactly when the code index does not have it |
| LoginProof.AuthLoginProofRegistry.UniqueUserCode | relay/src/auth/login-proof-registry.ts:147-168 | The loop returns the first drawn code that is free, or exhaustion after eight |
| TabController.OwnershipRegistry.Authorize | browser/bridge/src/policy.ts:88-135 | Allowed exactly by ownership, observation, or an unexpired grant naming the operation |
| TabController.ExtensionTabController.Record | extension/browser/src/index.ts:219-227 | Page map and ownership registry change together |
| TabController.ExtensionTabController.RequirePage | extension/browser/src/index.ts:229-249 | An expired grant is taken away in both maps before the page is used |
| TabController.DemotedMeans | extension/browser/src/index.ts:229-249 | Demotion gives a page back to the human exactly if its grant is over, and changes nothing else |
| TabController.ExtensionTabController.Persist | extension/browser/src/index.ts:260-262 | What is saved has no expired grant and is what is tracked |
| TabController.ExtensionTabController.Initialize | extension/browser/src/index.ts:67-98 | Tracks exactly the open tabs with their unexpired saved ownership |
| TabController.ExtensionTabController.CreateOwnedTab | extension/browser/src/index.ts:106-123 | The new tab is Tetherplane's in both maps |
| TabController.ExtensionTabController.NavigateTo | extension/browser/src/index.ts:125-147 | The browser is asked exactly when the page's owner or grant allows it; every other outcome is the error that stopped it |
| TabController.ExtensionTabController.CloseTab | extension/browser/src/index.ts:149-160 | The browser is asked exactly when the page's owner or grant allows it; the page is forgotten |
| TabController.ExtensionTabController.AttachHumanTab | extension/browser/src/index.ts:162-199 | A grant is bounded by an hour and allows exactly the named operations, at every moment before its time is up and at none after |
| TabController.ExtensionTabController.DetachHumanTab | extension/browser/src/index.ts:201-217 | The tab is the human's again, without a grant, in both maps |
| TabController.RestartRestoresOwnership | extension/browser/src/index.ts:67-98 | Persist then initialize keeps exactly the unexpired non-human ownership of tabs still open |
| TabController.RestoredFromTabs | extension/browser/src/index.ts:67-98 | A tracked page comes from an open tab |
| TabController.DemotedAuthorizesOnlyPermitted | extension/browser/src/index.ts:229-258 | After demotion the registry allows a mutation exactly on owned tabs and under unexpired naming grants |
| Utf8.SplitAtBoundary | agent/tether-core/src/budget.rs:59-73 | Cutting well-formed text at a character boundary gives two well-formed texts |
| Utf8.BoundaryExactly | agent/tether-core/src/budget.rs:54-69 | A position is a boundary exactly if both sides are well-formed |
| Utf8.WellFormedIsText | agent/tether-core/src/budget.rs:48-74 | Well-formed bytes encode a sequence of Unicode scalar values (section 3 of RFC 3629) |
| Utf8.TextIsWellFormed | agent/tether-core/src/budget.rs:48-74 | Every such encoding is well-formed |
| Utf8.NextBoundary | agent/tether-core/src/budget.rs:66-69 | The next boundary is one character of at most four bytes further on |
| TextBudget.ApplyText | agent/tether-core/src/budget.rs:48-74 | Refuses exactly invalid offsets, and its backward scan finds the last boundary within the budget |
| TextBudget.TextPageIsWellFormed | agent/tether-core/src/budget.rs:59-74 | A page is the longest well-formed piece within the budget and continues at a boundary |
| TextBudget.TextPageStalls | agent/tether-core/src/budget.rs:66-69 | A page makes no progress exactly when the next character exceeds the budget, so never with four bytes |
| TextBudget.OneByteStalls | agent/tether-core/src/budget.rs:66-69 | A budget of one byte stalls before a character of two |
| TextBudget.TextPagesReproduceInput | agent/tether-core/src/budget.rs:48-74 | Following continuations ends and concatenates to exactly the rest of the input |
| TextBudget.TextPagesAreGood | agent/tether-core/src/budget.rs:48-74 | Every page on the way is well-formed, within the budget and not empty |
| TextBudget.ItemPagesReproduceInput | agent/tether-core/src/budget.rs:81-97 | Item pages are within the budget and concatenate to the rest of the items |
| TextBudget.ItemPageMeans | agent/tether-core/src/budget.rs:81-97 | An item page has as many items as the budget allows and is refused only past the end |
| TextBudget.ItemPageStalls | agent/tether-core/src/budget.rs:81-97 | An item page makes no progress exactly under a budget of none |
| TextBudget.ModesAdvance | agent/tether-core/src/budget.rs:29-40 | Every response mode's pages advance; each mode has four times the bytes of the one before |
| Patch.MatchesCharacterized | agent/providers/filesystem/src/patch.rs:22-25 | The reported starts are the only ordered, disjoint occurrences that leave no occurrence starting outside them |
| Patch.OccurrenceMeans | agent/providers/filesystem/src/patch.rs:22-25 | Where the text occurs |
| Patch.MatchesAreMost | agent/providers/filesystem/src/patch.rs:22-41 | The count compared with the expected one is the largest number of disjoint occurrences |
| Patch.MatchIsOnBoundaries | agent/providers/filesystem/src/patch.rs:43-55 | Reported offsets are character boundaries, so the line counts are defined |
| Patch.ReportedRangesGiveContent | agent/providers/filesystem/src/patch.rs:43-58 | The reported ranges are ordered, disjoint, hold the text replaced, and splicing from last to first gives exactly what is written |
| Patch.ReplacementLength | agent/providers/filesystem/src/patch.rs:57-58 | The new length is the old one plus the count times the difference in length |
| Patch.SpliceLength | agent/providers/filesystem/src/patch.rs:43-58 | The same for any ranges a client splices |
| Patch.ReplacementIsWellFormed | agent/providers/filesystem/src/patch.rs:57-58 | What is written is well-formed text, so the file can be patched again |
| Patch.ChangeSpansLinesOfTarget | agent/providers/filesystem/src/patch.rs:43-55 | A change spans exactly the newlines inside the text it replaces |
| Patch.ChangeLocates | agent/providers/filesystem/src/patch.rs:43-55 | A change is reported with its byte range and the numbers of newlines before its ends |
| Patch.LineAtCounts | agent/providers/filesystem/src/patch.rs:93-97 | The line of an offset is the number of newlines before it |
| Patch.LineAtAdds | agent/providers/filesystem/src/patch.rs:93-97 | Line numbers add up across any offset |
| Patch.Filesystem.AtomicReplace | agent/providers/filesystem/src/patch.rs:67-91 | At every step the target holds all of the old or all of the new content, nothing else changes but the temporary file, and that is gone at the end |
| Patch.Filesystem.Patch | agent/providers/filesystem/src/patch.rs:11-65 | Any refusal leaves the files as they were, a count mismatch is reported with the real count, success writes the replacement and reports every match |
| Semantic.TakeSnapshot | browser/bridge/src/semantic.ts:60-128 | The loop over an occurrence map numbers equal signatures in order, drops hidden nodes and sensitive values, and reports what it left out |
| Semantic.SnapshotShowsWhatIsVisible | browser/bridge/src/semantic.ts:60-128 | A snapshot has in order one node for every node not hidden, up to the limit, with its own data, a sensitive one's value and description excepted, numbered among those shown with the same signature, and counts what it leaves out |
| Semantic.KeyIdentifies | browser/bridge/src/semantic.ts:130-142 | What a reference goes by is role, name, ancestry, document and frame |
| Semantic.RefIdsAreDistinct | browser/bridge/src/semantic.ts:70-88 | ref_ids in a snapshot are distinct for any signature function, collisions included |
| Semantic.RefIdIsInjective | browser/bridge/src/semantic.ts:85 | A ref_id determines its signature and occurrence |
| Semantic.DecimalIsInjective | browser/bridge/src/semantic.ts:85 | Different occurrences print differently |
| Semantic.DecimalDenotes | browser/bridge/src/semantic.ts:85 | An occurrence prints as the decimal digits that denote it |
| Semantic.SnapshotHidesSecrets | browser/bridge/src/semantic.ts:68-118 | Hidden nodes, backend ids and sensitive values and descriptions do not influence a snapshot |
| Semantic.MaxNodes | browser/bridge/src/semantic.ts:157-165 | 200 by default; a positive integer is accepted and capped at 2000, anything else refused |
| Semantic.ReacquireFindsTheOnlyMatch | browser/bridge/src/semantic.ts:130-154 | A node is found exactly when it is the only match, else the reference is stale with a count of two or more |
| Semantic.ReacquiredMatches | browser/bridge/src/semantic.ts:130-154 | What is found is one of the nodes, visible and of the key asked for |
| Semantic.SnapshotThenReacquire | browser/bridge/src/semantic.ts:60-154 | A reference from a snapshot finds its own node exactly when no other visible node has the same role, name, ancestry, document and frame |
| Semantic.RerenderKeepsReferences | browser/bridge/src/semantic.ts:130-154 | Reordering, new backend ids and new values leave every reference its outcome |
| Semantic.MatchCountIsMultiplicity | browser/bridge/src/semantic.ts:130-150 | The match count is the multiplicity of the key among visible nodes |
| VerifiedAction.ResolvedActsOnUniqueMatch | browser/bridge/src/action.ts:295-332 | An action resolves exactly when its target has one match, and then acts on it as asked |
| VerifiedAction.ResolvedIsWhatToDo | browser/bridge/src/action.ts:295-332 | Resolving finds what an action is to do exactly if its target is the only match, and is stale otherwise |
| VerifiedAction.EvaluateMeaning | browser/bridge/src/action.ts:334-383 | Evaluation succeeds exactly when all expectations hold; otherwise the first that does not decides |
| VerifiedAction.SatisfiedMeansMet | browser/bridge/src/action.ts:343-383 | An expectation is satisfied exactly if the state is as expected, and throws exactly if its target is not the only match |
| VerifiedAction.PerformAll | browser/bridge/src/action.ts:204-222 | Against any page, what is performed is a prefix of what was asked, each action authorized and resolved in the latest observation, and the first obstacle ends it |
| VerifiedAction.Execute | browser/bridge/src/action.ts:167-247 | Verified exactly when everything was done and every expectation is met by the state reported, kind by kind; conflict and failed precondition mean nothing was performed; every failure has the error of what stopped it |
| VerifiedAction.Wait | browser/bridge/src/action.ts:249-293 | Verified exactly if the last examined observation meets every expectation, kind by kind, of at most twenty, each changed from the one before; fails with a state that meets them exactly if they were missed after that observation |
| VerifiedAction.LastExaminedDecides | browser/bridge/src/action.ts:258-281 | A wait is verified exactly when some examined observation meets every expectation |
| VerifiedAction.LastExaminedIsUnique | browser/bridge/src/action.ts:258-281 | However a page behaves, one observation is examined last |
| VerifiedAction.WaitCanMiss | browser/bridge/src/action.ts:258-281 | A page can make a wait miss expectations exactly if it can turn from failing to meeting them |
| VerifiedAction.WaitCanMissUnnoticed | browser/bridge/src/action.ts:269-281 | A page can make a wait miss expectations before the twentieth attempt exactly if it can turn from failing to meeting them without changing revision, resource revision or url |
| VerifiedAction.MissedUnnoticedExactlyUnlessNoticed | browser/bridge/src/action.ts:269-281 | One expectation can be missed before the twentieth attempt exactly if it is about neither url nor resource revision |
| VerifiedAction.NoticedAreMissedOnlyAtTheLimit | browser/bridge/src/action.ts:269-281 | Expectations about url and resource revision only are missed, if at all, with the last observation of twenty attempts |
| VerifiedAction.LimitMisses | browser/bridge/src/action.ts:258-281 | Any turn is missed when it comes with that last observation |
| VerifiedAction.UnchangedMisses | browser/bridge/src/action.ts:272-280 | Any turn is missed when it changes neither revision nor url |
| VerifiedAction.WaitMissesUnnoticedToast | browser/bridge/src/action.ts:269-292 | A toast without a new revision: the wait fails and reports the state with the toast |
| VerifiedAction.WaitMissesLateChange | browser/bridge/src/action.ts:258-292 | A resource that changes with the last observation: the wait fails and reports the changed one |

## Left out

- Operating-system and UI automation (spawning processes, accessibility trees, Chromium control) and HTTP, WebSocket and stdio plumbing: they are parameters or adversarial choices.
- Digests are taken as injective for record identities and fingerprints: the model uses the digested values themselves. Snapshot signatures are any function.
- Power loss: a crash is the death of the process, with completed file operations kept and rename atomic.
- Two daemons on one state directory: at-most-once needs the one process whose mutex covers lookup to completion.
- The JSON shape of error envelopes, and the audit log.
- Crash atomicity of the job store, which removes a file before renaming over it: the job model has no crashes.
- Reads through `process.read`: the unseen cursor moves past text that the response budget then truncates, so losslessness is stated for the session, on bytes instead of lossily decoded text.
- SearchSession.SearchSession.SendOnce: one turn of the send loop without its sleep; the loop with its retries is in the machine's producer. Class and machine are tied by the relations their reads and sends both meet (`ReadsHead`, `SendsTail`), not step by step.
- SearchReplay.Agent.Read: a search stopped from outside ends its stream; the model reads one fixed stream per handle.
- Finer interleavings of desktop lease operations and of tab controller operations: each operation is one step, and a tab update answered after its page changed hands is not modelled.
- DeviceRegistry.DeviceRegistry.ApprovePairing: does not claim that a bound device keeps its account; routing is therefore stated against the binding at call time. The registry's state file is not modelled.
- DeviceGateway.DeviceWebSocketGateway.AcceptSocket: the credential check before it is a parameter; the binding check in the router is modelled.
- Validation of identifiers, hashes, codes, URLs and other input formats, and the scan of checkpoints for private reasoning fields, whose verdict is a parameter.
- TextBudget.ApplyText: a Rust string is well-formed by construction, which the model takes as its precondition.
- Patch.Filesystem.AtomicReplace: the name of the temporary file is a parameter that is not in use, as the library that draws it guarantees; links are not modelled.
- VerifiedAction.Wait: time is left out; a settled observation may come at any moment.
- Machine integers: offsets, counters and clocks stay below 2^64. Liveness and fairness are not claimed.
