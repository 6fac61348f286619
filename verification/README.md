# Flight Control: verified models

A Dafny model of the parts of Flight Control whose behaviour is hardest to see from the code, with proofs of what they keep over every run. `dafny verify dfyconfig.toml` checks everything.

| files | what they model |
|---|---|
| `Sessions`, `SessionProtocol`, `SessionInvariant`, `SessionTheorems`, `SessionOutcomes`, `SessionManager` | The application console protocol: clients that start, force and close sessions through an optimistic read-modify-write loop on one device record |
| `Alerts`, `AlertReasons`, `AlertLog`, `AlertState`, `AlertOrder`, `AlertContext`, `AlertCycle`, `AlertHistory`, `AlertExporter`, `AlertBatches` | The alert exporter: a map of maps driven by events, checkpointed cycles that can fail at any stage, batched sending with backoff |
| `Paths`, `Resolver` | The endpoint metadata resolver: prefix stripping, template matching and a split index |
| `EscapeFilter` | The console's in-place `~.` escape filter |
| `VncDelivery` | Bounded delivery of VNC data with an attach flag |
| `Pagination` | Batched list output of the command line client |
| `ShellQuoting` | Quoting of shell arguments |
| `Common` | Optional values, filtering and subsequences |

## How it is modelled

**Console protocol.** `SessionProtocol` is a state machine. A state holds the device record (version, three readiness flags, annotation), the registered sessions and every client's program counter; each call into the device service or the session registration is one step, and any client may step next. `UpdateDevice` commits only at the version that was read; it may also report a version conflict, or fail with or without having committed. The state carries a history: the points at which an updater took effect on the current value, or found nothing to change. `SessionManager` is the manager's own code, running in a world in which other clients take any number of steps between two of its calls; each of its effects is a step of the machine. `SessionOutcomes` says what a call comes to when nobody interferes, told on the request and the device.

The model assumes that every change of the record bumps its version, that session ids are fresh and not empty, that encoding the session list is one-to-one, and that only these clients write the annotation. Text that does not decode is kept as a separate value, with the errors it causes. A run may begin with sessions left over in the annotation. *Registered* means handed to the session registration and not withdrawn from it by the manager; that the gRPC server forgets a session once the agent has connected is not part of the model.

**Alert exporter.** `Alerts` gives the effect of one event on the map and on the two counters as a function. `AlertContext` and `AlertExporter` are the code: methods that change a map on the heap which old and new checkpoint share, so what a failed cycle did to it stays. `AlertCycle` is the same cycle as a function, down to the batches Alertmanager accepts, and holds the statements about runs; `AlertExporter.Runner.Poll` carries them to the heap. `AlertHistory` compares the map with everything listed since the exporter began. What was delivered is what was in an accepted batch. Cleanup deletes by the Reason field, as the code does, so an entry left blank by a set at the zero time stays. Timestamps are integers with a distinguished zero. The order in which Go visits a map is arbitrary wherever it matters.

**Other parts.** Reads from standard input, pages from the server and answers from Alertmanager are parameters or arbitrary choices within what the caller relies on.

Where code and comments disagree the model follows the code:

- `internal/cli/console.go:325-329` says that after `~~` the reader stays in its tilde state; the in-buffer branch leaves it in the newline state.
- The package comment of `internal/alert_exporter/exporter.go:15-18` says alerts are removed by events; they are marked ended and removed by the cleanup after the next successful send.
- `internal/cli/app_console.go:492-499` says data is discarded only while no client is attached; a client that attaches between the last look at the flag and the last select can still lose one message.

Nine properties do not hold without a condition. For each there is a case in which it fails and a proof of exactly when it holds, in terms of what goes in:

- The alert map agrees with the event log exactly when no set comes after its alert has ended by the log, at the time of that alert's last start (`AlertLog.AgreesIffNoStaleSet`, over runs `AlertHistory.AgreesEverywhereIff`, `AlertLog.ReplayLosesADisconnect`).
- The created and resolved counters account for every active alert exactly when the log has no first set at the zero time; each such set is one alert too many (`AlertState.BalancedIffNotPhantom`, `AlertState.RunExcess`, `AlertState.ZeroTimeIsNotCounted`).
- A resource's key belongs to no other resource exactly when its organization, kind and name hold no colon (`AlertOrder.OwnsKeyIff`, `AlertOrder.ColonsConfuseKeys`).
- Backoff delays are positive and within the maximum exactly when the largest product fits in 64 bits (`AlertBatches.BackoffSoundIffFits`, `AlertBatches.HugeBaseDelayWraps`).
- Normalizing a path twice is normalizing it once exactly when it does not end in two slashes behind something else (`Paths.NormalizingIsIdempotentIff`, `Paths.NormalizingIsNotIdempotent`).
- An endpoint found belongs to the request's method exactly when the method holds no colon (`Resolver.AnswerIsOwnMethodsIff`, `Resolver.ColonsConfuseMethods`). By section 9.1 of RFC 9110 a method is a token, which holds none; the resolver does not look.
- A tilde-dot disconnects exactly when the tilde stands at a line start, which is not the same as behind a line end: `EscapeFilter.LineStart` says on the text which places are meant (`EscapeFilter.DisconnectsIffEscape`, `EscapeFilter.LineEndsDoNotDecide`).
- A read that follows a pending tilde treats its bytes as the uncut filter would exactly in the cases, told on the bytes, of `EscapeFilter.PendingTildeAgreesIff`; `EscapeFilter.CutDoubleTildeDiffers` is a case in which it does not.
- With a viewer attached a message can be dropped exactly when the reader has already looked at the flag for the last time and the buffer is full, and then it is the one message in hand (`VncDelivery.DropWhileAttachedIff`, `VncDelivery.OnlyMessageInHandIsDropped`, `VncDelivery.DropsWithViewerAttached`).

## Model

| member | source | states |
|---|---|---|
| `Sessions.AddAppSession` | internal/console/app_console.go:152-176 | The loop refuses exactly the lists that already hold the slot, and otherwise appends one entry |
| `Sessions.AddRefusesIff` | internal/console/app_console.go:152-176 | A plain start is refused exactly when an entry has both its application and its kind of console; otherwise its entry is appended and nothing else changes |
| `Sessions.EvictSlot` | internal/console/app_console.go:199-206 | Compacting into the array being read keeps exactly the entries outside the slot, in order, and reports the last one evicted |
| `Sessions.ReplaceAppSession` | internal/console/app_console.go:190-222 | The replacement updater and the value it leaves in the caller's replaced-session variable |
| `Sessions.ReplaceTakesOver` | internal/console/app_console.go:178-222 | A forced start is never refused; entries of other applications and kinds stay in order, and its own comes last and names the last one of its slot, or none |
| `Sessions.EvictId` | internal/console/app_console.go:234-242 | In-place removal keeps exactly the entries with other ids, in order, and reports whether any went |
| `Sessions.RemoveAppSession` | internal/console/app_console.go:225-255 | Removal leaves the value untouched when the id is not listed, and empties the annotation when nothing is left |
| `Sessions.RemoveTakesOut` | internal/console/app_console.go:225-255 | A removal is never refused; other entries stay in order, and the value is left as it is exactly when the id is not in it |
| `Sessions.RefusesIffUndecodable` | internal/console/app_console.go:152-255 | Text that does not decode is an error for every updater, and nothing else is |
| `Sessions.UpdateKeepsUnique` | internal/console/app_console.go:152-255 | Every updater keeps one entry per (app, kind) and distinct ids, and rewrites no existing entry |
| `Sessions.UpdateDropsOnly` | internal/console/app_console.go:178-255 | An entry vanishes only by removal of its id or by a replacement of its slot that names it |
| `Sessions.RemoveRemoves` | internal/console/app_console.go:225-255 | After removal the id is gone and every other entry is still there |
| `Sessions.AddingChanges` | internal/console/app_console.go:130-132 | Adding a fresh id is never taken for a no-op |
| `SessionInvariant.InvStep` | internal/console/app_console.go:96-377 | The protocol invariant is kept by every step of every client and of the environment |
| `SessionInvariant.RetiredStable` | internal/console/app_console.go:96-377 | An id that is unlisted and has no start left to list it stays so |
| `SessionTheorems.AtMostOneSessionPerSlot` | internal/console/app_console.go:66-70 | In every reachable state the annotation holds at most one entry per (app, kind) and no id twice |
| `SessionTheorems.LoopRefinesAtomicUpdate` | internal/console/app_console.go:92-148 | The current value is the result of running the logged updaters one at a time; a call that reports success is in that log exactly once, whatever it retried, and a call still looping is not in it |
| `SessionTheorems.EntriesAreMoments` | internal/console/app_console.go:101-143 | Every logged update happened at a step of the run on the value current there, and a start's at a version that passed all three guards |
| `SessionTheorems.GoneWithCauseAndForGood` | internal/console/app_console.go:178-222 | A session that left was removed by its own id or taken over by a forced start of the same slot that names it, and is never listed again |
| `SessionTheorems.ReportIsTheEvicted` | internal/console/app_console.go:186-215 | After any retries the reported id is the slot's occupant at the commit, the same id the new entry carries, and empty for a free slot |
| `SessionTheorems.ListedIsAccounted` | internal/console/app_console.go:331-377 | Every listed session is registered, was there at the start, or belongs to a start that is still running or whose rollback failed |
| `SessionTheorems.UnregisteredAfterRemoval` | internal/console/app_console.go:366-377 | A session loses its registration only when its entry is already gone for good |
| `SessionTheorems.RolledBackStartIsNeverListed` | internal/console/app_console.go:331-357 | A failed start whose rollback reported success is never listed again, even if its write had committed |
| `SessionTheorems.EveryCallReturns` | internal/console/app_console.go:101-143 | Whatever the other clients do, a call makes at most 42 service calls |
| `SessionOutcomes.StartAlone` | internal/console/app_console.go:273-364 | A start nobody interferes with ends with the status its request and the device call for, for every request and device; on success the session is listed and registered and other slots are untouched, after up to nine version conflicts; otherwise nothing changes |
| `SessionOutcomes.CloseAlone` | internal/console/app_console.go:366-377 | A close nobody interferes with succeeds whatever the state of the device, after up to nine version conflicts: its id is unlisted and unregistered and every other entry stays |
| `SessionOutcomes.RollbackAlone` | internal/console/app_console.go:331-357 | The same for a rollback, which ends with the status of the failed start |
| `SessionOutcomes.RemovalIsNeverRefused` | internal/console/app_console.go:92-95 | Whatever the device flags, a cleanup that reads the device goes on to its write, or to its success if its id is not listed |
| `SessionOutcomes.FailuresAreReported` | internal/console/app_console.go:101-147 | An unreadable device, a failed write, a tenth conflict or a refused registration ends a close with an error and sends a start to its rollback with that error |
| `SessionManager.Manager.ModifyAnnotations` | internal/console/app_console.go:96-148 | The ten-pass loop takes only protocol steps and its status is the one the protocol prescribes; without the start guards it never reports a conflict |
| `SessionManager.Manager.StartSession` | internal/console/app_console.go:273-364 | A session is returned exactly on success, and then it is registered and its update took effect exactly once; invalid input and nothing else is a bad request |
| `SessionManager.Manager.CloseSession` | internal/console/app_console.go:366-377 | A close never reports a conflict; after a successful one the id is unregistered, unlisted and can never be listed again |
| `Alerts.ProcessAt` | internal/alert_exporter/event_processor.go:281-393 | The effect of one event on one alert: set, ended, or untouched |
| `AlertReasons.EventDoes` | internal/alert_exporter/event_processor.go:273-393 | What each event reason, by its name, does to each alert: its own is started, others about the same condition stop, a recovery stops those about its condition, a terminal event all of the resource; nothing else changes |
| `AlertReasons.RecoveryClears` | internal/alert_exporter/event_processor.go:290-318 | After a healthy, normal or connected event no alert about that condition is active on the resource, and every other alert is as before |
| `AlertReasons.TerminalClears` | internal/alert_exporter/event_processor.go:283-284 | After a deletion or a decommissioning no alert of the resource is active |
| `AlertReasons.RaisingActivates` | internal/alert_exporter/event_processor.go:286-316 | After a raising event its alert is the only active one about its condition, unless an ended entry is held that starts at the event's time |
| `AlertReasons.ListedEventDoes` | internal/alert_exporter/event_processor.go:185-216 | A usable event takes effect with its own fields as listed, any other not at all |
| `AlertReasons.WhatIsUsable` | internal/alert_exporter/event_processor.go:195-212 | An event with a time and a visible object name is usable, one without a time or with a blank name is not |
| `AlertLog.MapAgreesWithLog` | internal/alert_exporter/event_processor.go:281-393 | An alert is active exactly when its last event in the log sets it; its start is the last set's time and its end the time of the first closing event after it |
| `AlertLog.AgreesIffNoStaleSet` | internal/alert_exporter/event_processor.go:353-374 | The map agrees with the log after every event exactly when no set is stale, which is read off the log and the initial map alone |
| `AlertLog.FreshTimesAreNeverStale` | internal/alert_exporter/event_processor.go:361 | Timestamps that increase per resource beyond every held start are never stale |
| `AlertLog.ImmediateRepeatIsHarmless` | internal/alert_exporter/event_processor.go:281-393 | Applying one event twice in a row changes neither map nor counters |
| `AlertLog.ReplayLosesADisconnect` | internal/alert_exporter/event_processor.go:361 | Replaying connect and disconnect leaves the device resolved |
| `AlertLog.LastTouchIsLast` | internal/alert_exporter/event_processor.go:281-319 | The log reading behind the agreement really is the last event that concerns the alert |
| `AlertLog.LastSetIsLast` | internal/alert_exporter/event_processor.go:281-319 | The log reading behind the start time really is the last event that sets the alert |
| `AlertLog.FirstCloseIsFirst` | internal/alert_exporter/event_processor.go:281-319 | The log reading behind the end time really is the first closing event |
| `AlertState.ProcessKeepsExclusive` | internal/alert_exporter/exporter.go:12-17 | At most one active alert per exclusive group survives any event |
| `AlertState.ProcessKeepsWellFormed` | internal/alert_exporter/event_processor.go:355-374 | Every entry's reason stays its inner key, and its org, kind and name rebuild its outer key, exactly when the event is not a set of an absent alert at the zero time |
| `AlertState.ProcessKeepsNamedOrBlank` | internal/alert_exporter/event_processor.go:355-374 | Whatever its time, an event leaves every entry named by its inner key or blank |
| `AlertState.BalancedIffNotPhantom` | internal/alert_exporter/event_processor.go:325-393 | Created minus resolved is the change in active alerts, exactly when the event is not a set of an absent alert at the zero time; such a set is one alert too many |
| `AlertState.RunExcess` | internal/alert_exporter/event_processor.go:325-393 | Over any list of events the active alerts not accounted for are as many as the log has first sets at the zero time |
| `AlertState.CountersAreExact` | internal/alert_exporter/event_processor.go:325-393 | Resolved counts exactly the alerts that stop being active, created exactly those that become active, except a first set at the zero time |
| `AlertState.ZeroTimeIsNotCounted` | internal/alert_exporter/event_processor.go:355-374 | A first set at the zero time leaves an active alert that is not counted as created |
| `AlertState.SweptKeepsState` | internal/alert_exporter/alert_sender.go:30-42 | Cleanup keeps every active alert, exclusive groups and the naming of entries; on self-describing maps it leaves nothing but active alerts |
| `AlertOrder.KeyIsInjective` | internal/alert_exporter/exporter.go:81-83 | Among organizations and kinds without a colon the key tells resources apart, whatever their names |
| `AlertOrder.OwnsKeyIff` | internal/alert_exporter/exporter.go:81-83 | A resource shares its key with no other exactly when its organization, kind and name hold no colon |
| `AlertOrder.ProcessCommutes` | internal/alert_exporter/event_processor.go:281-393 | Events on different resources commute on the map and on both counters |
| `AlertOrder.OrganizationOrderIsInvisible` | internal/alert_exporter/event_processor.go:78-111 | The map and both counters do not depend on the order of distinct organizations, whatever kinds and names hold |
| `AlertOrder.ColonsConfuseKeys` | internal/alert_exporter/exporter.go:81-83 | With a colon in any part of it another resource has the same key |
| `AlertContext.CheckpointContext.SetAlert` | internal/alert_exporter/event_processor.go:338-375 | Setting an alert in place has exactly the specified effect on map and counters |
| `AlertContext.CheckpointContext.ClearAlertGroup` | internal/alert_exporter/event_processor.go:377-393 | Clearing a group in place ends exactly its active alerts and counts them |
| `AlertContext.CheckpointContext.ResolveAllAlertsForResource` | internal/alert_exporter/event_processor.go:325-336 | A terminal event ends every active alert of its resource, in whatever order the map is visited |
| `AlertContext.CheckpointContext.ProcessEvent` | internal/alert_exporter/event_processor.go:281-319 | The dispatch over reasons does what the specification assigns to each reason |
| `AlertExporter.ProcessPage` | internal/alert_exporter/event_processor.go:185-216 | Events without time or name are skipped and counted, the others applied in order |
| `AlertExporter.ProcessOrganizationEvents` | internal/alert_exporter/event_processor.go:154-225 | All pages delivered before a failure take effect, in order |
| `AlertExporter.ProcessLatestEvents` | internal/alert_exporter/event_processor.go:42-151 | The shared map is changed even when no new checkpoint results; a new one shares the old one's map |
| `AlertExporter.CleanupResource` | internal/alert_exporter/alert_sender.go:33-37 | Deleting by the Reason field, in any visiting order: no entry changes, one goes only if an ended entry names it, and an ended entry that names itself goes |
| `AlertExporter.CleanupAlerts` | internal/alert_exporter/alert_sender.go:31-42 | The same for every resource of any map, and no empty resource is left; where entries are named or blank the result is the specified one in every visiting order |
| `AlertExporter.SendAlerts` | internal/alert_exporter/alert_sender.go:20-28 | Sending stops at the first batch Alertmanager does not accept; nothing is deleted unless every batch was accepted, and then every alert of the map was in one |
| `AlertExporter.CalculateActiveAlerts` | internal/alert_exporter/exporter.go:264-271 | The gauge is the number of entries in the map |
| `AlertExporter.Runner.ProcessingCycle` | internal/alert_exporter/exporter.go:145-227 | A cycle on the heap is the specified cycle, with failures at every stage, for every timestamp and also for a checkpoint without a map; on any map groups stay exclusive and entries go only after a full send |
| `AlertExporter.Runner.SendAndStore` | internal/alert_exporter/exporter.go:190-227 | The cycle after processing: what is sent, deleted, stored and counted, for each stage that may fail |
| `AlertExporter.Runner.Poll` | internal/alert_exporter/exporter.go:103-143 | Cycle after cycle on the heap is the specified run, and an alert that is gone was in an accepted batch with its end time |
| `AlertCycle.StateHoldsOverRuns` | internal/alert_exporter/exporter.go:178-227 | Over any run, whatever fails and whatever the timestamps, groups stay exclusive and entries named or blank; without first sets at the zero time they stay self-describing |
| `AlertCycle.SetTimesMeanNoPhantoms` | internal/alert_exporter/event_processor.go:361 | A run whose events all carry a time has no first set at the zero time |
| `AlertCycle.DeletedOnlyAfterDelivery` | internal/alert_exporter/alert_sender.go:20-42 | An alert disappears only in a cycle whose batches were all accepted, one of them with its name, resource, organization, summary, start and end time |
| `AlertCycle.GoneMeansDelivered` | internal/alert_exporter/exporter.go:178-227 | Over a whole run, an alert that is gone was in an accepted batch of some cycle with those fields and its end time |
| `AlertCycle.OnlyEntriesAreDelivered` | internal/alert_exporter/alertmanager_utils.go:105-137 | Whatever Alertmanager accepts in a cycle, even one whose send fails, describes an entry of the map field by field |
| `AlertCycle.OrderAndPagesAreInvisible` | internal/alert_exporter/event_processor.go:78-111 | Processing gives the same map and counters however organizations are ordered and their events cut into pages |
| `AlertCycle.ListedInOrder` | internal/alert_exporter/event_processor.go:78-225 | Events are processed organization after organization and page after page, and an organization whose id does not parse contributes none |
| `AlertCycle.CheckpointIsLastSuccess` | internal/alert_exporter/exporter.go:178-227 | After any run the checkpoint time, the gauge and both totals are those of the last cycle that succeeded in every stage |
| `AlertCycle.ActiveCountOverRuns` | internal/alert_exporter/exporter.go:178-281 | In any run the active alerts are the initial ones plus created minus resolved, where the totals miss exactly what failed cycles processed and first sets at the zero time |
| `AlertCycle.TotalsAreExact` | internal/alert_exporter/exporter.go:264-281 | A successful cycle adds to each total exactly the alerts its events made active, except first sets at the zero time, and those they ended |
| `AlertCycle.GaugeConservation` | internal/alert_exporter/exporter.go:264-281 | After a successful cycle the gauge is the initial active count plus created minus resolved, plus what the totals missed and the ended entries left; over successful cycles the totals miss just the first sets at the zero time, and without those nothing ended is left |
| `AlertHistory.MapAgreesOverRuns` | internal/alert_exporter/exporter.go:178-227 | Over any run, across failures and cleanups, an alert is active exactly when its last event in everything listed sets it, and an alert still held began at its last set |
| `AlertHistory.AgreesEverywhereIff` | internal/alert_exporter/event_processor.go:353-374 | Map and whole log agree after every event of every cycle exactly when no cycle meets a stale set |
| `AlertHistory.LogWithoutStaleSets` | internal/alert_exporter/event_processor.go:361 | A whole log without stale sets is enough for that, wherever cycles begin and whatever cleanup deletes |
| `AlertBatches.ChunksConcat` | internal/alert_exporter/alertmanager_utils.go:113-134 | The batches concatenate to every alert exactly once |
| `AlertBatches.ChunkSizes` | internal/alert_exporter/alertmanager_utils.go:117-129 | All batches but the last hold exactly a hundred alerts, and none is empty |
| `AlertBatches.PostedTells` | internal/alert_exporter/alertmanager_utils.go:329-345 | An ended alert is posted with its end time, an active one with the zero time for it, and the other fields are the entry's |
| `AlertBatches.SendAll` | internal/alert_exporter/alertmanager_utils.go:105-137 | What is accepted is all batches on success and on failure those before the first that the server does not accept |
| `AlertBatches.PostBatchWithRetry` | internal/alert_exporter/alertmanager_utils.go:140-208 | A batch is sent exactly if some attempt within maxRetries is accepted with only retryable answers before it; pauses are bounded in total |
| `AlertBatches.NewAlertmanagerClient` | internal/alert_exporter/alertmanager_utils.go:52-102 | Every setting within its range is taken and every other falls back to its default, so retries lie between 1 and 10 and delays are positive |
| `AlertBatches.DelaysAt` | internal/alert_exporter/alertmanager_utils.go:187-197 | The pauses made are the backoff delays of the failed attempts, in order |
| `AlertBatches.BackoffDoubles` | internal/alert_exporter/alertmanager_utils.go:317-327 | The first pause is the base delay and each next one twice the one before, up to the maximum and ten doublings |
| `AlertBatches.BackoffGrows` | internal/alert_exporter/alertmanager_utils.go:317-327 | While products fit, delays are positive, non-decreasing and within the maximum |
| `AlertBatches.BackoffSoundIffFits` | internal/alert_exporter/alertmanager_utils.go:317-327 | In 64-bit arithmetic all delays up to an attempt are sound exactly when the largest product fits |
| `AlertBatches.HugeBaseDelayWraps` | internal/alert_exporter/alertmanager_utils.go:317-327 | A base delay of 2^62 makes the second pause negative and the third zero |
| `Paths.SplitPath` | internal/apimetadata/resolver.go:187-201 | Trimming, splitting and dropping empty parts yields the maximal runs between slashes |
| `Paths.SegmentsSplit` | internal/apimetadata/resolver.go:187-201 | A slash anywhere separates: both sides contribute their segments independently |
| `Paths.ExtraSlashes` | internal/apimetadata/resolver.go:187-201 | Leading, trailing and doubled slashes make no difference to the segments |
| `Paths.SplitOfJoin` | internal/apimetadata/resolver.go:187-201 | Splitting a joined list of segments returns the list |
| `Paths.NormalizingKeepsSegments` | internal/apimetadata/resolver.go:150-161 | Normalizing a path keeps its segments |
| `Paths.NormalizePathIs` | internal/apimetadata/resolver.go:150-161 | Normalizing puts a slash in front where there is none, takes one away at the end, and does nothing else |
| `Paths.NormalizingIsIdempotentIff` | internal/apimetadata/resolver.go:150-161 | Normalizing a second time changes nothing exactly when the path does not end in two slashes behind something else |
| `Paths.NormalizingIsNotIdempotent` | internal/apimetadata/resolver.go:154-156 | Normalizing strips one trailing slash only, so twice can strip more than once |
| `Paths.MatchTemplatePath` | internal/apimetadata/resolver.go:165-184 | The loop decides segment-wise matching of the paths as given |
| `Paths.SegmentMatchesIff` | internal/apimetadata/resolver.go:175-181 | A segment in braces matches any segment, every other one itself alone |
| `Paths.MatchesIffInstance` | internal/apimetadata/resolver.go:163-184 | A path matches exactly when some segments put for the placeholders turn the pattern into it |
| `Paths.MatchingIgnoresNormalization` | internal/apimetadata/resolver.go:165-167 | Normalizing either side does not change whether they match |
| `Paths.InstancesMatch` | internal/apimetadata/resolver.go:163-184 | Filling a pattern in and joining the result gives a path that matches it |
| `Resolver.NewStaticResolver` | internal/apimetadata/resolver.go:31-56 | In any visiting order the index holds every entry of the table that has a colon, in the right part, and nothing else |
| `Resolver.NormalizeCandidates` | internal/apimetadata/resolver.go:112-142 | The candidates in their order, built with a set of those seen |
| `Resolver.CandidatesAre` | internal/apimetadata/resolver.go:110-142 | The candidates are the normalized path, which comes first, and what is left of it behind each server prefix, none twice |
| `Resolver.Match` | internal/apimetadata/resolver.go:69-108 | For every method the answer is that of the first non-empty tier of a scan of the whole table |
| `Resolver.FoundIffSomeEntryMatches` | internal/apimetadata/resolver.go:69-108 | Something is found exactly when some entry matches some candidate of the route path or the request path |
| `Resolver.FullPathAnswersFirst` | internal/apimetadata/resolver.go:69-94 | A plain entry for the very path asked for answers before any other: for the route path if there is one, else for the request path |
| `Resolver.PrefixedRequestIsAnswered` | internal/apimetadata/resolver.go:110-138 | A request behind a server prefix is answered by the plain entry without the prefix when no other candidate has an entry |
| `Resolver.TemplateAnswers` | internal/apimetadata/resolver.go:97-105 | A request that fills in a template of its method is answered |
| `Resolver.RouteDecides` | internal/apimetadata/resolver.go:70-87 | If an entry matches a candidate of the route path, the answer is such an entry, whatever the request path |
| `Resolver.AnswerIsUniqueIff` | internal/apimetadata/resolver.go:69-108 | The answer does not depend on the order of the index exactly when, on the candidates that decide, a plain path matches or all matching templates carry the same metadata |
| `Resolver.AnswerIsOwnMethodsIff` | internal/apimetadata/resolver.go:39-43 | What is found belongs to an entry of the request's method exactly when the method holds no colon |
| `Resolver.ColonsConfuseMethods` | internal/apimetadata/resolver.go:39-43 | With a colon in the method a lookup can return the entry of another method |
| `EscapeFilter.RawReader.Read` | internal/cli/console.go:253-353 | One read forwards exactly what the recursive filter forwards and ends in its state |
| `EscapeFilter.RawReader.Compact` | internal/cli/console.go:305-352 | The in-place pass over the buffer equals the recursive filter |
| `EscapeFilter.RunSplits` | internal/cli/console.go:305-352 | The filter may be interrupted anywhere but on a pending tilde |
| `EscapeFilter.DisconnectsIffEscape` | internal/cli/console.go:307-350 | The filter disconnects exactly when the text holds a tilde-dot at a line start, where line starts are read off the text |
| `EscapeFilter.NewlineIffLineStart` | internal/cli/console.go:307-350 | Until it disconnects, the filter is in its newline state exactly at the line starts of the text |
| `EscapeFilter.LineEndsDoNotDecide` | internal/cli/console.go:324-338 | A tilde-dot behind a line end can be forwarded, and one in mid-line can disconnect |
| `EscapeFilter.EscapeDisconnects` | internal/cli/console.go:320-323 | At every escape of the text, what was forwarded is what the bytes before it forward and nothing behind it |
| `EscapeFilter.PlainTextPasses` | internal/cli/console.go:307-350 | Text in which no line opens with a tilde passes unchanged |
| `EscapeFilter.UnchangedIffPasses` | internal/cli/console.go:307-350 | Text passes unchanged exactly when every tilde at a line start is followed by a byte other than a tilde and a dot |
| `EscapeFilter.ForwardedIs` | internal/cli/console.go:307-350 | Without an escape exactly the bytes typed are forwarded, less one tilde of every pair at a line start and a last one held back |
| `EscapeFilter.ChunkingIsInvisible` | internal/cli/console.go:253-353 | For any cutting in which no read ends right behind a tilde at a line start, the output is the filter of the whole input |
| `EscapeFilter.HeldBackIffEndsPending` | internal/cli/console.go:340-342 | A tilde is held back for the next read exactly when the text ends on one at a line start and holds no escape |
| `EscapeFilter.ForwardedWasTyped` | internal/cli/console.go:253-353 | For every cutting, what is forwarded is a subsequence of what was typed |
| `EscapeFilter.DisconnectedForwardsNothing` | internal/cli/console.go:268-271 | Nothing is forwarded after a disconnect |
| `EscapeFilter.PendingTildeAgreesIff` | internal/cli/console.go:273-303 | Exactly when, told on the bytes, resolving a pending tilde in the next read gives what the uncut filter gives |
| `EscapeFilter.SmallBufferFlushes` | internal/cli/console.go:276-281 | A buffer of one byte flushes the pending tilde, and what comes next is filtered as plain text |
| `EscapeFilter.CutDoubleTildeDiffers` | internal/cli/console.go:292-296 | Two tildes and a letter come out differently when cut between the tildes |
| `VncDelivery.DeliveryIsInOrder` | internal/cli/app_console.go:498-572 | Consumed plus buffered messages are, in order, exactly the received ones that were not dropped, abandoned or still in flight; the buffer stays within 64 |
| `VncDelivery.DroppedOnlyWhenDetachedAndFull` | internal/cli/app_console.go:50-71 | A message is dropped only if during its own delivery the flag was seen down and the buffer was full |
| `VncDelivery.OnlyMessageInHandIsDropped` | internal/cli/app_console.go:492-499 | While a viewer stays attached at most one message is dropped, the one in hand, and only by a reader past its last load of the flag with the buffer full |
| `VncDelivery.DropWhileAttachedIff` | internal/cli/app_console.go:50-71 | With the viewer staying attached a message can be dropped exactly from such a state |
| `VncDelivery.DropsWithViewerAttached` | internal/cli/app_console.go:50-71 | Such a state is reached: 64 messages buffered, one more sees no viewer, the viewer attaches, the message is dropped |
| `VncDelivery.DetachedReaderIsNeverStuck` | internal/cli/app_console.go:43-71 | Once the viewer is gone a delivery can finish within three steps of the reader |
| `VncDelivery.DeliveryCanEnd` | internal/cli/app_console.go:50-71 | With room in the buffer a delivery in progress can end with its message in the buffer, viewer or no viewer |
| `VncDelivery.BackpressureEnds` | internal/cli/app_console.go:43-61 | A full buffer holds the reader up only until the attached viewer takes a message; then the one in hand is delivered |
| `VncDelivery.LoadSeesViewer` | internal/cli/app_console.go:563-565 | The flag is up from attaching until it is cleared behind the ended bridge |
| `Pagination.GetOptions.HandleList` | internal/cli/get.go:714-777 | Listing fails exactly if a request or a display did. Batched, it shows exactly the first min(limit, N) items in order, or all for limit 0, and on failure a prefix of them; unbatched, exactly the page received; no request asks for a zero remainder |
| `Pagination.GetOptions.Batches` | internal/cli/get.go:734-770 | The same for the loop itself, with 32-bit counters |
| `Pagination.GetOptions.NeedsBatchingIs` | internal/cli/get.go:721-724 | Only tables are listed in batches, and only for limit 0 or above a thousand |
| `Pagination.WantedIs` | internal/cli/get.go:734-770 | What is wanted is a prefix of the items behind the starting point, as long as the limit allows |
| `ShellQuoting.QuotedText` | internal/backup/deployer.go:196-200 | Inside quotes the escaped text contributes exactly the original text to the word |
| `ShellQuoting.TokenizeOfJoin` | internal/backup/deployer.go:194-200 | Escaping any list of strings, joining with spaces and tokenizing as a POSIX shell returns the list |
| `ShellQuoting.EscapeIsInjective` | internal/backup/deployer.go:196-200 | Different strings escape to different texts |

## Left out

- AlertExporter.Runner.ProcessingCycle: on a map with an entry whose reason is neither its key nor blank, or with a blank key, what cleanup leaves depends on the visiting order, so the equality with the specified cycle is for the other maps; the exporter never leaves those once on them.
- AlertExporter.Runner.Poll: the ticker and the cancellation; it runs as many cycles as there are rounds.
- AlertBatches.PostBatchWithRetry: the answer to each attempt is already classified as accepted, retryable or fatal; how errors and status codes are classified is a finite table.
- VncDelivery.DeliveryIsInOrder: the polling loop is modelled as steps of a state machine, not as a method, because it need not end while a viewer is attached and does not read.
- Pagination.GetOptions.HandleList: the summary request after batching and the validation of negative limits; a display either shows its whole page or fails and shows nothing of it.
- EscapeFilter.RawReader.Read: raw terminal mode and read errors.
- Sessions.RemoveAppSession: encoding and decoding text; an encoded list is a value, and an encoding failure does not occur.
- HTTP, gRPC, WebSocket, database, TLS, file and terminal calls, logging, tracing: only their outcomes are modelled.
- `internal/console/console.go`, the sibling for plain console sessions: a simpler form of the same protocol.
- That no event is ever missed: the new checkpoint time is read after listing, and an organization whose listing fails part-way is skipped while the time still advances.
- Loading and storing the checkpoint as text, and the field selector of the event listing.
- Backup archive creation, authentication, configuration, certificates: mostly calls into other systems or finite tables.
