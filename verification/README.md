# Verification of the desktop agent

A Dafny model of the stateful cores of the agent, with proofs about them. `dafny verify dfyconfig.toml`
checks everything. Source paths below are relative to the repository's root.

| file | what it models |
|---|---|
| `CacheModel.dfy`, `MemoryCache.dfy` | the in-memory cache, the only one the factory builds: as a value with a never-pruned reference, and as the object holding a map and a list of shared cells |
| `CommandHandler.dfy`, `CommandTheorems.dfy` | the command handler: one goroutine per command, a bounded worker pool, a wait group, cancellation, the cache. Every interleaving |
| `AgentShutdown.dfy` | the running agent: collector, uploader, poller, maintenance, heartbeat, the caller of `Stop` and the shutdown goroutine. Every interleaving |
| `Collection.dfy` | the collection cycle: shared buffer, object pool, snapshot copies |
| `Upload.dfy` | the agent's and the queue's upload passes |
| `MovingAverage.dfy`, `RateMonitors.dfy` | the circular-buffer moving average; network and disk counter deltas |
| `Retry.dfy`, `Heartbeat.dfy` | backoff with cap and jitter, the request retry loop, and the heartbeat rounds around it |
| `Chocolatey.dfy` | the two scanners of Chocolatey's output |
| `Basics.dfy` | `Option` and `Result`, durations, facts about sequences and counting |

How to read the models:

- Objects the program updates in place are classes (`MemoryCache`, `MovingAverage`, `NetworkRateMonitor`,
  `DiskIOMonitor`, `HeartbeatService`, the collection `System` with its buffer and pool). Each method is tied to a
  function of the old state, and what the program promises is proved about that function.
- The two protocols are step systems: a state, an `Enabled` predicate, a `Step` function. A run is any sequence of
  enabled steps, so a statement about all runs covers every interleaving. The steps are the program's atomic actions:
  a channel operation, a wait-group operation, a call on the cache (which holds its lock throughout), the end of an
  I/O call.
- Clock readings, collector readings, server answers, executor outcomes, the order in which a map yields its entries
  and the choice among ready `select` branches are arbitrary: parameters or nondeterminism.
- Times and durations are integers of nanoseconds. Samples and backoffs are real numbers. The rate counters are
  64-bit.

Where the code and its comments or tests say different things, the model follows the code:

- Jitter is added after the cap, so a wait can exceed the configured maximum, by at most 24.5 %
  (`internal/api/client.go:416-422`). `Backoff.StaysWithinMaxExactlyWhen` says for which configurations it cannot:
  both backoffs the program ships keep to their maximum with up to eight retries, and so with the three they are
  shipped with (`internal/config/defaults.go:19`).
- On a counter reset the network monitor reports the current value, not 0 (`internal/metrics/network.go:317-323`).
- Nothing ever marks a measurement as synced (`internal/agent/agent.go:474-476`, `internal/api/queue.go:250-251`), so
  delivery is at least once: each pass sends again whatever is in its window.
- The poll worker stores commands with an empty payload (`internal/agent/agent.go:536-543`), which does not decode, so
  resuming after a restart never runs them: `CommandTheorems.PolledCommandsAreNeverLaunched`. Exactly which stored
  commands resuming does run, from any cache, is `CommandTheorems.ResumingLaunchesExactly`.
- In the list parser's regular expression `\s` does not match a vertical tab, while `strings.TrimSpace` removes it. On
  a line with a tab between name and version the list has the package and the installed-check does not find it:
  `Chocolatey.TabDisagrees`; `Chocolatey.ScanAgreesExactlyWhen` says exactly when the two agree.

## Model

| member | source | states |
|---|---|---|
| CommandHandler.InitialInv | internal/api/commands.go:81-99 | a new handler over any cache, about to resume the cache's pending list, satisfies the protocol invariant |
| CommandHandler.StepAccounting | internal/api/commands.go:171-183 | every step keeps: pool tokens = goroutines between acquire and release, at most the capacity; wait group = live goroutines |
| CommandHandler.StepTracked | internal/api/commands.go:171-259 | every step keeps what a command's phase says: in the cache with a payload that decodes, pending until marked, submitted once its result was sent, launched at most once, aborted only after cancellation |
| CommandHandler.StepInherited | internal/api/commands.go:295-333 | every step keeps: a command found in the cache is untouched, or still to be resumed, or resumed because it was pending and decodes |
| CommandHandler.StepInv | internal/api/commands.go:114-360 | the whole protocol invariant is inductive |
| CommandTheorems.HandleCommandStores | internal/api/commands.go:114-149 | accepting a command stores its ID, type, payload and time of creation, pending, and changes no other record; one that cannot be encoded leaves no trace |
| CommandTheorems.RecordsKeep | internal/api/commands.go:171-259 | no run changes the identity, type, payload or time of creation of a stored command |
| CommandTheorems.PoolAndWaitGroup | internal/api/commands.go:82-93 | in every reachable state the pool holds as many tokens as commands are running, submitted or marked, at most the configured number (5 if not positive), and the wait group counts those launched and not finished |
| CommandTheorems.CommandsAreConserved | internal/api/commands.go:114-259 | from any cache, in every interleaving: no command is lost or invented; the pending ones are exactly those taken up and not yet marked, and those found in the cache and not resumed (from an empty cache: exactly those not marked); each is launched at most once, and complete only after exactly one submission attempt |
| CommandTheorems.PendingWhenDrained | internal/api/commands.go:337-353 | from any cache, when the wait inside `Stop` is over, the pending commands are exactly those cancelled before getting a slot, those stored but not launched, and those found in the cache and not resumed; every other one taken up is done with one submission |
| CommandTheorems.NilMeansDrained | internal/api/commands.go:345-353 | whenever `Stop` has returned nil, in any life, then at the moment it did no goroutine was live, no slot was held, every command taken up was done with one submission, cancelled, or stored and not launched, and the pending commands were exactly the last two kinds and those not resumed |
| CommandTheorems.RestartLaunchesExactlyTheUnfinished | internal/api/commands.go:295-333 | from any cache, and whatever state the first life ended in, a crash included: a fresh handler that has resumed over the cache it left has launched each command of that life exactly once if it was not complete, and otherwise not at all |
| CommandTheorems.RestartLaunchesExactlyTheCancelled | internal/api/commands.go:337-353 | after a stop that drained the handler and left nothing half-launched, those are exactly the cancelled commands |
| CommandTheorems.ResumingLaunchesExactly | internal/api/commands.go:308-330 | for every cache, at every moment of every run: a command found in the cache has been launched, once, if and only if it was pending, its payload decodes, and the resuming loop is past it; one not launched is not submitted and keeps its record |
| CommandTheorems.PolledCommandsAreNeverLaunched | internal/agent/agent.go:534-545 | so a command stored by the poll worker, with its empty payload, is never launched by resuming and stays pending, in every run |
| CommandTheorems.SomeGoroutineCanStep | internal/api/commands.go:171-183 | whenever a goroutine is live, some goroutine can step: no deadlock on a full pool, with or without cancellation |
| CommandTheorems.InternalStepDecreases | internal/api/commands.go:171-259 | every step of a goroutine, launch or resumption strictly decreases a natural-number measure |
| CommandTheorems.InternalRunsAreBounded | internal/api/commands.go:171-259 | without new commands no run is longer than the measure of its first state |
| CommandTheorems.StopReturnsAfterBoundedRun | internal/api/commands.go:337-353 | once `Stop` is called and no internal step is left, which takes at most the measure, `Stop` can return nil, with nothing half-launched and nothing left to resume |
| CommandTheorems.DrainingRunExists | internal/api/commands.go:337-353 | from every reachable state such a run exists |
| CacheModel.PruneKeepsWindow | internal/cache/memory.go:113-122 | pruning at a cutoff changes no query that starts at or after it |
| CacheModel.ApplyAgrees | internal/cache/memory.go:90-137 | one call keeps the cache and its never-pruned reference in agreement on every window that starts at or after a bound not before the cutoff it uses |
| CacheModel.RetentionRefinesUnboundedLog | internal/cache/memory.go:90-137 | after any operations, every query that starts at or after every cutoff used so far answers, in order, what a cache that never forgets would |
| CacheModel.CutoffsUsedOlderThanADay | internal/cache/memory.go:28-30 | with at least one day of retention and no clock reading after now, no cutoff of any run lies inside the last day |
| CacheModel.UploadWindowIsComplete | internal/agent/agent.go:404-407 | whatever the configured retention, the agent's 24-hour window is never affected by pruning |
| CacheModel.WindowIsWholeExactlyWhen | internal/api/queue.go:204-206 | a window of so many days is whole after every run, with a clock that does not go backwards, if and only if the retention period is at least that long; so the queue's seven days are with the default retention and not with a shorter one |
| CacheModel.CleanupKeepsExactly | internal/cache/memory.go:113-122 | a cleanup keeps exactly the measurements with a timestamp not before now minus the retention period, and changes nothing else but the time of the last cleanup |
| CacheModel.StoreMetricsKeepsExactly | internal/cache/memory.go:90-109 | storing appends; more than an hour after the last cleanup exactly the measurements within the retention period are then kept, and otherwise all |
| CacheModel.MarkCompletesExactly | internal/cache/memory.go:78-87 | completing sets the status and completion time of that command and nothing else; an unknown ID changes nothing |
| CacheModel.WindowMember | internal/cache/memory.go:125-137 | a query finds exactly the measurements of the closed interval |
| CacheModel.FreshIsEmpty | internal/cache/memory.go:27-38 | a new cache is empty and keeps seven days unless configured otherwise |
| CacheModel.NumbersAreUnique | internal/cache/memory.go:41-51 | over any run that stores entries without a number, every entry gets one of its own, and measurements are stored in the order of theirs |
| MemoryCache.MemoryCache.constructor | internal/cache/memory.go:27-38 | a new cache is valid and empty, with the configured days of retention or seven |
| MemoryCache.MemoryCache.StoreCommand | internal/cache/memory.go:41-51 | the object's contents change exactly as the model says: numbered if new, stored under its ID |
| MemoryCache.MemoryCache.GetPendingCommands | internal/cache/memory.go:54-75 | for every map content and iteration order, the result is a permutation of the pending commands, by non-decreasing creation time; as IDs, each pending one once |
| MemoryCache.MemoryCache.SelectOldest | internal/cache/memory.go:65-72 | the inner loop of the exchange sort permutes the list and puts the oldest of the tail at its head, keeping the sorted head |
| MemoryCache.MemoryCache.CollectPending | internal/cache/memory.go:58-63 | the map loop collects each pending cell once and no other |
| MemoryCache.PendingIDsInOrder | internal/api/commands.go:295-296 | what the sort returns is the list of IDs the command handler's resuming loop is assumed to get |
| MemoryCache.MemoryCache.MarkCommandComplete | internal/cache/memory.go:78-87 | the named command, if there, becomes complete; nothing else changes |
| MemoryCache.MemoryCache.StoreMetrics | internal/cache/memory.go:90-109 | the contents change as `CacheModel.StoreMetricsKeepsExactly` says; no other measurement's cell enters |
| MemoryCache.MemoryCache.CleanupOldMetrics | internal/cache/memory.go:113-122 | exactly the measurements not older than the retention period are kept, in order |
| MemoryCache.MemoryCache.GetMetrics | internal/cache/memory.go:125-137 | exactly the measurements in the closed interval, in order |
| MemoryCache.MemoryCache.Cleanup | internal/cache/memory.go:146-151 | the contents change as `CacheModel.CleanupKeepsExactly` says |
| AgentShutdown.StartedInv | internal/agent/agent.go:266-291 | the state in which `Start` returns nil satisfies the shutdown invariant |
| AgentShutdown.StepInOrder | internal/agent/agent.go:311-347 | every step keeps: the wait groups count the goroutines that have not exited; how far the shutdown goroutine is determines who was signalled and who has exited; nobody exits unsignalled; `Stop` has not returned before the shutdown is over or its time is |
| AgentShutdown.StepClosedLast | internal/agent/agent.go:356-361 | every step keeps: the cache is closed at most once and nothing happens to it afterwards |
| AgentShutdown.EventsAreRecorded | internal/agent/agent.go:188-196 | the record of the cache's uses and closing is exact |
| AgentShutdown.StepKept | internal/metrics/system.go:232-269 | every step keeps: every snapshot taken is stored or about to be, and the pruned cache agrees with an unpruned log on every window inside the last day |
| AgentShutdown.StepFlushed | internal/agent/agent.go:448-483 | every step keeps: what the flush sent and still has to send make up the last day's snapshots |
| AgentShutdown.FlushReadsLastDay | internal/agent/agent.go:404-446 | what the flush reads, filters and converts are the measurements taken in the 24 hours before it, in order |
| AgentShutdown.RunInv | internal/agent/agent.go:295-353 | the shutdown invariant holds in every reachable state |
| AgentShutdown.NoCacheUseAfterClose | internal/agent/agent.go:311-361 | in every interleaving, even if `Stop` returns on its timeout, nothing uses the cache after it is closed, and once it is closed the goroutines that use it have exited |
| AgentShutdown.EverySnapshotOfTheLastDayIsDelivered | internal/agent/agent.go:295-489 | once the cache is closed, what the flush sent agrees, in order and in each of the twelve readings, with the measurements taken in the 24 hours before it: with all of them if every upload succeeded, otherwise with the first ones |
| AgentShutdown.StopReturnsWhenAllIsDone | internal/agent/agent.go:341-347 | in every run, once `Stop` has returned short of its time limit, every goroutine has exited, the flush is over, and the cache and the client are closed |
| AgentShutdown.NothingStopsUnasked | internal/agent/agent.go:295-303 | until `Stop` is called nothing is flushed or closed and no time limit runs, and no goroutine exits unless the context is cancelled |
| AgentShutdown.EveryPolledCommandIsStored | internal/agent/agent.go:521-560 | every command a poll brought is in the cache when the poll worker is back at its select or has exited, so before the cache is closed; and each command there is pending, without a payload, and came from a poll |
| AgentShutdown.LastDayMember | internal/agent/agent.go:404-405 | a snapshot is in the last day exactly when it was taken and its timestamp lies in the closed 24 hours |
| AgentShutdown.QuietStepNearer | internal/agent/agent.go:373-399 | every step but the start of another cycle strictly decreases a natural-number bound on the steps left |
| AgentShutdown.TowardFinishWorks | internal/agent/agent.go:316-330 | no reachable wait is for a goroutine that cannot go on: until the shutdown is over there is such a step |
| AgentShutdown.ShutdownFinishes | internal/agent/agent.go:295-353 | if no further cycle starts, the number of steps is bounded by the state they start in (and the answer to a poll under way), and when none is left the shutdown goroutine has finished and `Stop` has returned |
| AgentShutdown.QuietRunExists | internal/metrics/system.go:142-188 | from every reachable state such a run exists, to the end of the shutdown |
| Collection.MetricsPool.GetMetrics | internal/metrics/collector.go:68-73 | a pooled or new object, zeroed, which is no longer in the pool |
| Collection.MetricsBuffer.Update | internal/metrics/collector.go:179-211 | one collector adds its own readings and disturbs no other's |
| Collection.SnapshotFieldByField | internal/metrics/collector.go:179-220 | a cycle's snapshot has under each name what its collector obtained, zeros for one that failed, and the time and client it was finalized with |
| Collection.System.Collect | internal/metrics/system.go:202-226 | in whatever order the collectors run, the buffer ends with the readings of all that succeeded and zeros elsewhere |
| Collection.System.Reset | internal/metrics/collector.go:223-229 | the buffer gets a zeroed object that is not in the pool, and exactly the old object is added there |
| Collection.System.Publish | internal/metrics/system.go:239-265 | the callback gets a fresh copy of the finalized buffer, which the cache stores; no earlier snapshot changes |
| Collection.System.CollectOnce | internal/metrics/system.go:192-270 | a cycle hands out exactly one new object with this cycle's measurement, stores it, and changes no earlier one; no snapshot is the buffer's or a pooled object |
| Collection.System.NextCycle | internal/metrics/system.go:174-177 | one more cycle leaves the measurement of every earlier snapshot as it was |
| Collection.System.Cycles | internal/metrics/system.go:164-188 | over any run of cycles, each snapshot still holds its own cycle's measurement at the end |
| Upload.BatchesPartition | internal/agent/agent.go:448-456 | for every list and positive size the batches concatenate to it, are non-empty and at most that long, only the last may be short, and there are as few as possible |
| Upload.AgentSendsAPrefix | internal/agent/agent.go:466-472 | what the agent's pass sent is a prefix ending at a batch boundary, and is everything exactly when the pass succeeded |
| Upload.QueueAttemptsEverySnapshotOnce | internal/api/queue.go:236-252 | the queue's pass attempts every unsynced snapshot exactly once in order; with no failure it sends them all |
| Upload.FilterUnsynced | internal/agent/agent.go:418-423 | exactly the unsynced measurements, in order |
| Upload.Convert | internal/agent/agent.go:430-446 | each measurement is converted in order, with each of its twelve readings under its own name |
| Upload.DueFieldByField | internal/api/queue.go:259-282 | what a pass has to send are exactly the unsynced measurements of its window, in order, each with its twelve readings |
| Upload.UploadMetrics | internal/agent/agent.go:402-483 | the requests made are a prefix of the batches of what `Upload.DueFieldByField` describes for the last day, all but the last successful; success means all of them |
| Upload.UploadPendingMetrics | internal/api/queue.go:197-256 | the requests made are exactly the batches of 100 of what `Upload.DueFieldByField` describes for the last seven days, whatever fails |
| Upload.UploadMetricsBatch | internal/api/queue.go:259-295 | one request with the converted batch |
| MovingAverage.RecentSlides | internal/metrics/collector.go:111-117 | the sum of the last k samples after one more sample: add it, and when the window was full take off the oldest |
| MovingAverage.RingAdd | internal/metrics/collector.go:112-120 | writing at index n mod size keeps the last samples in their slots, and overwrites exactly the oldest of a full window |
| MovingAverage.AddTracks | internal/metrics/collector.go:107-130 | the four field updates keep the fields in step with the history of samples |
| MovingAverage.MeanWithin | internal/metrics/collector.go:107-141 | an average lies in every interval that contains the samples |
| MovingAverage.MovingAverage.constructor | internal/metrics/collector.go:95-103 | a window of the requested size, or 1 |
| MovingAverage.MovingAverage.Add | internal/metrics/collector.go:107-130 | for every window size, the result is the mean of the last min(n, size) samples since the last reset |
| MovingAverage.MovingAverage.Get | internal/metrics/collector.go:133-141 | the same mean; 0 with no samples |
| MovingAverage.MovingAverage.Reset | internal/metrics/collector.go:144-154 | the history is empty again |
| NetworkRates.NetworkRateMonitor.Update | internal/metrics/network.go:268-313 | reports nothing while no interface is known, else the deltas of the known interfaces; remembers every interface of the sample; an error changes nothing |
| NetworkRates.StateIsLastObserved | internal/metrics/network.go:279-311 | the monitor remembers exactly the interfaces ever observed, each with its last value, even if absent from later samples |
| NetworkRates.NextReport | internal/metrics/network.go:288-305 | a delta is reported exactly when the interface is observed and was observed before, against its last observed value |
| NetworkRates.NetworkDeltasTelescope | internal/metrics/network.go:268-323 | over any run with distinct names per sample, the deltas of a counter sum to last minus first observed plus the pre-drop value at each decrease |
| DiskRates.DiskIOMonitor.Update | internal/metrics/disk.go:226-263 | the report is exactly the wrapped deltas of the disks in this and the previous sample; the sample becomes the baseline; an error changes nothing |
| DiskRates.BaselineOrDelta | internal/metrics/disk.go:233-262 | a delta is reported exactly for a disk in this and the previous sample, exact unless the counter decreased; a disk that returns gets a fresh baseline |
| DiskRates.DiskDeltasTelescope | internal/metrics/disk.go:245-258 | over consecutive samples with the disk, the 64-bit deltas sum to last minus first plus 2^64 per decrease |
| Backoff.WaitBounds | internal/api/client.go:411-425 | every wait is at least the floor of 0.75 and at most 1.245 of the capped value |
| Backoff.BaseMonotone | internal/agent/heartbeat.go:314-321 | with a multiplier of at least 1 the capped value does not decrease with the attempt |
| Backoff.WaitWithinMaxExactlyWhen | internal/api/client.go:416-422 | a wait respects the configured maximum exactly when the jitter slot is small enough for the capped value |
| Backoff.EveryWaitWithinMaxExactlyWhen | internal/api/client.go:416-422 | whatever the clock shows, the waits before one retry respect the configured maximum exactly when 1.245 times its capped value, before the jitter, stays below the maximum plus one nanosecond |
| Backoff.StaysWithinMaxExactlyWhen | internal/api/client.go:281-297 | for every accepted configuration: no wait of any request or heartbeat round can exceed the maximum if and only if there are no retries or the capped values of the first and of the last retry leave room for the jitter; with a multiplier of at least 1 the last retry decides |
| Backoff.ShippedBackoffsStayWithinMax | internal/agent/heartbeat.go:51-72 | the client's default backoff and the heartbeat's keep to their maximum if and only if there are at most eight retries |
| RequestRetry.DefaultsStayWithinMax | internal/api/client.go:97-112 | with the default configuration, three retries, no wait exceeds the maximum |
| RequestRetry.WaitCanExceedMax | internal/api/client.go:133-152 | configured with ten retries and otherwise the defaults, the wait before the tenth can be 37.35 s, over the maximum of 30 s |
| RequestRetry.MergedConfig | internal/api/client.go:115-152 | each setting given replaces its default and no other; whatever is given, limits, durations and multiplier are positive |
| RequestRetry.DefaultCodes | internal/api/client.go:97-112 | the codes retried by default are 408, 429, 500 and 502 to 504 |
| RequestRetry.DoRequest | internal/api/client.go:278-327 | at most MaxRetries + 1 sends, all but the last failing retryably; nil exactly when the last succeeded; one computed wait before each retry; which error is returned in each case |
| RequestRetry.RetriesByCode | internal/api/client.go:428-446 | every send but the last failed by the network or with one of the configured codes, and a request is aborted by exactly the other failures |
| RequestRetry.WaitsBounded | internal/agent/heartbeat.go:314-328 | no wait of a request or a heartbeat round exceeds 1.245 times its maximum |
| RequestRetry.TotalSleepBound | internal/api/client.go:281-297 | all the sleeping of one request, as `DoRequest` describes it, is at most 1.245 * MaxBackoff * MaxRetries |
| Heartbeat.NextRound | internal/agent/heartbeat.go:186-200 | the count of exhausted rounds since the last success: reset by a success, incremented by an exhausted round, unchanged by an interrupted one |
| Heartbeat.CounterIsExhaustedSinceSuccess | internal/agent/heartbeat.go:151-200 | after any sequence of rounds the failure counter is the number of exhausted rounds since the last successful one |
| Heartbeat.HealthyExactlyWhenCountIsZero | internal/agent/heartbeat.go:265-278 | that count is 0 exactly when every exhausted round was followed by a successful one |
| Heartbeat.HeartbeatService.DetermineClientStatus | internal/agent/heartbeat.go:265-278 | "online" exactly when no round has been exhausted since the last successful one, else "degraded" |
| Heartbeat.HeartbeatService.SendHeartbeat | internal/agent/heartbeat.go:219-262 | nothing is sent exactly when there is no client ID (or no attempt is configured); at most MaxRetries + 1 sends; success exactly when the last send succeeded |
| Heartbeat.HeartbeatService.SendHeartbeatWithRetry | internal/agent/heartbeat.go:151-216 | one round: at most RetryAttempts + 1 heartbeats, all but the last failing, with the right outcome and waits; a registered client sends at least once for each; the failure counter stays the count of exhausted rounds since the last success |
| Heartbeat.HeartbeatService.HeartbeatLoop | internal/agent/heartbeat.go:125-148 | one round at once and one per tick before the stop signal; every heartbeat ever built reported the status its history called for |
| Heartbeat.RoundSendBound | internal/agent/heartbeat.go:151-200 | one round makes at most (RetryAttempts + 1) * (MaxRetries + 1) sends |
| Chocolatey.ParsePackageList | internal/packagemgr/chocolatey.go:442-473 | the packages of the relevant matching lines, in order |
| Chocolatey.IsPackageInstalled | internal/packagemgr/chocolatey.go:347-389 | the error cases in order; else true exactly when some relevant line starts, ignoring case, with the name and a space |
| Chocolatey.MatchIsTheCut | internal/packagemgr/chocolatey.go:447-447 | a line cut greedily into name, separator and version matches with that name and version |
| Chocolatey.MatchHasACut | internal/packagemgr/chocolatey.go:447-447 | and every line that matches can be cut so |
| Chocolatey.ContainsExactlyWhen | internal/packagemgr/chocolatey.go:456-458 | a text contains another exactly when it has it at some position |
| Chocolatey.TrimsExactly | internal/packagemgr/chocolatey.go:449-452 | trimming removes all white space at both ends and nothing else |
| Chocolatey.SummaryYieldsNothing | internal/packagemgr/chocolatey.go:455-458 | a line with "packages installed" anywhere in it yields no package and does not stop the scan |
| Chocolatey.EntryExactlyWhen | internal/packagemgr/chocolatey.go:448-470 | a line yields a package exactly when, trimmed, it has no summary text and can be cut into that name, white space and that version |
| Chocolatey.HitByPosition | internal/packagemgr/chocolatey.go:370-386 | the scan stops at a line exactly when, trimmed, it has no summary text and starts with the name, ignoring case, and a space |
| Chocolatey.JoinSplit | internal/packagemgr/chocolatey.go:445-445 | the lines of any text have no newline and join to it |
| Chocolatey.HitExactlyWhen | internal/packagemgr/chocolatey.go:370-388 | the scan stops at a line exactly when the parser yields the name there, ignoring case, and the separator starts with a space |
| Chocolatey.EntriesMember | internal/packagemgr/chocolatey.go:448-470 | the parser yields a package exactly when some line yields it |
| Chocolatey.ScanAgreesExactlyWhen | internal/packagemgr/chocolatey.go:370-388 | the scan finds only listed names; the two agree exactly when a listed name has a line whose separator starts with a space |
| Chocolatey.TabDisagrees | internal/packagemgr/chocolatey.go:442-473 | on every one-line output with a tab between the fields they disagree |
| Chocolatey.ScanAgreesOnSpaces | internal/packagemgr/chocolatey.go:347-389 | they agree on every output whose separators all start with a space |
| Chocolatey.ParseInvertsPrint | internal/packagemgr/chocolatey.go:442-473 | parsing the newline-joined "name version" lines of any package list (non-empty fields without white space, no summary line) returns the list in order |

## Left out

- HTTP, TLS, JSON, gopsutil, SQLite, viper, os/exec, service managers: foreign code and I/O; a send, a sample or an executor is an arbitrary outcome.
- `internal/cache/sqlite.go` and the batch writer: their meaning is in SQL, and the factory (`internal/cache/factory.go:11-29`) never builds them.
- What an executor computes, its timeout, the executor registry and the contents of a command result: a running command ends with one submission attempt, whatever the result.
- JSON decoding of payloads: an arbitrary predicate on texts; encoded payloads are assumed to decode, and where it matters the empty text is assumed not to.
- Duplicate command IDs, and resuming pending commands on a handler with live commands: the cache overwrites by ID, so both are outside the protocol's preconditions.
- Starting again after `Stop`, overlapping `Stop` calls and `Stop` racing `Start`: channels are created and closed once; the model starts where `Start` returns nil.
- Fairness of `select`: after the signal a worker may still choose a ready tick; that the agent's shutdown ends is proved for runs in which no further cycle starts.
- `CollectNow` next to the collection loop: its buffer swap is not guarded by the collectors' locks.
- Overlap inside one collector's buffer update: each holds the buffer's lock, so the collectors are modelled as updates in any order.
- The queue's online/offline switch and the count `Flush` returns: an exhausted network error reaches them wrapped, and `Synced` is never set.
- `PriorityQueue`: nothing in the repository drives it as a heap.
- What the periodic uploads send while the agent runs: in the shutdown model the uploader only reads the cache; the pass itself is `Upload.UploadMetrics`.
- `SendNow`, configuration updates by the server, validation, registration, registry look-ups, package installation, plist templates and logging: single-branch checks or plumbing.
- Disk counters `Update` does not report (times, merged counts) and the collectors' own arithmetic.
- Floating-point rounding and NaN: real numbers for averages, percentages and backoff.
- Overflow of the cache's `nextID` and of the consecutive-failure counter: unbounded integers.
- Text outside ASCII, and wall-clock readings before 1970 or going backwards.
- Contexts passed to the in-memory cache: it ignores them.
