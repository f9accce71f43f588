# Verified models of the read pool, PD client protocols and GC states

This project models the most intricate state of a TiKV/PD code base in Dafny 4.11
and proves what that state keeps over every input, every run and every
interleaving:

- **Read pool** (`ReadPoolScaling`, `ReadPoolRuns`, `ReadPoolOrbits`,
  `ReadPoolAdmission`, `TimeSlice`). The unified read pool's size controller
  reacts to configuration tasks and timer ticks; the handle rescales its task
  limit; spawners race through a check-then-increment gate; an inspector keeps a
  moving average of time slices.
- **Token dispatcher** (`TokenDispatcher`, `TokenReplies`, `TokenConnection`).
  One goroutine takes token requests off a channel and answers them over a stream
  that it replaces, while callers, the server, leader changes and shutdown
  interleave with it.
- **TSO forwarding** (`TsoForward`, `TsoReplies`, `ConnectionOwnership`,
  `ProxyLimiter`). Goroutines share pooled timestamp streams, a map of delegate
  connections and an atomic stream counter.
- **Prefix ranges** (`PrefixRange`, `KeyspaceRanges`). The end of an etcd prefix
  range, and which resource groups a keyspace's prefix read returns.
- **GC states** (`GcState`, `GcStateSafety`, `GcStateManager`, `GcTransactions`,
  `GcDuration`, `FloatSeconds`, `GcWire`). Safe points and barriers: the manager's
  transactions, the constraints it documents, optimistic concurrency between PD
  servers, and the conversions on the way to a client.

`Wrappers`, `Arithmetic` and `Keyspaces` hold a shared option type, facts about
quotients, and the id of the null keyspace.

A protocol is a small-step machine: a datatype for its state, one step per atomic
action of the source, and a fold over sequences of steps. Objects that the source
updates in place are classes whose methods are tied to the same step functions, so
the theorems about runs speak about the imperative code. Measurements, server
replies, errors, clocks and the scheduler's choices are inputs. Floating-point
quantities are reals; machine integers are bounded or wrapped where the source
depends on it.

Several natural properties are false of the code. Each has a counterexample and a
condition under which it holds. The condition is exact in both directions, except
for the removed streams, where it is a necessary condition for the failure:

| expected | condition | counterexample |
|---|---|---|
| the thread count never passes its ceiling | `TickBreaksCeilingIff` | `CeilingCanBeExceeded` |
| constant readings let the pool settle | `SettlesIff` | `CollisionAlternates` |
| the task limit is tasks-per-worker times size | `TaskLimitIntendedIff` | `TaskLimitCanFallShort` |
| an update divides by the number of samples | `AverageCorrectIff` | `AverageCanBeWrong` |
| a rebuild removes only broken streams from the pool | `RemovedIsBrokenOrNewer` | `WorkingStreamCanBeRemoved` |
| a keyspace reads only its own resource groups | `LoadsForeignGroupsIff` | `KeyspaceOneReadsTen` |
| rounding up gives the ceiling | `RoundUpIsCeilingIff` | `NegativeRoundsPastCeiling` |
| only positive times-to-live are accepted | `ArrivesPositiveIff` | `NegativeTtlIsAccepted` |
| a client never outlives the server's barrier | `NeverOutlivesIff` | `OutlivesInTheSameInstant`, `OutlivesByRounding` |
| the setter of a barrier is told its time-to-live | `SetBarrierRoundTrip` | `ToldOneMore` |
| a barrier guards its keyspace for its whole time-to-live | `BarrierGuardsItsKeyspaceIff` | `SwitchToUnifiedUnguards` |
| no advancement passes a reported start timestamp | `MinStartConstraintIff` | `ZeroReportHidesOthers` |
| no keyspace is past a new global barrier | `SetGlobalRespectedIff` | `DisabledKeyspaceGoesUnnoticed` |

The limit on proxied TSO streams is set at start-up and holds (`FixedLimit`,
`TurnedAwayIff`). The model also says what the counter would do if the limit became
changeable: it would hold from some moment on exactly if no stream that entered
without a limit is left in the account (`LimitHoldsIff`), and every such debt can
arise (`NegativeLimitLeavesDebt`).

The code differs from what its documentation or interface suggests in five places,
and the model follows the code: `tryResourceManagerConnect` returns nil after trials
that all failed (its inner error shadows the outer one); the prefix of a keyspace's
settings lacks the slash that ends the keyspace in stored keys; a reported start
timestamp of 0 turns the fifth documented GC constraint off;
`SetGlobalGCBarrier` promises to compare with all keyspaces but looks at the enabled
ones only; and a keyspace can leave keyspace-level GC while its barriers are stored.

## Model

| member | source | states |
|---|---|---|
| ReadPoolScaling.SharedPool.constructor | src/read_pool.rs:105-121 | the gauge and the worker pool start at the configured size |
| ReadPoolScaling.ReadPoolHandle.constructor | src/read_pool.rs:512-524 | the task limit starts as tasks per worker times size, saturated |
| ReadPoolScaling.ReadPoolHandle.Clone | src/read_pool.rs:105-121 | a clone shares the pool and copies limit and size |
| ReadPoolScaling.ReadPoolHandle.ScalePoolSize | src/read_pool.rs:252-272 | the whole new handle and pool state, including the panic on a size of zero that leaves the workers already resized |
| ReadPoolScaling.ReadPoolHandle.SetMaxTasksPerWorker | src/read_pool.rs:274-287 | only the limit changes, to the saturated product |
| ReadPoolScaling.ReadPoolConfigRunner.constructor | src/read_pool.rs:816-842 | the runner starts with core and current count at the configured maximum |
| ReadPoolScaling.ReadPoolConfigRunner.NotifyPoolSizeChange | src/read_pool.rs:785-790 | the size offered to the channel is recorded and nothing else changes |
| ReadPoolScaling.ReadPoolConfigRunner.Run | src/read_pool.rs:669-697 | a configuration task moves runner, handle and gauges as the step function of the run theorems says |
| ReadPoolScaling.ReadPoolConfigRunner.DecideCount | src/read_pool.rs:735-776 | the nested decision in place equals the pure decision that the orbit theorems are about |
| ReadPoolScaling.ReadPoolConfigRunner.AdjustPoolSize | src/read_pool.rs:720-783 | a tick moves runner, handle and gauges as the step function says |
| ReadPoolRuns.RunKeepsSizes | src/read_pool.rs:669-783 | in every run with configured sizes of at least 1 the count, the handle's size, the gauge and the workers agree and are at least 1, no division by zero happens, auto-adjust off means the count is core, and with pool CPU at most the current count the ceiling holds |
| ReadPoolRuns.TickBreaksCeilingIff | src/read_pool.rs:752-767 | exactly which tick lifts the count over its ceiling |
| ReadPoolRuns.CeilingCanBeExceeded | src/read_pool.rs:752-767 | a reachable tick that goes from 2 threads to 8 under a ceiling of 2 |
| ReadPoolRuns.ProportionalShrinks | src/read_pool.rs:758-767 | the proportional rule strictly shrinks, by at least one part in eleven |
| ReadPoolRuns.TargetInNumbers | src/read_pool.rs:735-739 | the target is the threshold's share of the quota, or the quota |
| ReadPoolRuns.CpuShrinkInNumbers | src/read_pool.rs:752-767 | with a threshold set and pool CPU above 110% of the target, the decision is the largest count that is 1, fits in the target, or fits in the current count scaled by target over pool CPU |
| ReadPoolRuns.CpuGrowInNumbers | src/read_pool.rs:755-769 | otherwise, with pool CPU below 90% of the target and the count below core, the count grows by one |
| ReadPoolRuns.ThreadGrowsIff | src/read_pool.rs:742-746 | without a CPU rule the count grows by one exactly under the four conditions, written with their numbers: room, process CPU with one thread more below the target, 80% usage, three tasks a thread |
| ReadPoolRuns.ThreadShrinksIff | src/read_pool.rs:748-750 | it shrinks by one exactly under the three conditions: above the minimum, 70% usage of one thread less, fewer than three tasks a thread |
| ReadPoolRuns.TickTakesEffect | src/read_pool.rs:778-782 | the whole new state after a tick, given the decision |
| ReadPoolRuns.TaskTakesEffect | src/read_pool.rs:671-697 | the whole new state after each of the four configuration tasks |
| ReadPoolRuns.ZeroSizeIffConfigured | src/read_pool.rs:252-272 | a run ends panicked or stuck at size zero if and only if a size of zero was configured |
| ReadPoolRuns.TaskLimitClosedForm | src/read_pool.rs:264-284 | after any run the limit is a closed form of the last tasks per worker, the size and the largest size left since; the rest of the path does not matter |
| ReadPoolRuns.TaskLimitIntendedIff | src/read_pool.rs:519-522 | the limit never exceeds the intended product, and equals it exactly when no product saturated in between or saturation hides it |
| ReadPoolRuns.TaskLimitCanFallShort | src/read_pool.rs:264-269 | a pool with a saturated limit that shrinks from 4 to 1 ends below the intended limit |
| ReadPoolOrbits.TicksFollowOrbit | src/read_pool.rs:735-783 | ticks of the whole controller follow the orbit of the decision and keep its configuration |
| ReadPoolOrbits.AboveBandReachesGoal | src/read_pool.rs:752-767 | above the band the count strictly falls to exactly max(floor(target), 1), arrives within its distance in ticks and stays |
| ReadPoolOrbits.AboveBandFallsGeometrically | src/read_pool.rs:752-767 | it also falls at least geometrically, by ten elevenths per tick |
| ReadPoolOrbits.NoReversal | src/read_pool.rs:742-782 | after a thread-based shrink the same reading does not grow, and the reverse |
| ReadPoolOrbits.InBandSettles | src/read_pool.rs:742-782 | inside the band the count moves one way only and stops within max(max - cur, cur - min) ticks |
| ReadPoolOrbits.BelowBandHoldsCore | src/read_pool.rs:748-776 | while pool CPU stays below the band the count rises by one per tick to core and is then never below core - 1, whatever else is read |
| ReadPoolOrbits.SettlesIff | src/read_pool.rs:735-783 | constant readings settle if and only if the scale-out rule and the scale-in rule do not meet at core |
| ReadPoolOrbits.CollisionAlternates | src/read_pool.rs:755-771 | where they meet, the count alternates between core and core - 1 for ever |
| ReadPoolAdmission.Counts.Add | components/tikv_util/src/resource_control.rs:130-143 | changing one priority's count leaves the other two alone |
| ReadPoolAdmission.RunsStayBounded | src/read_pool.rs:156-196 | in every interleaving each priority's running plus passed-but-uncounted spawns is at most limit + spawners - 1, and running is accepted minus completed, never negative |
| ReadPoolAdmission.TurnedAwayIff | src/read_pool.rs:156-164 | in every run a spawn is turned away exactly if as many tasks of its priority, given by number, as the thread's limit are accepted and not completed; otherwise it passes with that priority |
| ReadPoolAdmission.LimitsAreLastSet | src/read_pool.rs:274-287 | a thread's limit is the one it last set |
| ReadPoolAdmission.TasksAreAccounted | src/read_pool.rs:165-190 | what an acceptance and a completion do to every priority's account |
| ReadPoolAdmission.FreshBounded | src/read_pool.rs:156-196 | a fresh pool satisfies the bound |
| ReadPoolAdmission.BoundIsReached | src/read_pool.rs:156-196 | for every priority, number of spawners and limit some interleaving reaches the bound |
| ReadPoolAdmission.PriorityIsolation | src/read_pool.rs:156-196 | every run, with the steps of other priorities removed, is a run with the same counts and rejections of this priority: a full priority rejects nothing elsewhere |
| TimeSlice.TimeSliceInspector.constructor | src/read_pool.rs:356-373 | the inspector starts at zero |
| TimeSlice.TimeSliceInspector.Update | src/read_pool.rs:375-406 | the loop over histograms and the update in place, in whole nanoseconds, equal the update function on the merged totals |
| TimeSlice.WindowsPartitionSamples | src/read_pool.rs:375-406 | over every run on growing histograms the committed windows add up to the last totals, and what is left is too small to commit |
| TimeSlice.AverageIsWeightedSum | src/read_pool.rs:398-402 | without rounding, the average is the sum of the windows' means weighted 0.3 * 0.7^(n-1-i) |
| TimeSlice.KeptRunsStayClose | src/read_pool.rs:398-402 | in every run the average kept in whole nanoseconds commits the same windows as the exact one and stays within 13/3 ns of it |
| TimeSlice.KeptIsNearWeightedSum | src/read_pool.rs:398-402 | so the kept average is the weighted sum of the windows' means to within 13/3 ns |
| TimeSlice.WeightedSumAppend | src/read_pool.rs:399 | one more window blends its mean into the weighted sum |
| TimeSlice.AverageBounds | src/read_pool.rs:398-402 | after n windows the average lies between what n windows at the smallest and at the largest mean would reach |
| TimeSlice.RoundingStaysBounded | src/read_pool.rs:398-400 | however an inspector rounds: if each new average is off by at most e, every run of it stays within ten thirds of e of the exact one |
| TimeSlice.ReachedIsShare | src/read_pool.rs:398-402 | n windows with mean x reach exactly (1 - 0.7^n) * x |
| TimeSlice.SkippedUpdatesAreInvisible | src/read_pool.rs:393-397 | replaying only the committed snapshots gives the same inspector |
| TimeSlice.SkippedIff | src/read_pool.rs:393-397 | an update is skipped exactly below 100 ms or without new samples, and changes nothing then or after a panic |
| TimeSlice.AverageCorrectIff | src/read_pool.rs:395-398 | an update divides by the true count exactly when it is below 2^32, and panics exactly at multiples of 2^32 |
| TimeSlice.AverageCanBeWrong | src/read_pool.rs:398 | 2^32 + 1 samples pass for one, and 2^32 samples panic |
| TimeSlice.MirrorShowsAverage | src/read_pool.rs:404-406 | in every run the atomic mirror is the average modulo 2^64 |
| TimeSlice.MirrorIsTheAverage | src/read_pool.rs:404-410 | and the average itself exactly as long as it fits in 64 bits |
| TokenDispatcher.ApplyKeepsStreams | pd/client/resource_manager_client.go:298-429 | every step of anyone keeps: streams are first-in-first-out, only the held or dialled context is open, and at the loop head as many replies were read as requests sent |
| TokenDispatcher.ApplyKeepsRequests | pd/client/resource_manager_client.go:238-275 | every step keeps: a pending request is uncompleted, a finished one is completed once or recorded as lost, and stored buckets answer their own request |
| TokenDispatcher.RunsAreSound | pd/client/resource_manager_client.go:317-436 | both invariants hold at every moment of every run |
| TokenDispatcher.BucketsAnswerTheirRequest | pd/client/resource_manager_client.go:379-399 | buckets that a wait returns are the server's error-free reply to that very request |
| TokenReplies.BucketsAreTheServersReply | pd/client/resource_manager_client.go:379-399 | the buckets a wait returns are, word for word, a reply that was read from a stream on which this very request had been sent at the same position |
| TokenReplies.RepliesComeFromServer | pd/client/resource_manager_client.go:379-399 | every reply on a stream was sent by the server in this run, with this content |
| TokenReplies.EveryReadReplyIsDelivered | pd/client/resource_manager_client.go:388-399 | every reply that was read has reached its request: as its buckets with a nil on done, or as the error that loses it |
| TokenReplies.RecvOutcome | pd/client/resource_manager_client.go:388-399 | the whole effect of reading a reply on streams and requests |
| TokenReplies.WaitReturnsIff | pd/client/resource_manager_client.go:261-275 | wait returns the buckets exactly if the message on done is nil, and an error otherwise |
| TokenReplies.CutWaitsFail | pd/client/resource_manager_client.go:261-275 | a wait that is cancelled or meets shutdown returns an error |
| TokenReplies.OldestFirst | pd/client/resource_manager_client.go:238-251 | requests are queued and taken in order |
| TokenReplies.ReconnectsIff | pd/client/resource_manager_client.go:340-352 | a leader change or the lack of a stream, and nothing else, makes the dispatcher cancel everything and connect anew with six tries |
| TokenReplies.SignalsTakeEffect | pd/client/resource_manager_client.go:333-345 | leader changes are remembered, shutdown is for good and alone lets the loop and the connecting end early |
| TokenReplies.CheckOutcome | pd/client/resource_manager_client.go:357-370 | before sending: failed without a stream, dropped after shutdown, sent otherwise |
| TokenReplies.StreamFailureOutcome | pd/client/resource_manager_client.go:383-392 | a failed send or receive fails the request and gives the stream up |
| TokenReplies.RevokeOutcome | pd/client/resource_manager_client.go:431-436 | what is queued after the dispatcher has gone is failed |
| TokenDispatcher.DoneNeverBlocks | pd/client/resource_manager_client.go:431-436 | a request is completed at most once, also by revocation after shutdown, so the one-slot channel is empty whenever something is sent on it |
| TokenDispatcher.LostOnlyToErrorReplyOrShutdown | pd/client/resource_manager_client.go:358-399 | a request that left the dispatcher was completed once, or lost to an error reply of its own, or lost to shutdown |
| TokenDispatcher.OneOpenContext | pd/client/resource_manager_client.go:333-377 | at most one context is uncancelled, and a request is sent on, or awaited from, only an open stream whose earlier replies were all read |
| TokenConnection.ConnectionContext.Reset | pd/client/resource_manager_client.go:298-303 | the stream is forgotten and its context cancelled; the other fields stay |
| TokenConnection.ConnectionContext.TryConnect | pd/client/resource_manager_client.go:401-429 | the retry loop in place equals the function of its trials, and reports failure exactly when the first trial that ends it was refused for good |
| TokenConnection.ConnectLeavesOneOpen | pd/client/resource_manager_client.go:401-429 | after any trials all contexts they made are cancelled, except the last one if a stream was opened |
| TokenConnection.ConnectIsRun | pd/client/resource_manager_client.go:401-429 | every execution of the retry loop is a run of the dispatcher machine with the same result |
| TsoForward.ApplyKeepsSound | pd/server/forward.go:478-588 | every step of every goroutine keeps the lock discipline, the order of replies and the pool's ownership |
| TsoForward.RunsAreSound | pd/server/forward.go:478-588 | the invariant holds in every interleaving of any number of goroutines |
| TsoForward.TimestampAnswersOwnRequest | pd/server/forward.go:497-550 | a timestamp returned to a caller is the reply to the request this caller sent in its last try |
| TsoReplies.TimestampIsTheServersReply | pd/server/forward.go:536-549 | a returned timestamp is, digit for digit, a reply that was read from a stream on which this caller had sent the request of its last try at the same position |
| TsoReplies.RepliesComeFromServer | pd/server/forward.go:536-549 | every reply on a stream was sent by the server in this run, with this timestamp |
| TsoReplies.NoReplyIsShared | pd/server/forward.go:536-549 | no two callers return the same reply of a stream |
| TsoReplies.RecvOutcome | pd/server/forward.go:536-549 | the whole effect of reading a reply |
| TsoReplies.SixTriesEachSentOnce | pd/server/forward.go:512-535 | in every interleaving no request is sent twice, and every request is one of its goroutine's six tries |
| TsoReplies.ErrorOutcome | pd/server/forward.go:497-545 | what each kind of stream error does to the goroutine and the stream |
| TsoReplies.RebuildOutcome | pd/server/forward.go:503-508 | a rebuild removes the host, unlocks the stream and costs a try |
| TsoReplies.FailsOnly | pd/server/forward.go:512-550 | a call ends without a timestamp only for want of a host, a try or a stream, or by an error that is neither retried nor rebuilt |
| TsoForward.PooledStreamIsNotOverwritten | pd/server/forward.go:552-588 | a pooled stream is replaced only after its removal, enters under its own host, and leaves only by a rebuild of that host |
| TsoForward.NoDeadlock | pd/server/forward.go:497-588 | whoever is blocked on a lock waits, directly or through one other goroutine, for a goroutine with an enabled step, which is named |
| TsoForward.RemovedIsBrokenOrNewer | pd/server/forward.go:497-511 | a rebuild removes its own stream, which is broken, or one pooled after it; its own stream is broken in either case |
| TsoForward.WorkingStreamCanBeRemoved | pd/server/forward.go:497-511 | an interleaving in which a late rebuild removes a fresh, working stream |
| ConnectionOwnership.ApplyAccounts | pd/server/forward.go:425-460 | every atomic step moves connections between in flight, stored, being closed and closed as accounted |
| ConnectionOwnership.EveryConnectionHasOneOwner | pd/server/forward.go:425-460 | in every interleaving each dialled connection is in exactly one of those places and closed at most once |
| ConnectionOwnership.PlacesAreUnique | pd/server/forward.go:425-460 | the state determines each connection's place |
| ConnectionOwnership.QuietMeansStoredOrClosed | pd/server/forward.go:425-460 | with no call under way the open connections are exactly the stored ones, one per host: no leak |
| ConnectionOwnership.ResultIsStoredAndOpen | pd/server/forward.go:425-451 | a connection about to be returned is the stored one for that host, and open; a loser closes only its own |
| ConnectionOwnership.LoserReturnsLoaded | pd/server/forward.go:444-451 | whoever lost the race closes its own connection, once, and returns the stored one, which is another |
| ConnectionOwnership.BeginningOutcomes | pd/server/forward.go:425-443 | a call begins with its lookup and dials only if nothing is stored |
| ConnectionOwnership.EmptyHandedOutcomes | pd/server/forward.go:453-460 | a failed dial and a close that finds nothing return nothing; a close that finds a connection takes it out and closes it once |
| ConnectionOwnership.RouterClientOwnership | pd/client/inner_client.go:104-137 | the same law for router clients: at most one installed, each closed at most once |
| ProxyLimiter.CounterLaw | pd/server/forward.go:50-63 | in every interleaving and under every history of limits the counter is streams entered under a non-negative limit minus streams that left, modulo 2^32 |
| ProxyLimiter.FixedLimit | pd/server/forward.go:58-63 | with one configured value, as a server has, at most its 32-bit value of streams is past the check in every interleaving, or, if that is negative, no stream is ever counted or turned away |
| ProxyLimiter.TurnedAwayIff | pd/server/forward.go:58-63 | a stream is turned away exactly when as many streams as allowed are inside or on their way out |
| ProxyLimiter.LimitHolds | pd/server/forward.go:58-63 | from any state without debt, under limits between 0 and the given one, at most that many streams are past the check and the counter is exact |
| ProxyLimiter.InitialWithin | pd/server/forward.go:50-63 | the initial limiter has no debt |
| ProxyLimiter.ExcessIsAtMostDrift | pd/server/forward.go:50-63 | if limits may be negative too, the counted streams exceed the limit at most by the streams that left uncounted |
| ProxyLimiter.DebtBoundsExcess | pd/server/forward.go:50-63 | under non-negative limits the debt (streams that left, are, or will be uncounted) never changes, and the streams past the check, counted or not, exceed the limit at most by it |
| ProxyLimiter.DebtIsSpent | pd/server/forward.go:50-63 | from every state with a debt some run under the limit lets one stream too many in |
| ProxyLimiter.LimitHoldsIff | pd/server/forward.go:50-63 | every continuation under limits between 0 and the given one keeps it if and only if there is no debt |
| ProxyLimiter.NegativeLimitLeavesDebt | pd/server/forward.go:50-63 | every debt arises in some run with negative limits |
| PrefixRange.GetPrefix | pd/client/meta_storage_client.go:43-54 | the backward byte loop on a copied buffer computes the range end of the theorems below |
| PrefixRange.EndFromFront | pd/client/meta_storage_client.go:43-54 | the same end read from the front: where the carry stops |
| PrefixRange.NoEndIff | pd/client/meta_storage_client.go:43-54 | there is no end exactly for keys that are empty or all 0xff |
| PrefixRange.RangeIsPrefix | pd/client/meta_storage_client.go:98-100 | a string is in the range if and only if the key is its prefix |
| PrefixRange.EndIsLeastAbove | pd/client/meta_storage_client.go:43-54 | the end is the least string above all prefixed strings, and none exists when there is no end |
| PrefixRange.RangesNestOrAreDisjoint | pd/client/meta_storage_client.go:138-140 | two prefix ranges are nested as their prefixes are, or disjoint |
| KeyspaceRanges.NumeralPrefixIff | pd/client/resource_manager_client.go:40-51 | one decimal numeral is a prefix of another exactly when the number is the other with digits removed from its end |
| KeyspaceRanges.TruncatesShortens | pd/client/resource_manager_client.go:40-51 | removing digits is dividing by a power of ten |
| KeyspaceRanges.ShortensTruncates | pd/client/resource_manager_client.go:40-51 | and the converse |
| KeyspaceRanges.PrefixOfPath | pd/client/resource_manager_client.go:46-51 | when one keyspace's prefix is a prefix of another's path |
| KeyspaceRanges.SettingsRanges | pd/client/resource_manager_client.go:217-219 | the null keyspace's range is disjoint from all others; numbered ranges are nested exactly by numeral prefix and disjoint otherwise |
| KeyspaceRanges.LoadsForeignGroupsIff | pd/client/resource_manager_client.go:217-235 | a prefix read returns a group of another keyspace exactly when that id is this one with digits appended |
| KeyspaceRanges.KeyspaceOneReadsTen | pd/pkg/utils/keypath/absolute_key_path.go:119-127 | keyspace 1 reads the groups of keyspace 10 |
| KeyspaceRanges.PathsWrittenOut | pd/client/resource_manager_client.go:40-51 | the prefixes and keys, written out |
| KeyspaceRanges.DecimalRoundTrip | pd/client/resource_manager_client.go:50 | the numeral of an id stands for that id and has no leading zero |
| GcDuration.RoundUpDurationToSeconds | pd/client/gc_client.go:191-202 | the stepwise rounding equals its closed form and stays in 64 bits |
| GcDuration.RoundUpIsCeilingIff | pd/client/gc_client.go:191-202 | rounding up is the ceiling exactly for non-negative or whole durations |
| GcDuration.NegativeRoundsPastCeiling | pd/client/gc_client.go:191-202 | -1 ns rounds to 1 s, although 0 s is the ceiling |
| GcDuration.ArrivesPositiveIff | pd/client/gc_client.go:191-213 | which times-to-live arrive positive: the positive ones and the negative ones of less than a second |
| GcDuration.SaturatingIsCappedProduct | pd/client/gc_client.go:204-213 | the 128-bit test fires exactly when the product does not fit |
| GcDuration.RoundUpSaturatingAdjoint | pd/client/gc_client.go:191-213 | roundUp(d) <= s if and only if d <= saturating(s), with the exact family where the sentinel breaks it |
| GcDuration.RoundTrip | pd/client/gc_client.go:191-213 | there and back a duration is not shorter, less than a second longer, and unchanged if whole or the sentinel |
| GcWire.GcStateToProto | pd/server/gc_service.go:507-521 | the loop converts every barrier in its place |
| GcWire.PbToGCState | pd/client/gc_client.go:325-340 | the client's loop converts every barrier in its place and a missing scope to the null keyspace |
| GcWire.AllKeyspaces | pd/client/gc_client.go:420-434 | the map is built by keyspace, later states replacing earlier ones, and every global barrier is converted in its place |
| GcWire.DeliveredTtl | pd/server/gc_service.go:469-486 | only "no expiry" arrives as "never"; otherwise the time-to-live is within one second below the time left, plus what rounding the float added, and 0 if expired |
| FloatSeconds.NearestFloatFloor | pd/server/gc_service.go:478 | flooring the float nearest to the time left gives the whole seconds of the model, also with a small additional error |
| FloatSeconds.SlackIsSmall | pd/server/gc_service.go:478 | rounding adds at most 1023 ns to any 64-bit duration |
| FloatSeconds.YearRoundsUp | pd/server/gc_service.go:478 | one nanosecond below 2^25 + 1 seconds counts as 2^25 + 1 |
| GcWire.StateArrivesIntact | pd/server/gc_service.go:507-521 | from server to client the keyspace, both safe points, and each barrier's place, id and timestamp survive, and the message carries the kind of GC |
| GcWire.MissingScopeIsNull | pd/client/gc_client.go:325-330 | a message without a scope is about the null keyspace |
| GcWire.NeverOutlivesIff | pd/client/clients/gc/client.go:214-219 | on one clock, from the answer on, the client never takes an expired barrier for alive, exactly unless it had expired before a request answered in the same instant, or the answer takes less time than rounding added |
| GcWire.OutlivesInTheSameInstant | pd/client/clients/gc/client.go:214-219 | such a barrier looks alive in that instant and never after |
| GcWire.OutlivesByRounding | pd/client/clients/gc/client.go:214-219 | with a year left and an answer in the same instant, rounding makes the client believe one moment too long |
| GcWire.ExpiresAtMostASecondEarly | pd/client/clients/gc/client.go:214-219 | the client takes a barrier for expired less than a second plus the answer's delay early, exactly for expirations within the range of a 64-bit duration rounded up to whole seconds |
| GcWire.StoredBarriersAreHardlyEarly | pd/server/gc_service.go:624 | so it holds of every barrier the manager stores, at every later moment |
| GcWire.FarExpirationLooksEarly | pd/pkg/storage/endpoint/gc_states.go:202-206 | a record that another writer left more than 292 years ahead is given up too early |
| GcWire.SetBarrierRoundTrip | pd/pkg/gc/gc_state_manager.go:529-545 | a barrier set with any accepted time-to-live lasts at least that long and "never" stays "never"; its setter is told that time-to-live in whole seconds, exactly unless rounding adds one |
| GcWire.ToldOneMore | pd/server/gc_service.go:478 | a setter who is told one second more |
| GcWire.NegativeTtlIsAccepted | pd/pkg/gc/gc_state_manager.go:512-515 | a time-to-live of -1 ns is accepted as one second |
| GcWire.KeyspacesAreThoseSent | pd/client/gc_client.go:420-434 | the resulting map has exactly the keyspaces that were sent |
| GcWire.LastStateIsKept | pd/client/gc_client.go:420-434 | each keyspace keeps the last state sent for it, so distinct keyspaces are all kept |
| GcState.RoundUpTimeNotEarlier | pd/pkg/storage/endpoint/gc_states.go:178-189 | an expiration is rounded up to a whole second, by less than a second |
| GcStateSafety.ReportedBlockerIsTrue | pd/pkg/gc/gc_state_manager.go:426-445 | the blocker reported for a short advancement is in force and the smallest of all, and there always is one: the panic is unreachable |
| GcStateSafety.AdvanceIsGreatestPermitted | pd/pkg/gc/gc_state_manager.go:335-412 | the new txn safe point is characterised without its computation: never below the old one and otherwise exactly the greatest value that target, barriers, start timestamps and global barriers permit |
| GcStateSafety.AdvanceTxnEffect | pd/pkg/gc/gc_state_manager.go:335-420 | what the whole write batch of an advancement leaves behind, in every keyspace |
| GcStateSafety.SucceedsIff | pd/pkg/gc/gc_state_manager.go:228-1098 | each of the six transactions succeeds exactly under the condition written out for it |
| GcStateSafety.TransactionKeepsConstraints | pd/pkg/gc/gc_state_manager.go:77-80 | every transaction, failed or not, keeps GC safe point <= txn safe point <= every barrier in every keyspace, and lowers no safe point |
| GcStateSafety.RunsKeepConstraints | pd/pkg/gc/gc_state_manager.go:77-80 | constraints 1 to 4 between any two moments of any run |
| GcStateSafety.MinStartConstraintIff | pd/pkg/gc/gc_state_manager.go:81-82 | constraint 5 holds exactly if no start timestamp is reported, the smallest report counts, or the target, a barrier in force or an unexpired global barrier is at or below the larger of it and the old safe point |
| GcStateSafety.ZeroReportHidesOthers | pd/pkg/storage/endpoint/gc_states.go:395-431 | one node reporting 0 hides the running transaction of another |
| GcStateSafety.OwnerlessReportIsIgnored | pd/pkg/gc/gc_state_manager.go:378-387 | of two reports with the same timestamp the one without an owner does not hold the safe point back and the other does |
| GcStateSafety.LeastStartIndex | pd/pkg/storage/endpoint/gc_states.go:412-421 | the loaded start timestamp is the first of the smallest reports |
| GcStateSafety.LeastStartIsLeast | pd/pkg/storage/endpoint/gc_states.go:412-421 | the loaded start timestamp is a reported one and the smallest |
| GcStateSafety.BarrierRemovedIff | pd/pkg/gc/gc_state_manager.go:349-375 | a barrier disappears exactly by deletion, by being overwritten, or by an advancement that finds it expired |
| GcStateSafety.BarrierProtects | pd/pkg/gc/gc_state_manager.go:496-497 | until then, in every run, the barrier is stored and both safe points of its keyspace stay at or below it |
| GcStateSafety.BarrierHoldsForItsTtl | pd/pkg/gc/gc_state_manager.go:496-505 | a successful SetGCBarrier guards its timestamp for at least its time-to-live, whatever else runs, if nobody names its id again |
| GcStateSafety.BarrierEndsWithItsTtl | pd/pkg/gc/gc_state_manager.go:355-367 | a second after its time-to-live, whatever else is stored, an advancement moves as if the barrier had been deleted, and deletes it |
| GcStateSafety.NothingElseBlocks | pd/pkg/gc/gc_state_manager.go:355-367 | so with nothing else in the way the target is reached |
| GcStateSafety.GlobalRemovedIff | pd/pkg/gc/gc_state_manager.go:396-409 | exactly when a global barrier disappears |
| GcStateSafety.GlobalBarrierProtects | pd/pkg/gc/gc_state_manager.go:949-950 | until then it holds in exactly the keyspaces that had not passed it, and freezes the txn safe point of the others |
| GcStateSafety.GlobalBarrierEndsWithItsTtl | pd/pkg/gc/gc_state_manager.go:396-409 | the same for a global barrier and every keyspace |
| GcStateSafety.SetGlobalRespectedIff | pd/pkg/gc/gc_state_manager.go:983-1045 | a new global barrier is ahead of all keyspaces exactly when the keyspaces not looked at have not passed it |
| GcStateSafety.DisabledKeyspaceGoesUnnoticed | pd/pkg/gc/gc_state_manager.go:995-997 | a disabled keyspace already past a new global barrier |
| GcStateSafety.RunsRespectGlobals | pd/pkg/gc/gc_state_manager.go:983-1045 | in runs whose keyspaces are all looked at, no safe point ever passes a global barrier |
| GcStateManager.RedirectInNumbers | pd/pkg/gc/gc_state_manager.go:157-179 | where a call goes, with the ids in numbers: exactly when it stays, goes to the null keyspace, or is refused and why |
| GcStateManager.GuardsIff | pd/pkg/gc/gc_state_manager.go:496-497 | a barrier holds back exactly the keyspace it is stored under, over all states and runs |
| GcStateManager.BarrierGuardsItsKeyspaceIff | pd/pkg/gc/gc_state_manager.go:157-179 | a barrier set by a user call for a keyspace guards its data under a later configuration if and only if the keyspace was not switched between keyspace-level and unified GC |
| GcStateManager.BarrierGuardsItsKeyspace | pd/pkg/gc/gc_state_manager.go:157-179 | without a switch, both safe points that decide over the keyspace's data stay at or below the barrier for its whole time-to-live |
| GcStateManager.SwitchToUnifiedUnguards | pd/server/apiv2/handlers/keyspace.go:344-353 | keyspace 7, switched to unified GC, loses its stored and unexpired barrier's protection |
| GcStateManager.FindBarrier | pd/pkg/storage/endpoint/gc_states.go:340-348 | a stored barrier with the id, or none if there is none |
| GcStateManager.GCStateManager.constructor | pd/pkg/gc/gc_state_manager.go:125-136 | a new manager over empty storage |
| GcStateManager.GCStateManager.CompatibleLoadTiDBMinStartTS | pd/pkg/storage/endpoint/gc_states.go:395-431 | the loop finds the first smallest report, or none |
| GcStateManager.GCStateManager.AdvanceGCSafePointImpl | pd/pkg/gc/gc_state_manager.go:228-283 | the new state, exactly when it succeeds, and old and new value |
| GcStateManager.GCStateManager.AdvanceGCSafePoint | pd/pkg/gc/gc_state_manager.go:198-209 | the same for the keyspace the call is redirected to; a refused redirection changes nothing |
| GcStateManager.GCStateManager.VisitBarriers | pd/pkg/gc/gc_state_manager.go:349-375 | the loop's minimum, blocker, scheduled deletions and compatibility flag |
| GcStateManager.GCStateManager.VisitGlobals | pd/pkg/gc/gc_state_manager.go:396-409 | the second loop continues minimum, blocker and deletions |
| GcStateManager.GCStateManager.AdvanceTxnSafePointImpl | pd/pkg/gc/gc_state_manager.go:314-456 | the imperative transaction equals the atomic step of the run theorems; success exactly if the target is not below; the result's fields |
| GcStateManager.GCStateManager.AdvanceTxnSafePoint | pd/pkg/gc/gc_state_manager.go:299-310 | the same for the keyspace the call is redirected to; a refused redirection changes nothing |
| GcStateManager.GCStateManager.SetGCBarrierImpl | pd/pkg/gc/gc_state_manager.go:529-570 | the new state, exactly when it succeeds, exactly which barriers are stored, and that the new one does not expire within its time-to-live |
| GcStateManager.GCStateManager.SetGCBarrier | pd/pkg/gc/gc_state_manager.go:512-527 | the same for the keyspace the call is redirected to, with the refusals of a time-to-live and of a redirection |
| GcStateManager.GCStateManager.DeleteGCBarrierImpl | pd/pkg/gc/gc_state_manager.go:590-628 | exactly the named barrier is gone, and it is returned |
| GcStateManager.GCStateManager.DeleteGCBarrier | pd/pkg/gc/gc_state_manager.go:577-588 | the same for the keyspace the call is redirected to |
| GcStateManager.GCStateManager.GetMaxTxnSafePointAmongAllKeyspaces | pd/pkg/gc/gc_state_manager.go:983-1021 | the largest safe point of the enabled keyspaces and the null keyspace, with the name and id of a keyspace that has it |
| GcStateManager.GCStateManager.SetGlobalGCBarrier | pd/pkg/gc/gc_state_manager.go:966-1059 | the new state, exactly when it succeeds, exactly which global barriers are stored, and that the new one does not expire within its time-to-live |
| GcStateManager.GCStateManager.DeleteGlobalGCBarrier | pd/pkg/gc/gc_state_manager.go:1063-1100 | exactly the named global barrier is gone, and it is returned |
| GcTransactions.BodyDependsOnFootprint | pd/pkg/gc/gc_state_manager.go:228-570 | what a transaction writes depends only on the items it loads |
| GcTransactions.CommitIsAtomic | pd/pkg/storage/endpoint/gc_states.go:437-490 | what commits is what the transaction would have written alone, at once, on the state it commits to; a conflict changes nothing |
| GcTransactions.ApplyKeepsSound | pd/pkg/storage/endpoint/gc_states.go:437-490 | every begin, load, commit and crash of any server keeps: a session at the current revision has seen only current values |
| GcTransactions.RunsAreSerial | pd/pkg/storage/endpoint/gc_states.go:432-490 | every interleaving of any number of servers gives the state of the committed transactions run one after another, each successfully |
| GcTransactions.CommittedReadIsSnapshot | pd/pkg/gc/gc_state_manager.go:674-690 | a committed read returns items that were all stored at one moment, the state after some number of commits |
| GcTransactions.ReadCommitsIff | pd/pkg/storage/endpoint/gc_states.go:466-490 | a read is answered exactly if nothing was committed since it began |
| GcTransactions.TransactionRuns | pd/pkg/storage/endpoint/gc_states.go:437-490 | a server left alone runs its transaction at once |
| GcTransactions.ReadRuns | pd/pkg/storage/endpoint/gc_states.go:437-490 | a server left alone reads any items as they are stored |
| GcTransactions.EverySerialRunHappens | pd/pkg/storage/endpoint/gc_states.go:437-490 | every sequence of transactions is the outcome of some interleaving |
| GcTransactions.StopForgets | pd/pkg/storage/endpoint/gc_states.go:437-490 | a server that stops leaves the store alone |
| GcTransactions.ConcurrentRunsKeepConstraints | pd/pkg/gc/gc_state_manager.go:77-80 | so constraints 1 to 4 hold at every moment of every interleaving |
| GcTransactions.ConcurrentBarrierHolds | pd/pkg/gc/gc_state_manager.go:496-505 | whichever servers take part, a committed SetGCBarrier guards its timestamp for its whole time-to-live unless a later commit names its id |
| GcTransactions.ConcurrentGlobalBarrierHolds | pd/pkg/gc/gc_state_manager.go:949-950 | the same for a stored global barrier, in every keyspace that had not passed it |
| GcTransactions.UncheckedCommitBreaks | pd/pkg/gc/gc_state_manager.go:93-101 | without the revision comparison a barrier ends up behind the txn safe point |

## Left out

- Thread counts and sizes are unbounded naturals: the casts to signed 64 bits in the decision, and sizes near the maximum of `usize`, are not modelled; the saturating products of the task limit are.
- Floating point is modelled over the reals, except for the floored seconds of a time-to-live; rounding in the read pool's decision and infinities beyond the two documented divisions by zero are not modelled.
- The worker count of the read pool is the number last requested; how the thread pool clamps it is not modelled.
- A spawned future that is dropped unrun does not give its slot back in the source's metrics; tasks of the model complete at most once or never.
- The pool variant over future pools, the busy-threshold and queue-wait checks, and the operating system's thread statistics.
- Counters of 64 bits that only grow (histogram counts, revisions) do not wrap in the model.
- Service mode switching, discovery and the other RPC plumbing of the PD client.
- A token request that blocks on the full channel before or after shutdown is not a request of the model yet; the revocation loop takes requests until the channel is empty, where the source takes the length at its start.
- The closing of all delegate connections at server shutdown.
- Forwarded TSO streams of clients (`handleTSOForwarding`) beyond the stream counter.
- Delegate connections and router clients share one machine, because both follow load, dial, load-or-store, close; the router's lock is its atomic step.
- Barriers and start timestamps are lists with one record per id; the order in which etcd returns keys, their JSON encoding and the legacy format of service safe points are not modelled.
- `CompatibleUpdateServiceGCSafePoint` and the read-only queries of the GC state manager, which only combine the transactions and committed reads modelled here.
- The keyspace manager: which keyspaces exist and are enabled, and the start timestamps that old TiDB nodes write outside any transaction, come with each operation.
- Errors of etcd itself: a transaction whose commit fails leaves the state alone.
- RunKeepsSizes: the ceiling is stated for readings with pool CPU at most the current count, because it is false otherwise; TickBreaksCeilingIff gives the exact tick.
- RemovedIsBrokenOrNewer: one direction only: a newer stream that is removed may work, as WorkingStreamCanBeRemoved shows, or be broken by then too.
- The stream limit's theorems are for fewer than 2^31 concurrent streams and uncounted exits together, where the 32-bit counter does not wrap.
- Update: the products are rounded to the nearest nanosecond exactly; the source computes them in 64-bit floats first. RoundingStaysBounded bounds what any such error adds up to.
- AverageIsWeightedSum: about the average without rounding; KeptIsNearWeightedSum is about the kept one.
- NotifyPoolSizeChange: a full channel drops the size in the source; the model records what was offered.
