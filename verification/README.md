# Verified models of the Orishu laboratory and Kagami authoring cores

Dafny models of the parts of this repository whose correctness rests on reasoning across
several functions or over whole runs, with proofs. `dafny verify dfyconfig.toml` checks all of it.

- **Clock reasoning** (`ClockExchange`, `StartPlan`, `StartMeaning`, `StartSoundness`, `StartExactness`, `TentClocks`,
  `StartOvershoot`, `SkewOvershoot`, `WindowOverlap`, `OverlapMeaning`, `OverlapSoundness`, `StepClocks`, `RowReadings`,
  `OverlapTightness`, `Placements`, `PerfectCohort`). Three-read exchanges, start proposals and the
  judgement of the actual probe windows are methods over integer stamps, each proved equal to a declarative
  specification. Real clocks are functions of abstract time; the listed assumptions (no step back, bounded drift,
  bounded offset change, bounded wall/monotonic mapping) are predicates over them; the soundness lemmas say that every
  emitted integer bounds the real quantity, the exactness lemmas when a bound is reached or passed, with clocks built
  from the readings themselves, and the placement lemmas what the passing checks say of reads that may fall anywhere in
  their brackets.
- **Producers and their checkers** (`HostClock`, `Environment`, `SeriesMeaning`, `Measurement`, `MeasurementMeaning`). The sampler loop and the ten-slot
  kernel series run against a host whose clock advances arbitrarily between any two reads, and what they emit is
  proved to be accepted by the modelled reviewers, or exactly when it is not.
- **The session protocol** (`Rpc`, `RpcPeers`, `RpcDelivery`, `RpcConduct`). Coordinator, node and two byte pipes as one state
  machine whose events may happen in any order, with partial writes and reads, timeouts and deaths at any byte;
  the two peers as loops that only take such steps.
- **Guarded edits in Kagami** (`DocumentAuthority`, `AuthorityLaws`, `AuthorityMeaning`, `SavedFiles`, `Document`,
  `TemplateCatalog`, `CatalogWindow`). The authority's decisions as functions on its state; the window's document, effect lane and template
  controller as classes with a ghost log of everything that should invalidate pending work, run together in any
  interleaving.
- **Component proposals** (`ProviderLock`, `LockValidation`, `LockComposition`, `LockMeaning`, `AttachmentProperties`,
  `ComponentForm`, `FormMeaning`). Provider choices as closed acyclic graphs, their one-pass validation, pruning and merging, local
  values under byte budgets, and the form that keeps both.
- **Membership gossip** (`Versions`, `Registers`, `MemberMerge`, `MergeMeaning`, `MemberDelivery`, `GossipDelivery`,
  `TombstoneDelivery`, `GossipOrders`). The merge of every kind of delta: member records, adopted in part by two
  independent orders, tombstones that fence and remove, blocklist and policy; and exactly when a whole mixed delivery
  converges in every order.
- **Evidence helpers** (`ProxyEvidence`, `Correlate`, `CorrelateMeaning`, `UdpRelay`, `Tail`). The log demultiplexer, the
  causal-receipt checker, the relay loop and the bounded output tail.

Each operation follows the code's own order of steps and is proved equal to a specification function; the modules whose
names end in `Meaning` say what those functions mean without naming them, on the readings, numbers, records and messages
that go in: every verdict and every reported issue exactly when its own cause holds, and every number exactly as far as
it can be off.

Six results differ from what the code's own comments, tests or names suggest; the model follows the code.

1. `DocumentAuthority::submit` says that a refusal leaves the event log as it was
   (`crates/kagami-session/src/authority.rs:220-222`). A refused command that reaches its decision without naming the
   open gesture has closed that gesture first and logged it. `RefusalChangesNothingIff` gives the exact condition and
   `RefusedUndoEndsADrag` a run from a fresh session.
2. Both halves of what a start proposal reports ignore drift after the reference instant
   (`scripts/pi_lab_clock.py:178-182`). `ReportedUpperBoundHoldsIffNoDrift` and `ReportedSkewHoldsIffNoDrift`: the upper
   error and the pairwise skew are true bounds for every cohort and all clocks within the assumptions exactly when the
   drift rate is zero. For one accepted cohort `ErrorExceededIff` and `SkewExceededIff` say, as comparisons of its own
   readings, exactly when its reported error and skew can be exceeded, and `FiringTimesIff` when a role may fire at all.
   `StartErrorBounds` and `PairwiseSkewBound` prove the amplified forms that always hold.
3. A measurement whose host stalls through the whole window before the first check emits a receipt with no samples,
   which its reviewer refuses. `Measurement.Run` says exactly when there are no samples, `AccountedReceiptIsAccepted`
   exactly what acceptance still depends on, and `StalledReceiptIsRefused` gives a receipt refused for that alone.
4. `Tail.clear` forgets the bytes but not the truncation mark. `Tail.Snapshot`: when everything since the last clear
   fits, it is shown whole if and only if no stream, cleared ones included, ever overflowed; `LosesAnUncutLine` runs
   into the other case.
5. The membership design promises convergence under every delivery order for "non-conflicting updates"
   (`docs/tasks/implement-membership-model.md:344-346`, `crates/orishu-membership/tests/convergence.rs:462-524`) without
   saying what conflicts. `OrdersAgreeIff`: every order of delivery gives the same members if and only if there is room
   for all newcomers or for none, no newcomer comes with two certificates, no two descriptions share a node's highest
   version, and a death in time is told at one incarnation that no other record of the node passes. Two honest records
   can fail the last: a death and its own refutation race (`DeathRacesRefutation`). With tombstones, blocklist entries
   and the policy mixed in, every order agrees if and only if each kind is compatible by itself and, unless there is
   never room, no removed node that is told of ends with a cleared tombstone and the newcomers find room even if all who
   only pass through come first (`GossipOrders.OrdersAgreeIff`). Clearing a tombstone and the cleared node's own record
   race in the same way (`ReadmissionRaces`).
6. A write of an older document "must not retarget the session" (`crates/kagami-session/src/authority.rs:645-647`). New
   and Open forget what was acknowledged (`:880-908`), so a write of the replaced document that is acknowledged
   afterwards is not stale and names its file for the new one. `FileIsOursIff`: the named file belongs to the present
   document if and only if nothing was acknowledged since the replacement, or something not older than it;
   `LateWriteRenames` runs into the other case. The window itself saves synchronously
   (`apps/kagami/src/document.rs:634-685`), so this concerns callers that write in the background.

More exact conditions: the offset envelope of an overlap review is reached at an end exactly when both exchanges have
that end and the row's readings fit together, a condition on its integers that holds exactly when some clocks of both
machines show every wall and monotonic reading of the row (`LowerEndAttainedIff`, `UpperEndAttainedIff`,
`ExplicableIff`); a list of reads can all return exactly while the node's 16 or 1024 commands last (`ReadsReturnIff`);
resubmitting an accepted command is replayed exactly when the command fits the replay budget (`ResubmissionReplaysIff`);
a relay reply can be delivered only to the source that opened its backend, however partitions and faults interleave
(`RepliesReachTheirSource`).

Entry points that nothing else here relies on keep the same invariants and have no row of their own: `Tail.Clear`,
`Document.MoveView`, `Controller.RefreshPlugins`, `ComponentForm.ClearHistoryConsent`, `UdpRelay.Stats` and
`UdpRelay.Fail`.

## Model

| member | source | states |
|---|---|---|
| ClockExchange.Assess | scripts/pi_lab_clock.py:63-91 | refuses exactly invalid limits or a record that is not genuine (shape, nonce and every derived field recomputed); otherwise returns exactly the issues found |
| ClockExchange.NoIssueIffEveryPlacementMeetsLimits | scripts/pi_lab_clock.py:48-91 | no issue if and only if, wherever the wall reads fall in their monotonic brackets, round trip, offset width and wall change meet the policy |
| ClockExchange.ExchangeBracketsOffset | scripts/pi_lab_clock.py:52-59 | if the coordinator wall does not step back during a genuine exchange, its offset interval holds the true offset at the node's read |
| ClockExchange.SteppedBackEnvelopeIsRefused | scripts/pi_lab_clock.py:52-59 | an empty offset interval means exactly that the coordinator wall went back, and is always reported |
| ClockExchange.GenuineIff | scripts/pi_lab_clock.py:37-60 | a record is genuine exactly if its stamps are ordered 63-bit readings, its exchange in order, its nonce 128 bits wide, and its three intervals the differences of those readings |
| ClockExchange.EvidenceIff | scripts/pi_lab_clock.py:37-60 | readings and a receipt become a record exactly if the receipt has the known form and answers this run's nonce and the record is genuine; the record then holds those very readings |
| ClockExchange.IntervalsAreExact | scripts/pi_lab_clock.py:48-60 | round trip and wall change hold exactly the values that some placement of the coordinator reads gives, and the offset interval exactly the offsets that put the node read between the two wall reads |
| ClockExchange.ClockIssueReportedIff | scripts/pi_lab_clock.py:63-91 | each of the three issues is reported exactly when some placement breaks its own limit, and once |
| StartPlan.CheckExchange | scripts/pi_lab_clock.py:137-163 | accepts one exchange exactly when it is usable (genuine, assessed clean, recent, mapping kept over its whole age) and yields its widened interval |
| StartPlan.Collect | scripts/pi_lab_clock.py:135-163 | a role's exchanges are taken exactly when each is usable, in coordinator order, with no nonce seen before in any role |
| StartPlan.Centre | scripts/pi_lab_clock.py:164-179 | proposes a start exactly when all widened intervals intersect pairwise, the hull is narrow enough and the start in range |
| StartPlan.PlanRole | scripts/pi_lab_clock.py:131-179 | one role's plan, exactly when its row is accepted |
| StartPlan.ConsistentIffNested | scripts/pi_lab_clock.py:164-166 | the pairwise interval check is one common point |
| StartPlan.PlanStart | scripts/pi_lab_clock.py:115-187 | a proposal exactly for accepted cohorts (roles in order, nonces unique across roles, every row accepted), equal to the specified proposal |
| StartMeaning.SampleIsExact | scripts/pi_lab_clock.py:143-161 | the margin is the least whole nanosecond that covers the drift up to the reference, the widened interval holds exactly the offsets within it of one the exchange allows, and the age is the greatest over all placements |
| StartMeaning.PlanIsExact | scripts/pi_lab_clock.py:164-179 | the bracket is the least that holds every widened interval, the selected offset its midpoint rounded down, every end of a widened interval lies within the uncertainty of it and one end attains it, and the error interval holds exactly the errors a firing late by at most the lateness can have |
| StartMeaning.SkewIsWidest | scripts/pi_lab_clock.py:180-182 | the reported skew bounds the difference of any two errors and is attained by some |
| StartMeaning.AcceptedIff | scripts/pi_lab_clock.py:115-187 | a cohort is proposed for exactly if it has three to five roles in order with three exchanges each, no nonce is used twice, every exchange is genuine, clean, recent and mapped alike wherever its reads fell, all offsets agree, and each start and the skew keep their limits |
| StartMeaning.ProposalMeans | scripts/pi_lab_clock.py:164-187 | and then every number of every role is what its own three exchanges say |
| StartSoundness.CeilingRoundsOutward | scripts/pi_lab_clock.py:156-159 | the integer margin is at least the real drift and less than one nanosecond above it |
| StartSoundness.SampleBoundsOffset | scripts/pi_lab_clock.py:156-161 | one widened interval holds the true offset at every instant up to and after the reference, up to the drift past it |
| StartSoundness.EnvelopeContainsTrueOffset | scripts/pi_lab_clock.py:156-176 | for clocks within the assumptions every accepted plan's per-role offset bracket holds the true offset at the reference instant |
| StartSoundness.NoFalseContradiction | scripts/pi_lab_clock.py:164-166 | under the assumptions the interval-consistency refusal cannot fire, for any number of exchanges |
| StartSoundness.StartErrorBounds | scripts/pi_lab_clock.py:168-179 | a node firing at its proposed start errs by at least offset minus upper, and at most offset minus lower amplified by the residual drift |
| StartSoundness.PairwiseSkewBound | scripts/pi_lab_clock.py:180-182 | with lateness added, every true pairwise start skew is within the bound built from those errors, and within the reported skew when drift is zero |
| StartExactness.ReportedUpperBoundHoldsIffNoDrift | scripts/pi_lab_clock.py:178-179 | the reported upper error is a true bound for all accepted cohorts and all clocks within the assumptions if and only if the drift rate is zero |
| StartExactness.LateFiring | scripts/pi_lab_clock.py:178-179 | for each positive rate a cohort and clocks within the assumptions that fire after the reported bound |
| StartExactness.ReportedSkewHoldsIffNoDrift | scripts/pi_lab_clock.py:180-182 | the reported pairwise skew bounds every true start difference, for all accepted cohorts and all clocks within the assumptions, if and only if the drift rate is zero |
| StartOvershoot.ErrorExceededIff | scripts/pi_lab_clock.py:178-179 | for each accepted cohort and role: some clocks within the assumptions show its readings and fire after the reported upper error if and only if drift can close every gap between its exchanges and still leaves the node short of its start past that time |
| SkewOvershoot.FiringTimesIff | scripts/pi_lab_clock.py:168-179 | for each accepted cohort, role and coordinator time: some clocks within the assumptions fire it then if and only if its readings fit together and the time is in the window of each exchange |
| SkewOvershoot.SkewExceededIff | scripts/pi_lab_clock.py:180-182 | for each accepted cohort: some clocks within the assumptions start two roles further apart than the reported skew if and only if the windows of two roles reach further apart than it leaves beside one lateness |
| Placements.UsableIffEveryPlacementMeetsPolicy | scripts/pi_lab_clock.py:143-155 | an exchange already in order passes its checks if and only if every placement of its wall reads and of the present one meets round trip, width, age and mapping limits |
| Placements.AcceptedMeetsPolicyEverywhere | scripts/pi_lab_clock.py:115-187 | acceptance of a cohort means that every exchange of every role meets the policy wherever its reads and the present one fell |
| HostClock.Host.Sleep | scripts/pi_lab_measurement.py:240-241 | a sleep never wakes early; nothing else is assumed of the host's monotonic clock than that it does not go back |
| Environment.ReviewSeries | scripts/pi_lab_environment.py:162-235 | accepts exactly series with increasing slots below ten, rows in their brackets and matching coverage, and reports exactly the issues and deltas specified |
| SeriesMeaning.ComparisonMeans | scripts/pi_lab_environment.py:102-123 | of two valid snapshots each issue is reported exactly for its own cause, and the six differences exactly across one boot, one interface, ordered brackets and counters that never fell |
| SeriesMeaning.SeriesIff | scripts/pi_lab_environment.py:162-213 | a series is accepted exactly if it has at most one row a second, each begun in its own slot and ended within control, all in order and disjoint, every snapshot valid and read between its row's ends, and the missing rows counted |
| SeriesMeaning.ReviewIsExact | scripts/pi_lab_environment.py:184-236 | every issue is reported exactly for its cause, comparison issues exactly for two successful rows with none but failed ones between; failures are counted, the peak is the warmest sample, and difference and bracket exist exactly for ten unbroken snapshots and are those of the first and last |
| Environment.Telescopes | scripts/pi_lab_environment.py:225-227 | the sum of all adjacent counter deltas is last minus first |
| Environment.ComparedIsLinked | scripts/pi_lab_environment.py:102-123 | a comparison yields deltas exactly for two valid snapshots of one boot and interface, in order, with no counter going down |
| Environment.ReportedDeltaIsFullyCovered | scripts/pi_lab_environment.py:184-229 | a reported delta means slots 0 to 9 exactly, one boot and interface identity, delta equal to the sum of nine nonnegative links, and a positive bracket holding the true elapsed time between first and last reads |
| Environment.KernelSeries.SampleIfDue | scripts/pi_lab_environment.py:141-152 | over any nondecreasing clock, adds one row exactly when the slot read on entry is due, and keeps the series well formed: increasing slots below ten, each row begun within its slot's time |
| Environment.ProducedSeriesIsAccepted | scripts/pi_lab_environment.py:154-213 | whatever the sampler produced, in any interleaving with time, has at most ten rows and passes every requirement of the reviewer for any later control bracket |
| Measurement.WallChangeIsTight | scripts/pi_lab_measurement.py:97-115 | the wall-change interval passes a limit exactly when every placement of both wall reads does |
| Measurement.LoadIssues | scripts/pi_lab_measurement.py:118-168 | refuses exactly malformed reports, latency quantiles included; otherwise reports the offered rate if and only if fewer than 4950 requests completed and the cap if and only if capped, in that order |
| MeasurementMeaning.LoadIff | scripts/pi_lab_measurement.py:97-168 | a load report is valid exactly if its 5000 arrivals are each completed, skipped or in the tail, two clients of at most 2500 account for them within a ten-second window, and quantiles exist exactly if something completed |
| Measurement.Review | scripts/pi_lab_results.py:50-106 | accepts exactly receipts whose wall/monotonic identities, window length, sampling counts, processor seconds and issue list all agree; returns the processor rates and the environment review |
| MeasurementMeaning.ReceiptIff | scripts/pi_lab_results.py:28-94 | the receipts accepted, in their own numbers: configuration, both wall/monotonic identities, 1 to 200 samples, three resources whose seconds are their nanoseconds, and an issue list that names exactly fewer than 4950 completions, a cap and missed samples, in order and once |
| MeasurementMeaning.CheckedIsExact | scripts/pi_lab_results.py:94-106 | what the reader hands on: rates whose product with the bracket is a hundred times the processor time, the probe's own mark intervals, and the environment review as above |
| Measurement.AccountedReceiptIsAccepted | scripts/pi_lab_results.py:61-106 | an accounted receipt passes review if and only if its values are in range, it holds a sample, the probe ended within control and the load report and memory figures are acceptable; when probe and supervisor read one monotonic clock, the probe part follows |
| PerfectCohort.StalledReceiptIsRefused | scripts/pi_lab_results.py:67-69 | a receipt a run can account for with no sample is refused, and would be accepted with one |
| Measurement.Measurement.SampleWindow | scripts/pi_lab_measurement.py:251-267 | it ends after the window, takes at most 200 samples, none exactly when the first check was already late; every period up to the last check is counted once as sampled or missed, and peaks are the maxima of all it saw |
| Measurement.Measurement.Conclude | scripts/pi_lab_measurement.py:268-293 | the receipt's arithmetic satisfies both identities, the window length and the issue-list equality |
| Measurement.Measurement.Run | scripts/pi_lab_measurement.py:229-293 | runs once; any receipt is accounted for, at the requested start, with memory and processor figures taken from the samples made |
| WindowOverlap.ReviewProbe | scripts/pi_lab_results.py:182-217 | the node's start and end intervals and its local issues, from actual marks, lateness and mapping slack |
| WindowOverlap.ReviewRow | scripts/pi_lab_results.py:156-217 | a row is reviewed exactly when genuine, in order, of its run and role, and its nonces are new |
| WindowOverlap.Anchor | scripts/pi_lab_results.py:221-222 | the first coordinator stamp by monotonic time |
| WindowOverlap.CoordinatorChanged | scripts/pi_lab_results.py:226-231 | reports exactly a stamp whose wall disagrees with the anchor beyond the limit |
| WindowOverlap.PairwiseSkew | scripts/pi_lab_results.py:232-233 | at least every pairwise gap of start intervals and attained by one |
| WindowOverlap.ReviewOverlap | scripts/pi_lab_results.py:132-250 | reviews exactly well-formed cohorts and returns the specified judgement, whose issues, numbers and verdict are those of the rows that follow |
| OverlapMeaning.ReviewableIff | scripts/pi_lab_results.py:132-169 | a cohort is reviewed exactly if it is three to five roles of one formation of distinct nodes, every receipt accepted, every exchange genuine, of this run, over before the next began on both machines, and no nonce used twice |
| OverlapMeaning.NodeIntervalsAreExact | scripts/pi_lab_results.py:178-200 | a node's offset, start and end intervals hold exactly the values that some placement of its marks, mapping slack and offset change allow |
| OverlapMeaning.NodesAreExact | scripts/pi_lab_results.py:178-217 | so has every node of a reviewed cohort |
| OverlapMeaning.LocalIssuesReportedIff | scripts/pi_lab_results.py:170-217 | each issue of a node is reported exactly when some placement of its readings breaks that issue's own limit |
| OverlapMeaning.CohortIssuesReportedIff | scripts/pi_lab_results.py:218-243 | each of the four cohort issues is reported exactly when its own limit is broken, in the reported number and in the readings: stamps too far apart, a coordinator wall that stepped, starts too far apart, no shared stretch of the minimum length |
| OverlapMeaning.NumbersAre | scripts/pi_lab_results.py:218-246 | span and skew are the least limits that the stamps and starts keep, and the common window is the longest stretch that all nodes are sure to share |
| OverlapMeaning.WithinIff | scripts/pi_lab_results.py:244-250 | within bounds exactly when no node has an issue and none of the four limits is broken; then span, skew and common window keep the policy |
| OverlapMeaning.WithinQualifies | scripts/pi_lab_results.py:234-246 | within bounds, for any clocks within the three assumptions: a stretch of reference time as long as the policy's minimum lies in every true window, and no two true starts are further apart than its limit |
| OverlapSoundness.OffsetInEnvelope | scripts/pi_lab_results.py:175-181 | between the two exchanges the true offset stays in the union envelope widened by the allowed change |
| OverlapSoundness.NodeIntervalsSound | scripts/pi_lab_results.py:181-200 | the true reference times of a node's start and end lie in its emitted intervals |
| OverlapSoundness.OffsetChangeNeverReported | scripts/pi_lab_results.py:175-177 | under the assumptions the offset-change issue cannot be raised |
| OverlapSoundness.CommonWindowSound | scripts/pi_lab_results.py:234-246 | for any clocks meeting the three assumptions, one reference interval of the reported common length lies inside every node's true window |
| OverlapSoundness.StartSkewSound | scripts/pi_lab_results.py:232-245 | the reported skew is at least every true pairwise start skew |
| PerfectCohort.AssumptionsCanBeMet | scripts/pi_lab_results.py:132-250 | the assumptions of the soundness theorems can be met: perfect clocks satisfy them on an accepted cohort that reports exactly their true common window and skew |
| OverlapTightness.OffsetInTightEnvelope | scripts/pi_lab_results.py:175-181 | the true offset in fact stays in the intersection of both exchanges' brackets widened by the allowed change, inside the emitted envelope |
| OverlapTightness.LowerEndAttainedIff | scripts/pi_lab_results.py:178-181 | for every readable row and policy, some clocks of both machines that show every wall and monotonic reading of the row, within the assumptions, reach the envelope's lower end if and only if both exchanges have that end and the readings fit together |
| OverlapTightness.UpperEndAttainedIff | scripts/pi_lab_results.py:178-181 | the same for the upper end |
| OverlapTightness.ExplicableIff | scripts/pi_lab_results.py:156-181 | the readings of a row whose exchanges share an offset fit together, as comparisons of its integers, if and only if some clocks within the assumptions show them all |
| Placements.WithinMeetsPolicyEverywhere | scripts/pi_lab_results.py:156-217 | a cohort within limits means that each node's exchanges, its wall between them and its probe marks meet the policy for every placement of the reads |
| Placements.WithinKeepsOneCoordinatorClock | scripts/pi_lab_results.py:218-231 | and that any two coordinator stamps agree within twice the limit, and lie within the collection span, for every placement |
| ClockExchange.DisagreementOverPlacements | scripts/pi_lab_results.py:170-174 | the mapping check passes exactly when every placement of both wall reads agrees within the limit |
| OverlapSoundness.CohortMappingPairwise | scripts/pi_lab_results.py:218-231 | checking all stamps against one anchor bounds every pair by twice the limit |
| Rpc.FrameRead | scripts/pi_lab_session.py:61-75 | a newline-terminated read of a stream of frames yields exactly the next frame |
| Rpc.StepKeeps | scripts/pi_lab_experiment.py:109-156 | the pairing invariant is kept by every event: call, partial write, byte read, timeout, node byte, emission, death |
| Rpc.ReturnedRepliesArePaired | scripts/pi_lab_experiment.py:117-156 | in every run each returned value is the node's reply to that very request, in call order |
| Rpc.AtMostOneMeasurement | scripts/pi_lab_experiment.py:128-136 | in every run at most one measurement is ever begun, and the node carries out and answers each mutation identity at most once |
| Rpc.IdleHasNothingPending | scripts/pi_lab_experiment.py:117-127 | not poisoned and idle means every reply has been returned, and only a part of one terminal failure line may remain in the pipe |
| Rpc.PoisonIsForever | scripts/pi_lab_experiment.py:117-127 | after any failed call nothing more is written or returned, whatever else happens |
| RpcPeers.Session.Call | scripts/pi_lab_experiment.py:117-156 | returns the reply to this request and keeps the session usable, or poisons it; a poisoned session refuses without a step; a returned preparation makes the session ready to measure, a returned stop of the load ends that, and a measurement returns only from a session made ready for its first |
| RpcPeers.Session.StopAndClose | scripts/pi_lab_experiment.py:158-186 | a stop returns the node's own reply to it; a poisoned session is closed without writing one |
| RpcPeers.Session.ServeOne | scripts/pi_lab_session.py:355-373 | answers one request and waits again, or is gone after a terminal line |
| RpcPeers.Session.Serve | scripts/pi_lab_session.py:355-373 | the node loop serves all of its 16 or 1024 commands, or ends before that after a stop or a request it could not answer, keeping the pairing invariant |
| RpcDelivery.UndisturbedCallReturns | scripts/pi_lab_experiment.py:128-156 | from any rest state a call within the node's allowance, 16 for a clock-only session, has a run that returns exactly the node's reply and leaves the session open and, unless it was a stop, at rest |
| RpcDelivery.UndisturbedReadsReturn | scripts/pi_lab_experiment.py:128-156 | calls chain: from rest, any number of reads within the node's allowance have one run that returns every reply in order and rests again |
| RpcDelivery.ReadsReturnIff | scripts/pi_lab_session.py:325-345 | from every rest a session can reach, a list of reads has a run that returns them all if and only if they are within what is left of the allowance, 16 commands for a clock-only node and 1024 otherwise |
| RpcConduct.OnlyPreparedIsMeasured | scripts/pi_lab_experiment.py:128-156 | over all runs a measurement is begun only if the last returned call that prepares or stops a target prepared one; a clock-only session begins nothing but clock reads |
| RpcConduct.CallsReturnIff | scripts/pi_lab_session.py:325-374 | from every rest a session can reach, a list of calls of any kind can all return if and only if with those returned before it is orderly: clean, within the allowance, nothing after a stop, each mutation identity once, at most one measurement, on a prepared target |
| RpcConduct.PreparedMeasurementReturns | scripts/pi_lab_experiment.py:142-155 | so from every rest with no measurement tried and two commands left some run returns a preparation and then a measurement |
| RpcConduct.ClosedIsForever | scripts/pi_lab_experiment.py:158-186 | once closed, nothing more is begun, whatever the node does |
| AuthorityLaws.RefusalChangesNothingIff | crates/kagami-session/src/authority.rs:223-330 | a refusal never changes the document, and changes nothing at all if and only if it did not close an unnamed open gesture |
| AuthorityLaws.RefusedUndoEndsADrag | crates/kagami-session/src/authority.rs:732-773 | from a fresh session, opening a drag and then undoing with nothing to undo: the refusal ends the drag and logs an event |
| AuthorityLaws.AcceptanceAppliesOnce | crates/kagami-session/src/authority.rs:279-330 | a first acceptance held its revision guard, applied its command to the current state and moved the revision by exactly one if it edits |
| AuthorityLaws.SchemaAcceptanceAppliesOnce | crates/kagami-session/src/authority.rs:258-277 | the same with the supplied schemas adopted first, the command applied under them |
| AuthorityMeaning.SubmissionMeans | crates/kagami-session/src/authority.rs:223-316 | a submission not made before is accepted exactly if its guard holds, the gesture it names is open, its command is possible and its result can be retained; and then the contents are the update of the earlier ones by its own commands (or by those its template gives), an undo or redo exchanges them with the last history entry, New and Open replace them, and the revision moves by one if it edits |
| AuthorityMeaning.SchemaSubmissionMeans | crates/kagami-session/src/authority.rs:258-277 | the same under the supplied schemas, which are then in force |
| AuthorityMeaning.RefusalMeans | crates/kagami-session/src/authority.rs:223-330 | a refusal names the first obstacle: batch size, revision, gesture, the command's own, or retention |
| AuthorityMeaning.ReceiptMeans | crates/kagami-session/src/authority.rs:930-990 | the receipt tells the revision reached, the change made and the number of the newest event; besides it only the closing of a gesture not named is published, and the 256 newest events are kept |
| AuthorityMeaning.EvictsNoMore | crates/kagami-session/src/authority.rs:930-962 | the newest receipts are kept within 256 receipts and 4096 commands, and no receipt is forgotten that both would still have room for |
| AuthorityMeaning.AdoptionMeans | crates/kagami-session/src/authority.rs:590-605 | adopting schemas changes nothing else of the document and is published once, as nobody's command |
| AuthorityLaws.ResubmissionReplaysIff | crates/kagami-session/src/authority.rs:709-728 | resubmitting what was just accepted returns the recorded receipt and changes nothing, if and only if the command fits the replay budget |
| AuthorityLaws.UndoRestoresAndRedoReapplies | crates/kagami-session/src/authority.rs:775-841 | undo gives back the earlier contents at a new revision, and redo the edited ones |
| AuthorityLaws.GestureUndoesAsOne | crates/kagami-session/src/authority.rs:775-821 | any number of edits in one gesture leave one history entry, undone in one step |
| AuthorityLaws.OperationsKeepSound | crates/kagami-session/src/authority.rs:223-330 | every operation keeps history, receipts and events bounded, receipt identities distinct, events numbered in order and saved marks never ahead |
| AuthorityLaws.ReplayIsExact | crates/kagami-session/src/authority.rs:709-728 | in every sound state a retained submission is answered by its own receipt, and its identity under another command is refused |
| SavedFiles.SavesInAnyOrder | crates/kagami-session/src/authority.rs:613-669 | through every interleaving of submissions, replacements and acknowledged writes: the newest write acknowledged since the last replacement names the file, else the replacement did, and the document is clean exactly at its first revision and at those written |
| SavedFiles.NewSessionIsBooked | crates/kagami-session/src/authority.rs:613-669 | which holds from a new session on |
| SavedFiles.FileIsOursIff | crates/kagami-session/src/authority.rs:640-669 | the named file is one of the present document if and only if no write was acknowledged since its replacement or one not older than it, which the session's own mark tells |
| SavedFiles.FileStaysOursIff | crates/kagami-session/src/authority.rs:880-908 | it has been so ever since the replacement if and only if the first write acknowledged after it was not older |
| SavedFiles.LateWriteRenames | crates/kagami-session/src/authority.rs:643-669 | a run from a new session in which the empty new document names the file a write of the discarded one went to |
| Document.LogGrows | apps/kagami/src/document.rs:391-402 | a captured guard equals the current one exactly while nothing invalidating has happened since, at every step |
| Document.Document.AuthoringGuard | apps/kagami/src/document.rs:391-398 | a guard exists only in Authoring and is accepted at once |
| Document.Document.AdoptInstalledSchemas | apps/kagami/src/document.rs:195-199 | new schemas retire every guard and leave revisions and dirtiness alone |
| Document.Document.Observe | apps/kagami/src/document.rs:271-287 | observing retires every guard and touches no content |
| Document.Document.EditInitialConditions | apps/kagami/src/document.rs:289-296 | returns to the same revision, and old guards stay retired |
| Document.Document.SubmitPrepared | apps/kagami/src/document.rs:455-514 | accepted exactly in Authoring, with the reference gate open and the authority's decision; a refusal leaves experiment, schemas, view and dirtiness; command identities never repeat |
| Document.Document.EditGuarded | apps/kagami/src/document.rs:405-453 | accepts exactly for an undisturbed guard, ABA cases included, through an open gate, when the authority does; the contents are then the update of the earlier ones by these edits, and the view shows them |
| Document.Document.SubmitCommand | apps/kagami/src/document.rs:422-426 | an unguarded submission, accepted exactly by mode, gate and authority |
| Document.Document.NewExperiment | apps/kagami/src/document.rs:530-550 | replaces document and view together, both clean and naming no file, exactly in Authoring, through an open gate and with nothing unsaved or consent to discard it; otherwise neither |
| Document.Document.OpenFile | apps/kagami/src/document.rs:552-632 | adopts the loaded document, its view and its file name together, both clean, exactly in Authoring, through an open gate, with nothing unsaved or consent, for a file that loads and a document that opens and can be retained; otherwise neither |
| Document.Document.Save | apps/kagami/src/document.rs:634-685 | a completed write cleans exactly the captured revisions and disturbs no guard |
| TemplateCatalog.DisturbedIsNeverAccepted | apps/kagami/src/document.rs:400-403 | a guard captured before an invalidating event is not current after it |
| TemplateCatalog.Lane.PollLane | apps/kagami/src/scientific_effect.rs:379-422 | a finished effect edits the document exactly if it was not cancelled, came in time, delivered edits, its guard is still good, the gate open and the authority accepts; the contents are then the update by those edits, otherwise nothing changes |
| TemplateCatalog.Controller.Act | apps/kagami/src/catalog_form.rs:109-185 | each action goes through exactly under its own conditions (current token and guard, idle slots and lane, consent for captured physics, a page of 24, a path of 4096 bytes) and has exactly its own effect; consent arises only from confirming the current captured proposal; cancelling, editing or withdrawing consent withdraws what waits |
| TemplateCatalog.Controller.ActAuthoring | apps/kagami/src/catalog_form.rs:184-324 | loading, selecting and applying go through exactly with every slot and the lane free and the tokens current |
| TemplateCatalog.Controller.BeforeScientific | apps/kagami/src/catalog_form.rs:325-335 | an effect still uncancelled answers the present token, consent and document |
| TemplateCatalog.Controller.AfterScientific | apps/kagami/src/catalog_form.rs:336-354 | a running effect is settled once, when it has left the lane |
| TemplateCatalog.Controller.PollPreparing | apps/kagami/src/catalog_form.rs:388-441 | a finished preparation is adopted if and only if it delivers edits, token, guard, inventory revision and consent stand and the document takes them; it is handed on if and only if it needs history, they stand and the lane is free and able; otherwise it is dropped |
| TemplateCatalog.Controller.Tick | apps/kagami/src/update.rs:521-551 | over all interleavings at most one slot is occupied and each Apply leads to at most one adoption, never after it was withdrawn; and an effect or preparation that finished is adopted, or handed to the lane, if and only if its token, undisturbed guard, inventory and consent stood and the document or lane takes it |
| CatalogWindow.ControllerOutlives | apps/kagami/src/update.rs:521-551 | the controller's invariant outlives everything the document and the lane's other users do between two pollings |
| CatalogWindow.RunWindow | apps/kagami/src/update.rs:521-551 | over every run of actions, pollings and document operations, Applies are adopted in order, each at most once and never when withdrawn, and at each adoption nothing had happened to the document since the Apply's guard was captured |
| CatalogWindow.ApplyIsAdopted | apps/kagami/src/catalog_form.rs:271-425 | undisturbed, an Apply of the present proposal goes through and is adopted by the polling that finds its edits prepared: the contents become the update by them |
| CatalogWindow.HistoryIsAdopted | apps/kagami/src/catalog_form.rs:271-441 | with captured physics and consent the same in two pollings, through the lane, which is free again afterwards |
| LockValidation.Validate | crates/orishu-plugin/src/authoring_lock.rs:218-300 | one pass in dependency order accepts exactly the graphs that are within every budget, closed, spanned by their roots, acyclic and no deeper than allowed |
| LockMeaning.GraphIff | crates/orishu-plugin/src/authoring_lock.rs:246-299 | a graph is closed, spanned, acyclic and no deeper than allowed exactly if a walk along its bindings leads from a root to every member and no walk visits more members than that |
| LockMeaning.LockIff | crates/orishu-plugin/src/authoring_lock.rs:220-300 | what is accepted: the five budgets, and such a graph whose walks visit at most 64 members and at most the caller's depth |
| LockComposition.ForRoots | crates/orishu-plugin/src/authoring_lock/composition.rs:34-92 | prunes exactly when the lock is valid, the roots are members within budget and the result fits; the work list finds exactly the members reachable from the roots and keeps exactly their bindings |
| LockMeaning.PrunedIs | crates/orishu-plugin/src/authoring_lock/composition.rs:43-91 | pruning keeps exactly the members that a walk from a chosen root leads to, and exactly their bindings |
| LockComposition.PrunedIsGraph | crates/orishu-plugin/src/authoring_lock/composition.rs:71-92 | pruning a valid graph gives a valid graph of no greater depth, and with no more roots only its byte weight can exceed the budgets |
| LockComposition.UnionIsGraph | crates/orishu-plugin/src/authoring_lock/composition.rs:98-171 | the union of two agreeing valid graphs is closed, reachable, acyclic and no deeper: only a budget can refuse it |
| LockComposition.MergeHoldsFirst | crates/orishu-plugin/src/authoring_lock/composition.rs:98-171 | pruning a merge back to one side's roots gives that side exactly |
| LockComposition.Merge | crates/orishu-plugin/src/authoring_lock/composition.rs:98-171 | merges exactly valid, agreeing graphs whose union is within budget, losing nothing of either |
| LockMeaning.UnionIs | crates/orishu-plugin/src/authoring_lock/composition.rs:132-171 | a merge has the roots, members and bindings of both sides and no others |
| LockComposition.AgreementIsExact | crates/orishu-plugin/src/authoring_lock/composition.rs:103-130 | the conflict test passes if and only if some valid graph holds both sides |
| LockMeaning.AgreeIff | crates/orishu-plugin/src/authoring_lock/composition.rs:103-130 | two graphs agree exactly if every consumer they share has the same choices in both |
| AttachmentProperties.TotalWithout | apps/kagami/src/component_form/properties.rs:123-146 | the byte account is the sum of all sources in any order, so taking one away is subtraction |
| AttachmentProperties.TotalIs | apps/kagami/src/component_form/properties.rs:140-146 | the account grows by the source bytes of a quantity or text and by nothing for a flag |
| AttachmentProperties.Load | apps/kagami/src/component_form/properties.rs:30-80 | loads the declared defaults exactly when field, length, count and total budgets hold |
| AttachmentProperties.LoadsIff | apps/kagami/src/component_form/properties.rs:30-73 | a declaration can be staged exactly if it has at most 256 fields, no more defaults than a component may have, every default source short enough and a mebibyte of sources in all |
| AttachmentProperties.DefaultsAre | apps/kagami/src/component_form/properties.rs:37-62 | the staged values are exactly the declared defaults |
| AttachmentProperties.Properties.Set | apps/kagami/src/component_form/properties.rs:94-138 | accepts exactly values of the declared kind within every budget, with an exact byte account; a refusal changes nothing |
| ComponentForm.CollectRoots | apps/kagami/src/component_form.rs:233-256 | exactly the scene's exact components but the replaced one; refused if and only if over budget or for a legacy component under a reset |
| ComponentForm.PreserveSaved | apps/kagami/src/component_form.rs:257-279 | the saved choices that survive a replacement, or all of them; refused if and only if surviving roots are outside them or their graph is over budget |
| ComponentForm.PreserveCaptured | apps/kagami/src/component_form.rs:290-342 | succeeds exactly when the captured selection is valid, prunes within budget and merges with the saved choices; the result holds both |
| ComponentForm.Prepare | apps/kagami/src/component_form.rs:221-377 | exactly when nothing worth keeping must be lost and all fits: a proposal with exact roots that holds every preserved choice, freezes exactly the captured bindings of an addition and has no consent |
| FormMeaning.PreparableIff | apps/kagami/src/component_form.rs:221-377 | there is a proposal exactly if it has between one root and 4096, no legacy component is in use under a full reset, the saved and captured choices are locks that hold the roots still in use, fit pruned and united and disagree nowhere, at most 4096 choices are kept and the declared fields can be staged |
| FormMeaning.ProposalMeans | apps/kagami/src/component_form.rs:221-377 | choice by choice: the roots are the contributions in use and the new one; a choice is bound at the start exactly if it is a saved one (which a replacement still leads to) or a captured one that a root leads to; exactly the captured choices of an addition are frozen |
| ComponentForm.FromDocument | apps/kagami/src/component_form.rs:91-95 | the same for the scene as it stands, with nothing attached or replaced |
| ComponentForm.ForAttachment | apps/kagami/src/component_form.rs:99-117 | exactly for an exact component on an object that lacks it and has room, when the proposal can be prepared |
| ComponentForm.BeginReplacement | apps/kagami/src/component_form.rs:122-143 | exactly in Authoring and for an attached component; names it and copies nothing |
| ComponentForm.ComponentForm.ReplaceWith | apps/kagami/src/component_form.rs:147-178 | exactly for the current proposal and a different exact component that can be prepared, under a new token |
| ComponentForm.ComponentForm.ConfirmHistory | apps/kagami/src/component_form.rs:204-215 | consent is granted only to exactly the present choices and values |
| ComponentForm.ComponentForm.Bind | apps/kagami/src/component_form.rs:526-553 | accepts exactly choices that change no captured provider, no accepted provider of an attachment and stay in budget; withdraws consent |
| ComponentForm.ComponentForm.ClearBindings | apps/kagami/src/component_form.rs:554-557 | back to the accepted base, consent withdrawn |
| ComponentForm.ComponentForm.ForgetBinding | apps/kagami/src/component_form.rs:558-568 | removes exactly local bindings, never an accepted one of an attachment |
| ComponentForm.ComponentForm.SetProperty | apps/kagami/src/component_form.rs:396-414 | accepted exactly for current form, fields and value; success withdraws consent, refusal changes nothing |
| ComponentForm.ComponentForm.PrepareProperties | apps/kagami/src/component_form.rs:441-466 | loads fields once, exactly within budget, and withdraws consent; a changed declaration is refused |
| ComponentForm.ComponentForm.LockCommands | apps/kagami/src/component_form.rs:467-525 | commands exactly for a current, complete, consented proposal, a lock that holds every preserved choice and ready fields, and exactly those commands |
| ComponentForm.ContainsIsTransitive | crates/orishu-plugin/src/authoring_lock/composition.rs:34-92 | what a held graph holds is held |
| ComponentForm.PreservedChoicesStay | apps/kagami/src/component_form.rs:526-568 | through any edits an attachment outside a reset keeps every preserved choice |
| ComponentForm.CapturedChoicesNeverChange | apps/kagami/src/component_form.rs:296-343 | every captured choice the scene's roots depend on stays bound to its captured provider |
| ComponentForm.AdoptionKeepsSavedChoices | apps/kagami/src/component_form.rs:484-493 | the adopted lock still holds every choice the document had saved |
| ProxyEvidence.AloneExplained | scripts/check-worker-monitoring-proxy.py:179-193 | blocked is exactly the first adjacent failed write and WANT_WRITE after a request, expired exactly the last send timeout from there on |
| ProxyEvidence.AloneCounts | scripts/check-worker-monitoring-proxy.py:176-193 | requests and bytes are the totals of the connection's own messages, the failed flag is its last message's and closed is its last closing |
| ProxyEvidence.BlockedBeforeExpired | scripts/check-worker-monitoring-proxy.py:186-193 | for readings that never go back, blocked is at most expired |
| ProxyEvidence.LogGrows | scripts/check-worker-monitoring-proxy.py:157-175 | the whole log decides failure: line and total budgets, distinct and at most 64 connections |
| ProxyEvidence.BudgetIff | scripts/check-worker-monitoring-proxy.py:157-172 | a log is without failure exactly if no line is over 8192 bytes, all are within eight megabytes, and at most 64 connections are accepted, none twice |
| ProxyEvidence.OwnIs | scripts/check-worker-monitoring-proxy.py:164-178 | a connection's own messages are exactly those of its number from its acceptance on, each once and in order |
| ProxyEvidence.Evidence.Consume | scripts/check-worker-monitoring-proxy.py:157-193 | without a failure every connection's state is that of its own lines read alone; a line over budget, a second acceptance and a 65th connection fail, each under its own name, and a failure latches |
| ProxyEvidence.Evidence.Snapshot | scripts/check-worker-monitoring-proxy.py:203-209 | the one connection from a port, refusing failures and ambiguity exactly |
| ProxyEvidence.InterleavingIsIrrelevant | scripts/check-worker-monitoring-proxy.py:157-193 | two logs with the same lines of a connection leave it in the same state |
| Correlate.Index | scripts/worker_formation_receipts.py:74-80 | indexes every logged operation by identity, exactly when identities are unique across workers |
| Correlate.Receive | scripts/worker_formation_receipts.py:81-90 | takes spans exactly when their identities are unique and each matches its log entry |
| Correlate.Check | scripts/worker_formation_receipts.py:67-107 | returns the number of spans if and only if they are acceptable: unique, matched both ways, exactly two peers and admissions, and both chains |
| CorrelateMeaning.AcceptableIff | scripts/worker_formation_receipts.py:67-107 | spans and logs are accepted exactly if spans and logged operations match one to one and they hold the joins of workers 1 to 0 and 2 to 1, each a root request, the exchange under it and the admission under that, all completed, and no other exchange or admission |
| Correlate.AcceptedIsBijection | scripts/worker_formation_receipts.py:81-90 | acceptance pairs spans and logged operations one to one, agreeing on event, time and outcome |
| Correlate.AcceptedIsTwoChains | scripts/worker_formation_receipts.py:91-105 | acceptance gives two disjoint chains, 1 to 0 and 2 to 1, holding every peer exchange and admission |
| Correlate.AcceptanceIgnoresOrder | scripts/worker_formation_receipts.py:67-107 | reordering the spans, or any worker's own log, never changes the verdict |
| UdpRelay.PartitionsGrow | scripts/formation_udp_relay.py:49-52 | nothing read after a partition is forwarded until it is healed, kept by every event |
| UdpRelay.UdpRelay.Partition | scripts/formation_udp_relay.py:49-52 | takes effect before it returns, and is refused only after a relay failure |
| UdpRelay.UdpRelay.NewRoute | scripts/formation_udp_relay.py:81-93 | routes are added, never changed or removed, up to eight |
| UdpRelay.UdpRelay.Handle | scripts/formation_udp_relay.py:64-103 | each datagram read is forwarded, dropped or stops the relay, exactly as partition, route, room for eight and the sockets decide, and is counted once; forwarded by its own route |
| UdpRelay.ForwardsCount | scripts/formation_udp_relay.py:96-100 | the forwarded total is the number of forwarding events so far |
| UdpRelay.DropsCount | scripts/formation_udp_relay.py:71-100 | the dropped total is the number of dropping events so far |
| UdpRelay.RepliesReachTheirSource | scripts/formation_udp_relay.py:81-100 | a backend's datagram goes only to the source that created it, over all runs |
| Tail.LastOfLast | scripts/formation_evidence.py:29-34 | trimming after each chunk is trimming once |
| Tail.Tail.Append | scripts/formation_evidence.py:29-34 | the buffer is exactly the last bytes of the stream since the last clear, and the mark is set exactly when some stream overflowed |
| Tail.Tail.Snapshot | scripts/formation_evidence.py:36-45 | an unmarked excerpt is the whole stream; a marked one starts just after the first newline still held, or is the fixed omission line; what fits is shown whole if and only if nothing ever overflowed |
| Tail.LosesAnUncutLine | scripts/formation_evidence.py:29-49 | an overflow, a clear and one short line: the line is missing from the excerpt |
| Registers.Judge | crates/orishu-membership/src/merge.rs:325-371 | a version-ordered entry is taken exactly when well formed and newer than what is held, or new with room; every refusal names its own cause, and only that |
| MergeMeaning.LaterIs | crates/orishu-identity/src/version.rs:27-37 | one version is newer exactly if it is greater in the first of epoch, counter and actor in which they differ |
| MergeMeaning.LaterIsTotal | crates/orishu-identity/src/version.rs:27-37 | of two versions exactly one is newer unless they are the same |
| MergeMeaning.EntryMeans | crates/orishu-membership/src/merge.rs:325-465 | a valid entry later than the one held under its key, or under a new key with room, is held afterwards; any other leaves what was held |
| MemberMerge.Membership.MergeDelta | crates/orishu-membership/src/merge.rs:104-116 | one delta of any kind changes exactly what is specified of members, tombstones, blocklist and policy, and reports an adoption exactly for a change |
| MemberMerge.Membership.MergeMember | crates/orishu-membership/src/merge.rs:190-322 | adopts exactly what changes the held record, by version and by liveness independently; re-gossips exactly what is then held; reports every dispute at one version, adopted in part or not |
| MergeMeaning.RecordMeans | crates/orishu-membership/src/merge.rs:69-322 | what is held after one record: nothing changes but its node, and that only for a valid record of another, unfenced node with room or the held certificate; then the later version's description is held, and the liveness of a strictly later incarnation, or at the same one a death over life and a suspicion over a sign of life, unless a death is held |
| MemberMerge.Membership.MergeTombstone | crates/orishu-membership/src/merge.rs:325-395 | an adopted tombstone, cleared or not, removes its member and any suspicion of it; this node's own removal is reported as such |
| MergeMeaning.TombstoneMeans | crates/orishu-membership/src/merge.rs:325-395 | a valid tombstone later than the held one, or new with room, is held and its member gone; any other changes nothing |
| MergeMeaning.OthersMean | crates/orishu-membership/src/merge.rs:396-465 | blocklist entries and the policy touch nothing else, and by the same order of versions |
| MemberDelivery.DeliveryIsTracked | crates/orishu-membership/src/merge.rs:85-99 | whatever the order, a node's description is one of the highest version heard, the held one winning a tie, and its liveness the death told in time or else the sign of life no other outranks |
| MemberDelivery.OrdersAgreeIff | crates/orishu-membership/src/merge.rs:165-322 | for every formation, every held state and every list of records, all orders of delivery give the same members if and only if the records are compatible |
| MemberDelivery.RedeliveryChangesNothing | crates/orishu-membership/src/merge.rs:249-276 | compatible records converge however often and in whatever order each is delivered |
| MemberDelivery.DeathRacesRefutation | crates/orishu-membership/src/merge.rs:85-99 | a death at a suspicion's incarnation and the next sign of life: the first heard decides for good |
| TombstoneDelivery.DeliveryIsAlone | crates/orishu-membership/src/merge.rs:200-204 | when nobody comes back or is crowded out, a mixed delivery in any order leaves no removed node, and of the others exactly what the records alone make of the members no tombstone removes |
| TombstoneDelivery.RedeliveryChangesNothing | crates/orishu-membership/tests/convergence.rs:497-524 | compatible gossip of all kinds converges however often and in whatever order each delta is delivered |
| GossipOrders.OrdersAgreeIff | crates/orishu-membership/tests/convergence.rs:460-495 | for all rules, every held state and every list of member, tombstone, blocklist and policy deltas, all orders of delivery end alike if and only if the deltas are compatible |
| GossipOrders.ReadmissionRaces | crates/orishu-membership/src/merge.rs:325-395 | a tombstone's clearing and its node's record: heard in one order the node is a member again, in the other it is not |

## Left out

- JSON shapes, type checks and regular expressions: a value that fails them is one malformed case; identifiers are WellFormed or Malformed, nonces are numbers, sockets Private or Unacceptable.
- Floating point: rounding; quantiles, processor seconds and percentages are reals, deadlines are nanoseconds, medians are not modelled.
- Clock quantisation: a stamp reads its clock exactly at the nanosecond.
- SSH, subprocess, selectors, HTTP, TLS and Podman driving: abstracted to the events and arguments of each step.
- A signal that lands inside a half-written reply: modelled as the death of the node, not as a second line spliced into the first.
- The document's contents: opaque values; validation, instantiation and reference storage enter as the authority's rules and one gate flag.
- `DocumentAuthority`: modelled on values, so its in-place updates and its copy-then-commit transactions are not distinguished.
- Fresh UUIDs: counters that never repeat.
- `Form` choices of the template controller and its dependency resolver: only tokens, guard, captured flag and consent; a dependency action may rebind or start a query.
- The scientific lane's other users: an effect begun by another form occupies the lane and may edit the document; how it prepares is not modelled.
- LockValidation.Validate: members and bindings are sets and maps, so duplicates and set order cannot be wrong; the weight of the canonical encoding is a given function of the lock.
- LockComposition.Merge: agreement is one predicate instead of two scans that name the first conflict.
- ComponentForm.Prepare: the scene, saved choices and captured selection are arguments; refusals are one null result instead of messages.
- TemplateCatalog.Controller.ActAuthoring: whether a selection resolves and whether a request can be built are given flags.
- TemplateCatalog.Lane.Begin: the extension's lock merge, retention and declaration checks are one given flag.
- AuthorityLaws.RefusedSchemaEditIsAtomic: the transaction's copy is a value, so that a refused copy leaves the original alone is true by construction.
- `component_form/reset.rs` and `physics_form`: the two-stage reset is left out.
- The proxy log's reader thread, whose own failure also latches.
- Byte patterns of the proxy log, decoding and redaction of the tail, datagram payloads: given or opaque.
- Notices and labels shown to the user.
- MemberMerge.Membership.MergeMember: a challenge to this node is returned, its refutation is not modelled; nor are announcements, hop counts, probes (which an adopted tombstone also ends) and anti-entropy exchanges.
- `scripts/pi-lab-capacity.py`, telemetry summaries and the inspection views.
