# Verification of nut-operator's power-loss logic

nut-operator shuts a Kubernetes cluster down in order when its UPS runs low. This project models, in Dafny,
the parts of it whose correctness is a statement about whole runs rather than single calls, and proves those
statements. `dafny verify dfyconfig.toml` checks everything.

| part | files |
|---|---|
| Adaptive execution: tier movement, timing modes, runtime budget | `Parameters`, `TierPointer`, `TimingMode`, `TimingBudget`, `PlanReserve`, `PlanOnMains` |
| Audit trail: fallback journal, replay, the database it ends up in | `AuditStore`, `SpoolJournal`, `SpoolReplay` |
| Halt signals: what an actuator remembers, what the operator withdraws | `ActuatedKeys`, `Actuator`, `SignalKeys`, `Revocation` |
| Capability profiles: matching, quirks, PDUs, drafting, verification | `Profiles`, `Quirks`, `ProfileMatch`, `PduMatch`, `Draft`, `BuildDraft`, `RoundTrip`, `Catalog` |
| The standalone installer's access rules | `RestrictedRules` |
| Go strings and stable sorting, as the above use them | `GoStrings`, `StableSort` |

## How the model is built

- Code that is a calculation is a function; code that loops or updates something is a method, proved against a
  specification function or predicate about which the promises are then proved. The journal, the writer, the
  primary store, the actuator process and the signal Secret are classes.
- Concurrent behaviour is a step system: any number of writers interleave with the single drain
  (`SpoolProtocol`), executions and signal writes interleave with the two-step revocation (`Revocation`),
  passes, stops and restarts follow in any order (`Actuator`).
- Durations are integer nanoseconds, fractions are reals, and the conversion back to a duration truncates.
- Foreign code is a parameter: glob matching, lower-casing, what inspecting a signal path found, what the
  primary store answers, which file operation fails, the clock.

## Where the code and its documentation differ

The model follows the code. Each point is a theorem.

- A timing parameter set can be accepted under which losing telemetry makes a flow *less* urgent: this happens
  exactly when escalation needs more than one reading and the Nominal band is not empty
  (`TimingMode.LosingDataIsSafeExactlyWhen`).
- A relaxation margin of 100% or more is rejected as unreachable, but at every margin some readings relax a flow
  completely (`TimingMode.EveryMarginIsReachable`).
- Compression lies in the closed range from the minimum to one; the comment on the field says half-open. Both ends
  are reached, and exactly when is stated (`TimingBudget.MinimumIsReachedExactlyWhen`).
- A fitting plan stays fitting while mains costs no runtime. On mains a wave runs in full whatever the battery holds,
  so if mains fails during it, or the figure falls for another reason, the rest may no longer fit
  (`PlanOnMains.FitsThroughMainsExactlyWhen`, `PlanOnMains.MainsCanUnfund`).
- Losing a figure below the assumed runtime makes the budget more generous, while it makes the mode more urgent
  (`TimingBudget.LostFigureIsSafeExactlyWhen`).
- Recomputing the budget before every wave lets a compressed plan of several waves spend the reserve of its first
  budget. A plan that starts uncompressed or declares a single wave keeps it; any other loses it in some run as soon
  as its excess is more than rounding can hide (`PlanReserve.ReserveIsKeptExactlyWhen`). For every plan, one run
  decides (`PlanReserve.StaysAboveExactlyWhen`).
- An ascent is said to cost nothing, but one that passes the start tier by two makes the next descent report a tier
  never executed as re-execution. The caller can pass such a bound, since a flow starts at its first wave's tier
  (`TierPointer.ReexecutionIsExactExactlyWhen`).
- Replay has no time guard: it sets back a progress row written directly while an older, different version is the
  last one spooled, and only then (`AuditStore.ProgressSurvivesReplayExactlyWhen`).
- A record refused at the cap whose file then fails to close is counted twice, and nothing else is
  (`SpoolProtocol.CallsAddUpExactlyWhen`).
- Pruning actuated keys is said to drop the oldest. Across executions, nodes or plans their ids decide whatever the
  times. Within one of each it is true except inside a second: trailing zeros of the fraction are trimmed, so a later
  stamp whose fraction continues an earlier one's sorts first (`SignalKeys.NewerIsDroppedExactlyWhen`).
- Nothing is to be withdrawn on the strength of a stale read, but deletion is by name: it withdraws what was judged
  exactly when nothing was written to that key in between (`Revocation.WithdrawsJudgedExactlyWhen`).
- The running record of a new execution carries no completion time and re-authorizes every spent signal of its
  flow until it completes (`Revocation.UnauthorizedStaysSo`).
- Completion times are truncated, so a signal written after the recorded time of its own finished execution is not
  withdrawn when the trigger clears (`Revocation.WithdrawnExactlyWhen`).
- Profile versions ignore everything after the first dash, unlike section 11 of Semantic Versioning 2.0.0
  (`Profiles.PreReleaseIsIgnored`).
- Wildcards in the role are not expanded against the installer's profile: the cut is the intersection exactly when
  every star is also spelled out (`RestrictedRules.NothingIsLostExactlyWhen`).

## Model

| member | source | states |
|---|---|---|
| `AdaptiveParameters.DefaultsFillOnlyGaps` | internal/adaptive/parameters.go:141-176 | a set field is kept and an unset one takes its default, each on its own; an unset assumed runtime is the urgent threshold in force; filling again changes nothing |
| `AdaptiveParameters.AcceptedMeans` | internal/adaptive/parameters.go:183-234 | validation reports no error exactly when the thresholds are ordered and margin, reserve and minimum compression are below one |
| `AdaptiveParameters.FindingsMean` | internal/adaptive/parameters.go:183-234 | each of the six findings, error or warning, is reported exactly under its own comparison of the fields |
| `TierPointer.ExecutedIsInterval` | internal/adaptive/pointer.go:107-175 | after any run of descents, ascents and halts within sound bounds the executed tiers are exactly the interval from the deepest tier to the start tier |
| `TierPointer.ReexecutionIsExact` | internal/adaptive/pointer.go:107-136 | every step of such a run reports re-execution exactly when it descends to a tier executed earlier in the run |
| `TierPointer.ReexecutionIsExactExactlyWhen` | internal/executor/adaptive.go:147-155 | for callers that pass final tiers of at least a floor and ascents up to a top: every flow reports re-execution exactly if and only if the floor is 1 or more and the top is at most one tier above the start, or not above the floor |
| `TierPointer.DescentsReach` | internal/adaptive/pointer.go:107-136 | descents make progress: after n + 1 of them a fresh flow stands n tiers below its start, and has executed exactly the tiers from there to the start; with n at its largest that is every tier down to the final one |
| `TierPointer.MovesExactlyWhen` | internal/adaptive/pointer.go:107-183 | in any run, a step moves down exactly when it is a descent of a flow that is not halted and is above the final tier or not started, and up exactly when it is an ascent of a started flow that is not halted and below its bound; the report carries the tiers before and after |
| `TierPointer.NormalizeRepairs` | internal/adaptive/pointer.go:156-165 | exactly which persisted depths are kept and which are replaced by the tier; both movements see only the repaired state |
| `TierPointer.DeepestNeverRises` | internal/adaptive/pointer.go:107-183 | over any run that excludes tier 0, whatever its ascents, the deepest tier never rises once the flow has started, and a started flow stays started |
| `TierPointer.DepthIsKeptExactlyWhen` | internal/adaptive/pointer.go:156-165 | the deepest tier never rises in any flow within the caller's bounds if and only if final tiers are 1 or more |
| `TierPointer.NothingMovesAfterHalt` | internal/adaptive/pointer.go:180-183 | in any flow whatever, after an abort every step holds and the tier never changes |
| `TierPointer.HaltFreezesState` | internal/adaptive/pointer.go:156-183 | while tier 0 is excluded the whole state is frozen after an abort |
| `TierPointer.TargetingTierZeroForgetsDepth` | internal/adaptive/pointer.go:156-165 | from every start, a flow that may target tier 0 has a run in which the recorded depth rises |
| `TierPointer.TargetingTierZeroMisreports` | internal/adaptive/pointer.go:107-165 | from every start, a flow that may target tier 0 has a run that reports a second visit as a first |
| `TierPointer.AscendingAboveStartMisreports` | internal/executor/adaptive.go:147-190 | from every start, a flow that may ascend two tiers above it and descend from there has a run that reports a tier never executed as re-execution |
| `TimingMode.DegradedRunDominates` | internal/adaptive/timing.go:89-217 | with immediate escalation, deleting runtime figures or trust from any readings of any run leaves the mode at least as urgent at every step |
| `TimingMode.LosingDataIsSafeExactlyWhen` | internal/adaptive/timing.go:89-217 | losing data is safe in every run if and only if escalation takes one reading or the thresholds leave no Nominal band |
| `TimingMode.LostReadingDelays` | internal/adaptive/timing.go:164-185 | the failing family: with slow escalation one lost reading leaves the count one behind for the whole climb |
| `TimingMode.SteadyReadingsSettle` | internal/adaptive/timing.go:123-185 | readings that keep pointing at another mode reach it exactly with the reading that completes its count, counts already pending included |
| `TimingMode.MainsRestores` | internal/adaptive/timing.go:89-217 | mains back for the relaxation count relaxes any flow whatever the figures |
| `TimingMode.BlindOrLowIsUrgent` | internal/adaptive/timing.go:89-111 | a low battery or no trusted figure on battery makes any flow Urgent within the escalation count |
| `TimingMode.EscalatesExactlyWhen` | internal/adaptive/timing.go:89-160 | a flow that keeps reading the same trusted runtime on battery is Urgent, Nominal or Relaxed exactly as the reading compares with the two thresholds, in seconds |
| `TimingMode.RelaxesExactlyWhen` | internal/adaptive/timing.go:194-217 | a flow leaves Urgent for Nominal, or either for Relaxed, exactly when the reading clears the threshold it leaves behind with its margin: the dead bands, as equivalences |
| `TimingMode.DefaultThresholds` | internal/adaptive/parameters.go:121-134 | with the defaults: up to 300 s is Urgent and up to 900 s Nominal at once; 330 s and 990 s relax after three readings |
| `TimingMode.TransitionReports` | internal/adaptive/timing.go:123-185 | a transition names the modes before and after, is a change exactly when they differ, and gives the reason that matches |
| `TimingMode.ChangesArePaidFor` | internal/adaptive/timing.go:123-185 | relaxations and escalations, each weighted by its threshold, and the pending count never exceed the number of readings |
| `TimingMode.EscalationsBounded` | internal/adaptive/timing.go:123-160 | escalations are at most two plus twice the relaxations |
| `TimingMode.RelaxationIsEvidenced` | internal/adaptive/timing.go:123-217 | a relaxation is preceded by its full threshold of consecutive readings, all indicating that mode and all clearing the margin |
| `TimingMode.UrgentDeadBand` | internal/adaptive/timing.go:194-217 | no run of readings on battery, untrusted or below Urgent times one plus the margin, leaves Urgent |
| `TimingMode.RelaxedDeadBand` | internal/adaptive/timing.go:194-217 | no run of readings on battery, untrusted or below Nominal times one plus the margin, returns to Relaxed |
| `TimingMode.EveryMarginIsReachable` | internal/adaptive/parameters.go:201-207 | at every margin some reading on battery, repeated, relaxes an escalated flow completely |
| `TimingBudget.CompressionOnlyShortens` | internal/adaptive/timing.go:226-314 | compression lies between the minimum and one inclusive, and no declared duration is ever lengthened |
| `TimingBudget.MinimumIsReachedExactlyWhen` | internal/adaptive/timing.go:271-292 | on battery the minimum is reached exactly when what is available is no more than the plan at that compression, and one exactly when the plan needs no more than is available: both ends belong to the range |
| `TimingBudget.BudgetReports` | internal/adaptive/timing.go:254-293 | a budget carries the plan it was asked about and whether the figure was measured; on mains it always fits uncompressed, on battery the reserve is held back |
| `TimingBudget.KeptBounds` | internal/adaptive/timing.go:272-273 | what the reserve leaves of a figure, to the nanosecond |
| `TimingBudget.ScaledExactly` | internal/adaptive/timing.go:295-314 | what a compression leaves of a declared duration, to the nanosecond, and when it leaves it alone |
| `TimingBudget.DefaultBudget` | internal/adaptive/parameters.go:121-134 | with the defaults: four fifths of the runtime are available, a plan fits up to eight times the runtime, and an unknown runtime counts as five minutes |
| `TimingBudget.BudgetIsTight` | internal/adaptive/timing.go:254-314 | on battery a plan is left alone exactly when it needs no more than is available, fits exactly when the minimum compression makes it, and a fitting plan run at its scaled durations stays within what is available |
| `TimingBudget.FittingPlanStaysFunded` | internal/adaptive/timing.go:254-314 | a plan that fits before its first wave fits before every later one, is compressed no harder than by any earlier budget on battery, and has runtime left after every wave, for any list of waves on battery or on mains and with truncation, where waves started on mains cost no runtime |
| `PlanOnMains.FitsThroughMainsExactlyWhen` | internal/executor/adaptive.go:140-155 | if waves on mains may cost runtime too, every budget of every run still fits if and only if the plan fits at each figure that full waves on mains can leave, computed from the durations and the first reading |
| `PlanOnMains.MainsCanUnfund` | internal/adaptive/timing.go:262-269 | a plan that fits on battery and does not survive a wave run in full on mains |
| `TimingBudget.WaveLeavesReserve` | internal/adaptive/timing.go:254-293 | one wave of a fitting plan started on battery leaves the reserve's share of the runtime it started with |
| `TimingBudget.UncompressedPlanKeepsReserve` | internal/adaptive/timing.go:254-293 | a plan that starts uncompressed keeps the first reading's reserve at every wave of every paced run, on battery or on mains, whether or not mains costs runtime |
| `TimingBudget.LostFigureIsSafeExactlyWhen` | internal/adaptive/timing.go:255-261 | a reading without its figure or trust is budgeted on no more runtime if and only if the figure was at least the assumed one; otherwise its budget is at least as generous |
| `PlanReserve.StaysAboveExactlyWhen` | internal/adaptive/timing.go:254-314 | every disciplined run of a fitting plan that starts on battery stays above a bound, such as the first reserve, if and only if one run does: full allowances and the lowest readings, computed from the durations and the first reading |
| `PlanReserve.StaysAboveFromMainsExactlyWhen` | internal/adaptive/timing.go:254-314 | the same for a first reading on mains, whose wave costs nothing |
| `PlanReserve.HigherStaysHigher` | internal/adaptive/timing.go:254-314 | of two runtime figures the higher stays the higher across a wave, however much longer the wave may then take |
| `PlanReserve.ReserveIsKeptExactlyWhen` | internal/adaptive/timing.go:254-314 | a fitting plan keeps the first reserve if it starts uncompressed or one wave declares a duration; every other plan has a positive excess, and some disciplined run loses the reserve once the excess is more than a second per wave and two nanoseconds |
| `PlanReserve.ExcessIsSpent` | internal/adaptive/timing.go:254-314 | the worst run of a compressed plan of several waves spends what was available plus the excess, less the rounding |
| `AuditStore.Absorb` | internal/audit/store.go:444-447 | applying early a record that is still to be replayed does not change where a consistent replay ends |
| `AuditStore.Commute` | internal/audit/store.go:444-447 | a record of another identity commutes with a replay |
| `AuditStore.PartialDrainsConverge` | internal/audit/replay.go:103-144 | any number of partial drains, each applying any subset of the journal in order, then a complete one, leave the database of a single complete drain |
| `AuditStore.EarlierAttemptsLeaveNoTrace` | internal/audit/replay.go:55-61 | whatever earlier attempts applied, in any order and number, a complete drain ends in the same database |
| `AuditStore.ReplayIsSafeExactlyWhen` | internal/audit/store.go:687-706 | repeating any part of a journal first is harmless from every database if and only if records of one identity agree on what an insert keeps |
| `AuditStore.SecondRecord` | internal/audit/store.go:687-706 | a second record of an execution, a wave or a group sets the progress columns; of any other kind it is ignored |
| `AuditStore.ProgressSurvivesReplayExactlyWhen` | internal/audit/store.go:687-706 | a progress row written directly while records wait still reads as written after the drain if and only if no version waits or the last one says the same; otherwise it is set back to that one |
| `AuditStore.EarlyWriteCommutesExactlyWhen` | internal/audit/store.go:743-752 | writing ahead of the pending records equals writing after them, from every database, if and only if the kind ignores conflicts, no version waits, or the last one says the same |
| `SpoolJournal.AppendKeepsCap` | internal/audit/spool.go:269-299 | an append keeps the file within any cap at least the writer's own |
| `SpoolJournal.WrittenExactlyWhen` | internal/audit/spool.go:269-299 | without a fault a record is written exactly when there is no cap or it still fits, in bytes, and dropped otherwise |
| `SpoolJournal.FaultExactlyWhen` | internal/audit/spool.go:253-299 | what each failing file operation leaves in the journal and reports: a sync or close that fails comes after the line |
| `SpoolJournal.ChangeIsNoticed` | internal/audit/spool_sync.go:28-44 | a journal that was replaced, touched or grew since its snapshot does not pass for unchanged |
| `SpoolJournal.SameSizePrefix` | internal/audit/spool_sync.go:28-44 | a file that only grew and has the same size holds the same lines |
| `SpoolJournal.SpoolWriter.Record` | internal/audit/spool.go:201-299 | what one call does to the journal and the counters, for a primary success and for every failing step of the fallback |
| `SpoolProtocol.SpooledIsNeverLost` | internal/audit/spool.go:233-299 | in every interleaving of any writers with the drain, a record counted as spooled is in the journal or accepted by the primary |
| `SpoolProtocol.FinishRemovesOnlyWhatWasRead` | internal/audit/replay.go:103-145 | a drain removes the journal only when it read every line in it and the primary accepted every one |
| `SpoolProtocol.CallsAreConserved` | internal/audit/spool.go:201-299 | over any run, calls plus refusals that failed to close equal primary successes plus spooled plus dropped plus errors |
| `SpoolProtocol.CallsAreCounted` | internal/audit/spool.go:201-210 | over any interleaving every call is counted once, and as primary exactly if the primary accepted it |
| `SpoolProtocol.CallIsDroppedExactlyWhen` | internal/audit/spool.go:269-299 | in any interleaving, a refused call is dropped exactly when its line would pass its writer's cap; otherwise the line is added, counted and part of the history |
| `SpoolProtocol.CallsAddUpWhenClosingWorks` | internal/audit/spool.go:253-299 | if closing never fails, the four counts add up to the calls |
| `SpoolProtocol.CallsAddUpExactlyWhen` | internal/audit/spool.go:274-282 | over any run the four counts add up to the calls if and only if no call is refused at the cap with a failing close |
| `SpoolProtocol.RefusedCallIsCountedTwice` | internal/audit/spool.go:274-282 | such a call is counted as dropped and as an error |
| `SpoolProtocol.JournalStaysWithinCap` | internal/audit/spool.go:269-299 | over any run the shared journal never outgrows the largest cap of its writers |
| `SpoolProtocol.PendingDenotesHistory` | internal/audit/replay.go:65-145 | at every moment of every run with timely direct writes, replaying what is in the journal gives the database the whole history in order would have given |
| `SpoolProtocol.DirectWriteDenotesExactlyWhen` | internal/audit/spool.go:201-210 | a direct write keeps the database plus the journal standing for the history if and only if it is timely |
| `SpoolProtocol.HistoryIsKeptExactlyWhen` | internal/audit/replay.go:65-145 | a run keeps the database plus the journal standing for the history throughout if and only if all its direct writes are timely |
| `SpoolProtocol.DrainedDatabaseIsHistory` | internal/audit/replay.go:65-145 | once the journal is gone the database is exactly that of the history written in order |
| `SpoolReplay.PrimaryStore.Insert` | internal/audit/store.go:687-706 | one insert ignores a conflict or overwrites the progress columns, by kind |
| `SpoolReplay.ReplayLines` | internal/audit/replay.go:103-133 | the scanner loop: counts, accumulated failure, the rows that landed and the lines that arrived meanwhile |
| `SpoolReplay.ReplaySpool` | internal/audit/replay.go:65-145 | counts, error and final state for every answer of the store, cancellation, concurrent drain and failing open, stat or remove: the journal goes exactly when the scan finished, every line was applied, nothing arrived and it can be removed; otherwise it is kept whole |
| `SpoolReplay.DrainIsInterleaving` | internal/audit/replay.go:65-145 | what one such call leaves is what an interleaving of the protocol's open, replay, call and finish or abandon steps leaves |
| `SpoolReplay.DrainStaysReachable` | internal/audit/replay.go:65-145 | a drain from any reachable state leads to a reachable state, so nothing spooled is lost by it |
| `SpoolReplay.CleanMeansAllApplied` | internal/audit/replay.go:134-145 | nothing skipped and nothing failed is the same as every line applied |
| `ActuatedKeys.RenderActuatedKeys` | cmd/node-actuator/state.go:66-84 | what is written down is ascending, at most 64 long and exactly the greatest keys seen |
| `ActuatedKeys.PruneKeepsTop` | cmd/node-actuator/state.go:79-84 | dropping from the front of the ascending list keeps exactly the greatest keys |
| `ActuatedKeys.TopOfUnion` | cmd/node-actuator/state.go:58-84 | pruning commutes with union: pruning, adding and pruning again equals pruning the union |
| `Actuator.Watcher.ScanSignalPaths` | cmd/node-actuator/main.go:284-344 | a pass acts at most once, on the first active signal for this agent's flow, only if its key is new, and lists the skewed paths before it |
| `Actuator.Watcher.RecordState` | cmd/node-actuator/main.go:346-401 | a written state file holds the greatest keys seen; an unwritable one stays as it was |
| `Actuator.Watcher.Restart` | cmd/node-actuator/main.go:346-401 | a restart forgets everything but the state file, and that too if it cannot be read |
| `Actuator.Watcher.RunPass` | cmd/node-actuator/main.go:346-401 | a scan and a record together are one step of the run model |
| `Actuator.OtherFlowsAreIgnored` | cmd/node-actuator/main.go:320-326 | for an agent of one flow, deleting every signal of the others changes nothing |
| `Actuator.PassActsExactlyWhen` | cmd/node-actuator/main.go:284-344 | a pass acts on the first active signal that speaks to the agent, exactly if its key is new, and on nothing otherwise |
| `Actuator.ActsOnOwnSignals` | cmd/node-actuator/main.go:284-401 | over any run of passes, stops and restarts, every key acted on came with an active signal that speaks to the agent |
| `Actuator.SkewedExactly` | cmd/node-actuator/main.go:284-344 | the paths reported as skewed are exactly those of inactive signals from the future |
| `Actuator.RepeatNeedsManyGreaterKeys` | cmd/node-actuator/main.go:284-401 | over any run of passes and saved restarts a key is acted on twice only if at least 64 greater keys were acted on |
| `Actuator.SurvivesRestartExactlyWhen` | cmd/node-actuator/state.go:66-84 | a key just acted on is remembered across a restart if and only if fewer than 64 seen keys are greater |
| `Actuator.UnsavedStopRepeats` | cmd/node-actuator/main.go:346-401 | from any state, a stop before a new actuation is written down, or an unreadable file, repeats it on the next pass |
| `SignalKeys.StampsOrderByTimeExactlyWhen` | internal/kubeactions/runner.go:990-1006 | two stamps order as texts as they do in time unless they fall into one second and the fraction of one continues that of the other, both ways |
| `SignalKeys.KeyOrder` | internal/nodeagent/signal.go:122-124 | keys of one execution, node and plan order as their stamps do as texts; otherwise the execution, node and plan decide |
| `SignalKeys.KeyParts` | internal/nodeagent/signal.go:122-124 | a key is the execution, the node, the plan hash and the stamp, joined by colons |
| `SignalKeys.KeysTellSignalsApart` | internal/nodeagent/signal.go:122-124 | two signals without colons in their fields have the same key only if they are the same |
| `SignalKeys.ExecutionDecides` | internal/nodeagent/signal.go:122-124 | executions that diverge decide the order of their keys |
| `SignalKeys.NewerIsDroppedExactlyWhen` | cmd/node-actuator/state.go:66-84 | pruning some list of seen keys drops a newer signal's key and keeps an older one's if and only if, for one execution, node and plan, both fall into one second and the newer fraction continues the older, or, across them, the newer signal's execution, node and plan sort first |
| `SignalKeys.DropsSmallerOnly` | cmd/node-actuator/state.go:79-84 | pruning some list drops one key and keeps another if and only if the dropped one is smaller |
| `Revocation.SignalSecret.RevokedSignalKeys` | internal/controller/nodepoweragent_signals.go:73-110 | exactly the keys other than the marker whose signals are not authorized |
| `Revocation.UnreadableIsRevoked` | internal/controller/nodepoweragent_signals.go:73-110 | an entry that is no readable signal, or has no readable time, is revoked whatever the flows; the delivery marker never is |
| `Revocation.SignalSecret.Withdraw` | internal/controller/nodepoweragent_signals.go:34-65 | exactly the judged keys are deleted, by name, and the delivery marker is present |
| `Revocation.LiveSignalIsAuthorized` | internal/controller/nodepoweragent_signals.go:160-180 | the signal of an execution still in flight is kept if and only if its flow is visible or it is within its lifetime |
| `Revocation.LiveSignalIsNeverWithdrawn` | internal/controller/nodepoweragent_signals.go:34-110 | over any run without an overwrite between verdict and deletion, a deletion takes the signal of an execution in flight only if the verdict could not see its flow and its lifetime was over |
| `Revocation.WithdrawsJudgedExactlyWhen` | internal/controller/nodepoweragent_signals.go:34-110 | over any run, the deletion of a judged key withdraws the signal that was judged if and only if no execution wrote to that key since the last judgement; then it is live only if it was out of sight, otherwise a signal written since is withdrawn unjudged |
| `Revocation.OverwriteLosesLiveSignal` | internal/controller/nodepoweragent_signals.go:50-52 | any judged key rewritten by a running execution before the deletion loses that live signal |
| `Revocation.UnauthorizedStaysSo` | internal/controller/nodepoweragent_signals.go:160-180 | once unauthorized with its flow visible, a signal is authorized by a later judgement of any run if and only if the flow's record then carries no completion time |
| `Revocation.WithdrawnExactlyWhen` | internal/controller/nodepoweragent_signals.go:34-110 | with a completed record that is not its own with the trigger active, one judgement and deletion withdraw a visible signal if and only if it was written no later than the recorded time |
| `Revocation.OneExecution` | internal/controller/nodepoweragent_signals.go:73-180 | after any run, one execution from beginning to end: its signal is live until it completes, survives every sweep until the trigger clears, and is then withdrawn exactly when it was written no later than the recorded completion |
| `Revocation.RunningRecordRevivesSignals` | internal/controller/shutdownflow_run_progress.go:13-24 | the running record of a new execution authorizes every readable signal of its flow |
| `Profiles.TierIsMostSpecific` | internal/capability/matcher.go:217-237 | the tier found is the most specific that applies, and none is found only if none applies |
| `Profiles.BetterThanIsStrictWeak` | internal/capability/matcher.go:239-250 | the precedence is a strict weak order, also over mixed valid and invalid versions |
| `Profiles.PreReleaseIsIgnored` | internal/capability/matcher.go:428-475 | a suffix after the first dash makes no difference if and only if what precedes it is a version |
| `Profiles.NewerComparesGreater` | internal/capability/matcher.go:457-475 | versions compare as major, minor and patch in that order; any version is greater than none, and texts that are no version compare as texts |
| `Profiles.VersionReadsBack` | internal/capability/matcher.go:428-475 | three numbers written in decimal and joined by dots, with or without a v, read back as themselves |
| `Profiles.VersionIsValidExactlyWhen` | internal/capability/matcher.go:428-475 | a text is a version exactly when it has three parts and each is a number |
| `Profiles.CandidatesAreMatches` | internal/capability/matcher.go:199-215 | the candidates are exactly the matching profiles |
| `Quirks.CompareDottedVersions` | internal/capability/quirks.go:140-161 | the sign of the comparison under zero padding |
| `Quirks.DottedReadsBack` | internal/capability/quirks.go:121-136 | any numbers written in decimal and joined by dots read back as themselves |
| `Quirks.DottedOrderIsTotalPreorder` | internal/capability/quirks.go:140-161 | the order is total and transitive, and trailing zeros never change a version's place |
| `Quirks.QuirkAppliesToFirmware` | internal/capability/quirks.go:67-114 | whether a quirk is in force, and exactly when the unknown-firmware and the not-comparable warnings are raised |
| `Quirks.ResolveQuirks` | internal/capability/quirks.go:38-59 | the sorted names of exactly the quirks in force |
| `Quirks.ResolvedExactly` | internal/capability/quirks.go:38-59 | the names resolved are exactly those of named quirks in force |
| `Quirks.ScopeMeans` | internal/capability/quirks.go:67-114 | a pattern scope is in force exactly when the pattern matches, and a bound exactly when the firmware is below it component by component |
| `Quirks.BoundIsDownwardClosed` | internal/capability/quirks.go:67-114 | a quirk scoped only by a bound, even one that does not parse, that afflicts one comparable firmware afflicts every comparable one at or under it |
| `Quirks.UnknownFirmwareCarriesAll` | internal/capability/quirks.go:38-114 | unknown firmware carries every quirk any firmware would, as often |
| `Quirks.ValidateQuirkDeclarations` | internal/capability/quirks.go:164-214 | no error exactly when every scope can be evaluated and no name repeats |
| `ProfileMatch.ValidateProfileAliases` | internal/capability/matcher.go:311-368 | an error exactly when an alias is malformed or two share a target; a warning exactly when a well-formed alias has an undeclared target |
| `ProfileMatch.ValidateProfile` | internal/capability/matcher.go:252-306 | an error exactly when the profile is invalid on its own |
| `ProfileMatch.ValidateProfiles` | internal/capability/matcher.go:252-306 | an error exactly when a profile is invalid, two share a key, or none is universal |
| `ProfileMatch.MatchDevice` | internal/capability/matcher.go:41-120 | the loops compute the specified selection |
| `ProfileMatch.ValidSetSelects` | internal/capability/matcher.go:41-62 | a match is rejected exactly when the set is invalid; a valid set always selects |
| `ProfileMatch.PrecedenceIsLayered` | internal/capability/matcher.go:217-250 | nothing that applies is more specific than the winner; at its tier nothing has a stronger source, and among those nothing is newer or has a smaller label |
| `ProfileMatch.OperatorProfileWins` | internal/capability/matcher.go:409-418 | of the winner's tier, an operator's profile wins over a bundled one and a bundled one over the rest, by the names of the sources |
| `ProfileMatch.NewestProfileWins` | internal/capability/matcher.go:239-250 | of the winner's tier and source, none is numerically newer, and none has a version if the winner has not |
| `ProfileMatch.SmallerLabelWins` | internal/capability/matcher.go:239-250 | of the winner's tier, source and version, none has a smaller id and version joined by a colon |
| `ProfileMatch.SelectionReports` | internal/capability/matcher.go:41-120 | a selection carries the device, the winning profile's own fields with its lists in order, its tier, and the quirks in force for the device |
| `ProfileMatch.NormalizedOrder` | internal/capability/matcher.go:384-407 | normalization orders by id, then version, then source |
| `ProfileMatch.CanonicalMeans` | internal/capability/matcher.go:384-407 | a canonical profile is the same profile with its lists sorted |
| `ProfileMatch.CopiedQuirks` | internal/capability/quirks.go:217-234 | the copy of a quirk list holds the same quirks, ordered by name |
| `ProfileMatch.SortedScopeMeans` | internal/capability/quirks.go:222-231 | the copy of a quirk keeps its name, its bound and its patterns, the patterns in order |
| `ProfileMatch.WinnerBeatsAll` | internal/capability/matcher.go:58-62 | the winner is a candidate and beats every other one |
| `ProfileMatch.WinnerIsUnbeaten` | internal/capability/matcher.go:239-250 | no matching profile of a valid set is better than the winner |
| `ProfileMatch.MatchIgnoresOrder` | internal/capability/matcher.go:384-407 | permuting the profiles changes neither the selection nor a rejection |
| `ProfileMatch.AddingAProfile` | internal/capability/matcher.go:41-62 | adding a profile leaves the winner or makes the added one the winner |
| `PduMatch.CheckOutlets` | internal/capability/pdu.go:230-259 | accepted exactly when the count is unset or the outlets are distinct and no more than it |
| `PduMatch.ValidatePduProfiles` | internal/capability/pdu.go:184-221 | accepted exactly when every profile is valid, no key repeats and at most one is universal |
| `PduMatch.BestPdu` | internal/capability/pdu.go:92-119 | the one-pass scan finds the head of the stable sort |
| `PduMatch.PduPrecedenceIsLayered` | internal/capability/pdu.go:92-119 | the PDU profile selected applies most specifically, and of that tier has the first source and the newest version |
| `PduMatch.NormalizedPduOrder` | internal/capability/pdu.go:263-282 | normalization orders by id and then by version, and holds the given profiles with their lists in order |
| `PduMatch.CanonicalPduMeans` | internal/capability/pdu.go:263-274 | a canonical PDU profile is the same profile with its variables, quirks and switchable outlets sorted |
| `PduMatch.PduKeyTellsApart` | internal/capability/pdu.go:195-205 | keys of PDU profiles agree exactly when ids and versions do, as long as the ids carry no colon |
| `PduMatch.PduResultIgnoresOrder` | internal/capability/pdu.go:85-159 | listing the same PDU profiles in another order gives the same answer |
| `PduMatch.MatchPdu` | internal/capability/pdu.go:85-159 | rejection, no match, or the head of the stable sort with its quirks in force |
| `Draft.GreedyScan` | internal/capability/draft.go:196-222 | the greedy scan succeeds exactly when an order-preserving embedding exists |
| `Draft.SegmentsOfExpanded` | internal/capability/draft.go:226-242 | splitting the expanded name gives the expanded segments of the name |
| `Draft.ShortForms` | internal/capability/draft.go:226-242 | the short forms and what they stand for; every other segment stays as it is |
| `Draft.PlausibleAlias` | internal/capability/draft.go:196-222 | true exactly when the expanded segments are a subsequence of the canonical name's with the same first segment |
| `Draft.SuggestAliases` | internal/capability/draft.go:169-191 | the map is one-to-one, pairs unused non-standard names with unreported targets they abbreviate, and misses no target a free name could serve |
| `Draft.SuggestionsAreValid` | internal/capability/draft.go:169-191 | suggested aliases never cause an alias validation error |
| `DraftBuilder.DerivedProfileName` | internal/capability/draft.go:244-266 | a valid name that keeps the letters and digits in order, or the placeholder when there are none |
| `DraftBuilder.CollectNames` | internal/capability/draft.go:128-163 | product, non-standard and dropped driver names partition the read |
| `DraftBuilder.BuildDraft` | internal/capability/draft.go:128-163 | identity taken from the read, exactly its product names declared, good aliases suggested, a usable name |
| `Verify.VerifyMatch` | internal/capability/verify.go:86-155 | verified, drift, missing and unexpected in terms of what was reported, declared and aliased |
| `Verify.DriftIsABrokenPromise` | internal/capability/verify.go:86-155 | drift exactly when a declared variable is neither reported nor delivered by an alias |
| `RoundTrip.NormalizeKeepsValid` | internal/capability/matcher.go:384-407 | a valid set stays valid through normalization |
| `RoundTrip.OnlyExactModelWins` | internal/capability/matcher.go:217-250 | the only profile naming the device's model, exactly, wins |
| `RoundTrip.DraftIsSelected` | internal/capability/draft.go:128-163 | a draft added to a joinable catalog is accepted and selected for its model |
| `RoundTrip.SelectedDraftVerifies` | internal/capability/verify.go:86-155 | a selected draft verified against its own read is verified, without drift, missing or unexpected names |
| `Catalog.BundledIsValid` | internal/capability/catalog.go:109-149 | the bundled profiles are a valid set |
| `Catalog.BundledSelection` | internal/capability/catalog.go:109-149 | from the bundled catalog a tower or a rack mount is selected only by its own pattern, and a device that neither matches is unidentified |
| `Catalog.BundledIsJoinable` | internal/capability/catalog.go:45-149 | every draft with a model can join the bundled catalog |
| `Catalog.DraftAndVerify` | internal/capability/draft.go:128-163 | the whole round trip for any coherent vocabulary: for any read with a model, draft, add to the bundled set, match and verify end with nothing wrong |
| `Catalog.DraftAndVerifyWithNut` | internal/capability/draft.go:53-93 | the whole round trip with the program's standard names and alias targets |
| `Draft.NutIsCoherent` | internal/capability/draft.go:53-93 | the program's alias targets are distinct standard names |
| `RestrictedRules.RestrictRules` | hack/nut-only/main.go:161-179 | the result grants exactly what the source names outright and the profile lists: never more than the intersection, the intersection for wildcard-free rules, and the intersection if and only if every star is spelled out as far as the profile reaches |
| `RestrictedRules.NothingIsLostExactlyWhen` | hack/nut-only/main.go:161-179 | every listed request the rules grant is named outright if and only if, wherever a rule covers a listed access only by a star, a rule without names names it outright, or for a rule with names some rule names it for each of them |
| `RestrictedRules.CutOfStars` | hack/nut-only/main.go:161-179 | a role of stars alone grants get on secrets, which the profile lists, and its cut grants nothing |
| `RestrictedRules.RestrictToProfile` | hack/nut-only/main.go:21-35 | the same with the installer's own profile |
| `RestrictedRules.ProfileListsNoWildcard` | hack/nut-only/main.go:21-35 | the installer's profile lists no wildcard |
| `RestrictedRules.ProfileMeans` | hack/nut-only/main.go:21-35 | what the standalone profile lists: its resources by name, no deletion, events only to emit, devices only to read |

## Left out

- TimingBudget.FittingPlanStaysFunded: stated for parameters after default filling with a reserve below one, for
  waves that keep to their allowance, and runtime that falls by at most the time spent on battery and not on mains;
  floating-point rounding and 64-bit duration overflow are not modelled.
- SpoolProtocol.PendingDenotesHistory: assumes that records of one identity agree on what an insert keeps.
- PlanReserve.ReserveIsKeptExactlyWhen: where the excess is positive but within the rounding the durations alone do
  not decide; PlanReserve.StaysAboveExactlyWhen decides every plan by its worst run.
- SignalKeys.NewerIsDroppedExactlyWhen: assumes ids, node names and hashes without a colon and four-digit years in UTC.
- SpoolProtocol.JournalStaysWithinCap: assumes a journal write is all or nothing and every writer has a cap.
- SpoolReplay.DrainIsInterleaving: numbers the arriving lines by the calls that write them, as the protocol does.
- Revocation.LiveSignalIsNeverWithdrawn: assumes clocks never run backwards.
- Catalog.DraftAndVerify: the glob matcher is a parameter, required to find the bundled catalog's patterns well formed.
- RestrictedRules.RestrictRules: non-resource rules are not modelled; the profile must list no wildcard, as the
  installer's does.
- 32-bit tiers and counters, 64-bit sizes: unbounded integers.
- Diagnostic texts, `Describe` renderings, profile and plan hashes, JSON and YAML encoding, SQL text and foreign keys.
- Blank and unparseable journal lines beyond the skipped answer, and primary writes that commit but report failure
  beyond the replay of them.
- Trigger coarsening, required variables per trigger, runtime-estimate qualification and bundled PDU profiles: single
  lookups.
- The sorting library: modelled as a stable insertion sort, its results independent of the algorithm.
- Map iteration order: arbitrary choice.
- The per-pass cache of flow lookups in revocation, and lookup errors, which abort the pass.
- The reboot call, capability raising, Talos client, log gates, readiness check and sync timeout of the actuator.
- Signal file parsing and expiry, the bounded audit writer, history queries and migrations.
- Kubernetes rendering, resource types, TLS, certificate expiry, manager start-up, NetBox import and the small
  writer commands.
