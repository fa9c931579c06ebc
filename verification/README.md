# Verification of the MTConnect adapter's publication core

A Dafny model of the part of the adapter that decides what reaches the wire, and of the browse and reload
algorithms beside it, with proofs of what they promise. `dafny verify dfyconfig.toml` checks everything.

| file | models |
|---|---|
| `Common.dfy`, `Text.dfy`, `Readings.dfy` | histories, sorting, decimal text; a reading and its quality |
| `Shaping.dfy`, `ShapingRuns.dfy` | the publish-shaping engine, and what it keeps over every history |
| `Staleness.dfy` | the passive-quality watchdog and the ladder it refines |
| `Conditions.dfy`, `Session.dfy`, `Mapping.dfy` | the condition ledger; the two-pass mapping of a batch; what a mapped reading says |
| `Wire.dfy`, `Driver.dfy` | the log of a device task and its monitor; the device task |
| `Courses.dfy`, `DriverRuns.dfy` | what a script of arms and attempts comes to; what every run keeps |
| `PassiveGaps.dfy` | runs after which a value is not degraded, or not restored, one for each way that can happen |
| `Probe.dfy`, `Projection.dfy` | the probe tree; everything of a device is in it, in document order |
| `Nesting.dfy`, `Browse.dfy` | its pre-order; configured flags |
| `Expansion.dfy`, `Paging.dfy` | budgeted expansion, cursors |
| `Encoding.dfy`, `Collisions.dfy` | the bytes a configuration is hashed as; which bytes its texts may not hold |
| `Reload.dfy` | the live signal registry |

## How the proofs are built

**The engine against one lane.** `Shaper` keeps maps over all signals. `StepLane` says what one event does
to one signal. The class invariant says that after any history, for every signal at once, the maps hold and
the releases are what that signal's lane alone computes; the statements about runs are then inductions over
one lane. A history is a `History`, newest event outermost, so "every run" is a structural induction.

**The watchdog against a stateless ladder.** `VerdictIn` is a function of phase, held reading and age. The
invariant ties records, flags and what the fleet sees to the history.

**The device task against a monitor.** `DeviceTask` writes every link step and publish attempt to a log. The monitor
of `Wire` knows nothing of shaper, watchdog or loops; it computes from the log alone what the fleet sees and
refuses any entry the protocol forbids. Every method of `DeviceTask` proves that the log stays accepted and what
it adds. `After`, `CourseAfter` and `AccountOf` say independently what a script of arms asks for, and the loops are
proved to do exactly that; `Courses` says what these functions come to, in terms of the script alone. What each connect, each select arm, each read and each publish does is the script
(`Attempt`, `Arm`, `accepts`), so the theorems hold for every environment.

## Where the code does not keep its promise

- Passive quality. After a change of phase a value the fleet sees is degraded exactly when `DegradedExactlyWhenReached`
  says: it is watched and the wire took the verdict, or it was that bad before; between changes, exactly when
  `DegradedExactlyWhenJudged` says. Each way to fail the conditions has a run. Unwatched: `on_rebaseline` comes before
  the resume's snapshot read (`FailedResumeLeavesValuesGood`), and comes once more on the first running tick after a
  snapshot was drained while paused (`DrainedWhilePausedLeavesValuesGood`). Refused: a synthetic verdict the wire
  refuses is never attempted again in that phase (`RefusedVerdictIsNotRetried`). Delivered since the change: a value
  published while the phase is already Stale stays GOOD (`DeliveredWhileStaleStaysGood`). Likewise on the way up:
  `RestoredExactlyWhenReached` is the condition, and `RefusedRecoveryLeavesValuesBad` a value BAD on a fresh link.
- Routes. The permanent BAD of a signal missing from the model carries no route, so when the agent reports the signal
  all the same, one update can mix two routes (`UnmodelledSignalMixesRoutes`); it cannot when the model has whatever
  was reported (`ModelledReadsAreDescribed`, `DescribedSessionsKeepOneRoute`), and `MixedExactlyWhenOffRoute` is the
  exact condition over every history. The name is not part of the claim: a reading without a configured name falls back
  to the agent's.
- Configured flags. The comment at src/commands.rs:1239-1241 relies on ids, but two unnamed sibling components of one
  element name get the same one (`TwinComponentsMislead`). `ConfiguredFlagsAreRightExactlyWhen` is the exact condition
  for every device: no node with a data item beneath it has its id repeated by a later node.
- Expansion. The table of children goes by ids too, so twins make an expansion list their children under both, twice
  and out of order (`TwinsAreListedTwice`). `ExpansionsAreRightExactlyWhen` is the exact condition for every device: no
  two nodes share an id that some node names as its parent's.
- Empty `refs` should mean "leaf". A node at the cut says so although it has children, exactly when
  `CutsBeforeAChild` holds; `truncated` is set then. `CutNodeLooksLikeALeaf` is such a reply.
- Generations. No length is hashed, so control bytes inside configured texts can make two different configurations hash
  as the same bytes, and validation refuses neither. `ToldApartExactlyWhen` is the exact condition, for every alphabet:
  what validation lets through is told apart exactly when no text may hold 0x1e, which ends a bound id, or 0x1f, which
  ends the other texts. Single texts: every configuration with 0x1f in an id or a data item id, or 0x1e in a bound id,
  shares its bytes with another (`EndInIdCollides`, `EndInItemCollides`, `SeparatorInBindingCollides`); for the other
  places there is a family of collisions each (`EndInBindingCollides`, `EndInNameCollides`, `EndInChannelCollides`,
  `EndInMatcherCollides`). Without those bytes a selection block is never mistaken for signals.
- Condition events. The 60 s between two events of a data item hold within one session; the limiter starts empty in the
  next (`FirstFaultRaises`).

## Model

| member | source | states |
|---|---|---|
| `Shaping.Shaper.SetPolicies` | src/shaping.rs:162-177 | The windows left are exactly those of signals whose policy stays in force, entries are untouched, and every signal's slice and releases stay what its own lane computes for the longer history (`Valid`): nothing is lost from or added to what waits, and no update is empty. |
| `Shaping.Shaper.Offer` | src/shaping.rs:182-228 | The engine's policies, windows, anchors, counters and releases after an offer are those of the per-signal lanes; no other signal moves; what is released or still waits was waiting or is the offered reading. |
| `Shaping.Shaper.Admit` | src/shaping.rs:182-228 | The branches of an offer (no policy, deadband, zero window, quality flush, buffering) do to the maps and counters what the lane of the offered signal says and touch no other signal. |
| `Shaping.Shaper.Accept` | src/shaping.rs:196-228 | Letting a reading in under its policy notes it and then publishes it, closes its window with it, or widens the window, exactly as its lane says; the counters count which. |
| `Shaping.Shaper.FlushSignal` | src/shaping.rs:286-293 | Closing a window removes it, returns exactly its readings, and counts one published update exactly when there was one. |
| `Shaping.Shaper.NextDeadline` | src/shaping.rs:233-235 | None exactly when no window is open; otherwise a deadline some window has and none undercuts. |
| `Shaping.Shaper.Expired` | src/shaping.rs:238-266 | The windows to close, each once, ascending by deadline and then signal id whatever order the map yields them in. |
| `Shaping.Shaper.Due` | src/shaping.rs:238-250 | Releases exactly the windows whose deadline has passed, by deadline and then signal id; the others, policies and entries stay; every lane's slice and releases keep in step. |
| `Shaping.Shaper.FlushAll` | src/shaping.rs:254-264 | Releases every open window, by deadline and then signal id, and leaves none; policies and entries stay. |
| `Shaping.Shaper.CountHeld` | src/shaping.rs:269-270 | The number of readings waiting in all windows, whatever order they are counted in. |
| `Shaping.Shaper.Clear` | src/shaping.rs:269-271 | Discards every window, returns how many readings that loses, releases nothing and leaves policies, anchors and counters alone. |
| `Shaping.Shaper.Rearm` | src/shaping.rs:276-278 | Forgets every anchor; windows, policies and releases stay. |
| `Shaping.Shaper.TakeCounters` | src/shaping.rs:281-284 | Hands out what accumulated, None exactly when nothing moved; what was handed out plus what is left always equals the events of the history (`CountersOk` in `Valid`). |
| `Shaping.WindowDiscipline` | src/shaping.rs:182-293 | After every history an open window is non-empty, belongs to a signal whose current policy batches, holds only GOOD readings of that signal and one reading if latest-only; in every update only the last reading may be other than GOOD. |
| `ShapingRuns.EveryReadingIsAccountedFor` | src/shaping.rs:162-293 | For every signal and every interleaving: published + superseded + discarded + waiting readings are exactly the accepted ones, once each and in arrival order; the published ones are exactly what was released, in order; the waiting ones are the open window. |
| `ShapingRuns.NoLossNoOvertaking` | src/shaping.rs:162-293 | For an on-change signal, over any interleaving with swaps and clears: what was released followed by what waits is exactly what was accepted, less the segments that waited when a clear came; nothing is superseded; without a clear nothing is missing. |
| `ShapingRuns.OnlyThePublishedLeave` | src/shaping.rs:182-293 | Without a clear, an on-change signal's settled readings are all published; nothing else can happen to them. |
| `ShapingRuns.EntryIsTheLastAccepted` | src/shaping.rs:297-328 | The anchor is the last number, and the remembered verdict the last verdict, among the readings accepted under a policy since the last re-arm; policy swaps in between change nothing. |
| `ShapingRuns.SuppressedExactlyWhen` | src/shaping.rs:189-196 | A reading is suppressed if and only if the policy in force has a deadband, something was accepted under a policy since the last re-arm with the same quality and raw reason last, and its number v and the last accepted number w satisfy -d < v - w < d. |
| `ShapingRuns.FarReadingsPass` | src/shaping.rs:297-311 | A number at least the deadband above, or at least the deadband below, the last accepted one is never suppressed. |
| `ShapingRuns.OfferedReadingGoes` | src/shaping.rs:182-228 | Of every history: a reading let in waits, last in its window and alone in a latest-only one, exactly when it is GOOD and its policy batches; any other leaves at once in one update with whatever waited before it; a suppressed one, and one of another signal, changes nothing. |
| `ShapingRuns.SwappedTableTakesOver` | src/shaping.rs:162-177 | A new table is in force at once; what waits under an unchanged policy goes on waiting, what waits under a changed or dropped one leaves in one update, and the deadband forgets nothing. |
| `ShapingRuns.VerdictChangePasses` | src/shaping.rs:297-311 | Any change of quality or raw reason against the previously offered reading is let through while a policy is in force. |
| `ShapingRuns.QualityNeverWaits` | src/shaping.rs:182-228 | After a reading that is not GOOD, suppressed or not, its signal has no open window. |
| `ShapingRuns.NoReadingWaitsLonger` | src/shaping.rs:200-228 | With a clock that never runs back, an open window's deadline is at most one batch period after the arrival of every reading in it. |
| `ShapingRuns.DueOnePeriodAfterOpening` | src/shaping.rs:200-228 | After every history an open window is due exactly one batch period after the event that opened it, whatever came into it since. |
| `ShapingRuns.TimerReleasesExactlyWhenDue` | src/shaping.rs:238-250 | The timer releases a window if and only if its period is over, neither earlier nor later, and else changes nothing of its signal. |
| `ShapingRuns.TimerLeavesOnlyRecentReadings` | src/shaping.rs:238-250 | After the timer fires, every window left has a later deadline and every reading in it arrived less than its batch period ago. |
| `ShapingRuns.LatestOnlyUpdatesAreShort` | src/shaping.rs:205-228 | An always latest-only signal never releases an update of more than two readings, and the second one is then not GOOD. |
| `ShapingRuns.OneUpdateOneRoute` | src/shaping.rs:162-177 | When every reading of a signal offered under a policy with a component path is on its route, and nothing but bad news comes under one without, no released update mixes channels or component paths, across any number of swaps. |
| `ShapingRuns.MixedExactlyWhenOffRoute` | src/shaping.rs:162-228 | Over every history in which the GOOD readings are on their policies' routes: no released update mixes two routes if and only if no offer closed a window that held something with a reading off its policy's route. |
| `ShapingRuns.ProjectionIsEnough` | src/shaping.rs:182-264 | A signal's slice and releases depend only on its own policies, readings and the clock events. |
| `ShapingRuns.SignalsDoNotInterfere` | src/shaping.rs:182-264 | Two real engines: the updates one releases for a signal are all that an engine fed only that signal's policy and readings releases, and their slices agree. |
| `ShapingRuns.ReleaseOrderIsUnique` | src/shaping.rs:238-264 | Two releases of the same windows in (deadline, id) order are the same sequence, so the map's order cannot show. |
| `ShapingRuns.DispositionsPartitionTheOffers` | src/shaping.rs:182-228 | Every offer is exactly one of immediate, dropped, quality flush or buffered, and the counts add up to the offers. |
| `Staleness.QualityWatchdog.OnPublished` | src/staleness.rs:154-166 | Synthetic output is ignored; a delivered reading replaces what was held, clears `degraded` and is what the fleet sees, in any phase. |
| `Staleness.QualityWatchdog.Evaluate` | src/staleness.rs:177-208 | A steady phase emits nothing. After a change of phase every held signal is at the ladder's verdict, and exactly those are emitted whose held value is not BAD, into Fresh only those a verdict was announced for; each keeps the held value, name, stamps, route and extras, has no receive stamp and the marker text of its phase, and they come in signal order. |
| `Staleness.QualityWatchdog.Transition` | src/staleness.rs:183-208 | One pass over the records: exactly the signals the ladder moves are emitted and re-flagged, the others stay as they were. What an emitted reading carries is stated by `Evaluate`. |
| `Staleness.QualityWatchdog.OnRebaseline` | src/staleness.rs:214-217 | Forgets every held reading and starts the ladder at Fresh; what the fleet saw stays what it was. |
| `Staleness.TransitionReachesTheLadder` | src/staleness.rs:247-279 | For one signal after any history: whatever the flag and path, a phase change reaches the ladder's verdict, and the flag then says exactly whether a degraded verdict is on show that a recovery must undo. |
| `Staleness.LadderTakesTheWorse` | src/staleness.rs:247-279 | The verdict is exactly as bad as the worse of the held quality and the phase's floor; the held reason is overwritten only when the quality falls; Fresh restores the held verdict verbatim. |
| `Staleness.LadderSays` | src/staleness.rs:247-279 | In words: Stale makes GOOD into UNCERTAIN with MTC_STALE and the age; Expired makes anything BAD with the same; Unreachable makes it BAD with MTC_AGENT_UNREACHABLE; what is as bad already keeps its own reason; Fresh is as delivered. |
| `Staleness.PhasesExactlyWhen` | src/staleness.rs:99-119 | Which link facts make which phase, each if and only if: unreachable whatever the age, else expired strictly past the limit, else stale strictly past the window, else fresh; the reported age saturates at 64 bits. |
| `Staleness.InSignalOrder` | src/staleness.rs:183-208 | The emitted readings are those of the map, each once, strictly ascending by signal id. |
| `Conditions.ConditionLedger.Apply` | src/device.rs:1716-1752 | The ledger object becomes exactly the fold of its state and the observation. |
| `Conditions.ConditionLedger.Aggregate` | src/device.rs:1758-1766 | Reads the aggregate off the map by one pass: the worst activation, among equals the one with the greatest key; Unavailable or Normal when none stands. |
| `Conditions.ActiveExactlyWhenAsserted` | src/device.rs:1716-1752 | After any history an activation stands if and only if its last assertion came after everything that clears it (its own NORMAL, a keyless NORMAL, UNAVAILABLE), and then it says what that assertion said. |
| `Conditions.UnavailableExactlyWhenLastSaidSo` | src/device.rs:1735-1751 | A data item is unavailable if and only if its last condition observation said so, and then nothing is active. |
| `Conditions.AggregateIsAFunction` | src/device.rs:1758-1766 | Two leaders of the same ledger give the same state and native code. |
| `Conditions.CommuteExactlyWhenCompatible` | src/device.rs:1716-1752 | Two transitions commute on every ledger if and only if both clear, both say UNAVAILABLE, both say the same of one activation, or neither sweeps and they name different activations. |
| `Conditions.OrderDoesNotMatter` | src/device.rs:1716-1752 | Every permutation of a pairwise compatible batch leaves the same ledger from any starting ledger. |
| `Conditions.FirstEntryIsRead` | src/mtconnect/observations.rs:123-125 | An extra's text is that of the first entry under its key, if that is a text. |
| `Conditions.ActivationIsNamed` | src/device.rs:1693-1706 | An observation is about the activation its condition id names; without one, or with an empty one, its native code; with neither, the anonymous one. |
| `Conditions.OneObservation` | src/device.rs:1716-1752 | Activation by activation: UNAVAILABLE ends all, NORMAL ends the one it is about or all when it names none, WARNING and FAULT set the one they are about to what they say, and anything else changes nothing. |
| `Conditions.AggregateSays` | src/device.rs:1758-1766 | A FAULT when one is active, else a WARNING when one is; without either, UNAVAILABLE when the agent said so last, else NORMAL; the native code is that of the greatest key in that state. |
| `Session.MtcSession.AllowConditionEvent` | src/device.rs:1065-1074 | Allows exactly when none was allowed before or a full interval has passed on a forward clock; remembers the moment only when it allows. |
| `Session.MtcSession.FoldLedger` | src/device.rs:1311-1325 | Creates the ledger if unknown, folds the observation in, and reports whether it was known, the aggregate before and the snapshot after. |
| `Session.MtcSession.Announce` | src/device.rs:1327-1348 | An event is raised exactly when the aggregate has just become Fault and the limiter allows, with the previous state only if the data item was known. |
| `Session.MtcSession.FoldBatch` | src/device.rs:1308-1349 | First pass: each condition sample gets the aggregate of all history up to and including itself. |
| `Session.MtcSession.MapBatchAt` | src/device.rs:1308-1365 | Both passes: ledgers, events, limiter and readings are those of the whole history; every reading is mapped against what the whole batch leaves of the ledgers. What a mapped reading says is stated in `Mapping`. |
| `Session.MtcSession.MapOne` | src/device.rs:1351-1363 | One observation becomes one reading for each served signal of its data item, in served order (`Mapping.OneReadingEach`), each with the quality, reason and content that `Mapping` states. |
| `Session.MtcSession.WorstBoundCondition` | src/device.rs:1918-1927 | The worst aggregate among the bound data items that were observed; among equals the last bound. |
| `Session.MtcSession.TakeNotices` | src/device.rs:1497-1499 | Hands out every event raised since the last drain, in order; handed out plus pending are always exactly the events the history raises. |
| `Session.BindingTakesTheWorst` | src/device.rs:1844-1853 | Binding never improves a quality: the result is exactly as bad as the worst of the reading's own quality and every observed bound aggregate, and keeps its own reason when nothing is worse. Which states are how bad is stated by `Mapping.QualityExactlyWhen`. |
| `Session.LedgerIsItsHistory` | src/device.rs:1311-1325 | Over any run of batches every data item's ledger is the fold of its own condition history. |
| `Session.EventsAreSpaced` | src/device.rs:1065-1074 | Within one session, two events of one data item, over any batches and clocks, are at least 60 s apart, and in between the aggregate left Fault. |
| `Session.ManyEventsSpan` | src/device.rs:1065-1074 | Within one session, a chain of n events of one data item spans at least 60*(n-1) s. |
| `Session.FirstFaultRaises` | src/device.rs:1007-1007 | The limiter starts empty in every session, so the spacing ends with it: the first Fault of a session raises an event whatever an earlier session raised. |
| `Session.ValuePositionDoesNotMatter` | src/device.rs:1299-1307 | A value may stand anywhere in its batch: its readings, all other readings and the ledgers left behind are the same. |
| `Session.BatchOrderDoesNotMatter` | src/device.rs:1299-1307 | Every permutation of a batch whose transitions are pairwise compatible per data item leaves the same ledgers. |
| `Session.ShapingPolicies` | src/device.rs:1531-1558 | The compiled table has exactly the ids of signals with a non-trivial policy; of several such signals of one id the last wins, whatever trivial ones come after it; a deadband applies only to SAMPLE items. |
| `Session.MappedReadingsAreOnRoute` | src/device.rs:1531-1558 | For distinct served ids, every reading mapped from a batch is on the channel and component path that the table compiled from the same served signals names under its id. |
| `Session.MtcSession.constructor` | src/device.rs:1157-1169 | A session starts with no ledgers and no events, and with exactly the explicit signals the model does not describe as unbound. |
| `Session.MtcSession.ReadSignals` | src/device.rs:1429-1432 | A read answers the mapped batch and then one permanent BAD, without value and route, for each unbound signal. |
| `Session.ReadsKeepTheirRoutes` | src/device.rs:1371-1376 | Every GOOD reading a read answers is on the route its table names, and whatever is off it is the permanent BAD of an unbound signal. |
| `Session.ReadsTravel` | src/driver.rs:524-541 | So a whole read made under the table of its own generation satisfies what the device task relies on when it offers it. |
| `Session.ModelledReadsAreDescribed` | src/device.rs:1429-1432 | When the model has every data item a read observed, whatever the read answers, the permanent BADs of missing data items included, is described by the table compiled from the same served signals: what one update, one route needs. |
| `Session.UnmodelledSignalMixesRoutes` | src/device.rs:1371-1376 | One read of a served signal that the model does not describe but the agent reports, offered under its own compiled table, releases one update on two routes. |
| `Session.DeliveredIsNotSynthetic` | src/staleness.rs:238-243 | A mapped reading is taken for the watchdog's own output if and only if the agent's own extras carry the marker key. |
| `Mapping.QualityExactlyWhen` | src/device.rs:1812-1854 | A mapped reading is BAD if and only if nothing was observed or the condition itself or a bound one amounts to a fault or is unavailable; else UNCERTAIN if and only if one of them amounts to a warning; else GOOD. |
| `Mapping.WorstBoundSays` | src/device.rs:1918-1927 | The worst bound state is a fault before an unavailable item before a warning before a normal one, over the observed bound items, and of several the last bound. |
| `Mapping.ValueSays` | src/device.rs:1822-1842 | The value is the observed one; for a condition NORMAL, WARNING or FAULT as it amounts to; and none when nothing was observed or the condition is unavailable. |
| `Mapping.OwnReasonSays` | src/device.rs:1896-1909 | The literal reasons: UNAVAILABLE, MTC_CONDITION:FAULT and MTC_CONDITION:WARNING with the native code unless there is none or an empty one, MTC_OK:NORMAL for a condition and MTC_OK for a value. |
| `Mapping.BoundReasonSays` | src/device.rs:1844-1853 | When a bound condition makes the reading worse, the reason is that of the last bound item in the worst bound state, with its native code. |
| `Mapping.RestSays` | src/device.rs:1870-1892 | Id, channel and path; the name of the signal, else of the observation, else of the model; the agent's stamp as capture stamp unless empty, the arrival stamp, and never a source stamp. |
| `Mapping.ExtrasSay` | src/device.rs:1856-1868 | The number of activations for a condition; else the agent's extras, the last entry of a key; and the sequence number unless the agent's own extras take its key. |
| `Mapping.WithoutALedger` | src/device.rs:1811-1820 | Without a ledger a condition is published as the observation alone, with one activation for an alarm and none otherwise. |
| `Mapping.SnapshotsSay` | src/device.rs:1308-1349 | A condition sample is published as what its data item amounts to right after it: everything seen of the item before the batch, and the batch up to and including the sample. |
| `Mapping.OneReadingEach` | src/device.rs:1351-1363 | Served signals are mapped one after the other; with `OneSignalOneReading`, each of the observation's data item to one reading and any other to none. |
| `Mapping.BatchIsMappedInOrder` | src/device.rs:1351-1365 | A batch is mapped observation by observation, in order, and a single observation to its own readings. |
| `Mapping.MissingSay` | src/device.rs:1371-1387 | Besides the batch, every read answers for each explicit signal whose data item the model lacks, one after the other, a BAD reading of its id with the reason MTC_NO_SUCH_DATAITEM and nothing else. |
| `Mapping.RaisesExactlyWhen` | src/device.rs:1327-1348 | A condition event is raised if and only if the data item has just become a fault and every event it raised before in the session lies at least 60 seconds back. |
| `Mapping.NoticesSay` | src/device.rs:1327-1348 | The events are exactly the raised ones, in order, each with the data item, the state before if it was ever observed, native code, condition id, number of activations and stamp. |
| `Mapping.PolicySays` | src/device.rs:1531-1553 | The policy of a served signal: period and interval mode from its publish block, immediate and on change without one; a deadband on SAMPLE items only; its channel, name and the model's path as route. |
| `Wire.PauseSafety` | src/driver.rs:377-453 | In every accepted run no delivered reading is published while paused, and every delivered reading published was read after the last resume and in the current session. |
| `Wire.AlarmsAlternate` | src/driver.rs:163-257 | The device-unreachable calls alternate clear, raise, clear; a deliberate stop never raises. |
| `Wire.AttemptsAddUp` | src/driver.rs:131-206 | Attempts are exactly successes plus failures plus the one in flight; sessions open and close in turn. |
| `Wire.ReconnectsAreAnswered` | src/driver.rs:131-257 | A pending reconnect reply is never overwritten; each answer goes to the pending one with the outcome of the connect that followed; no further attempt starts before it. |
| `Wire.MonitorTracksSessions` | src/driver.rs:672-684 | The sessions the monitor counts as ended are exactly the closes in the log, each with the log up to it. |
| `Wire.OnlyInASession` | src/driver.rs:208-257 | Reads, publishes, re-baselines, closes, the all-clear and the one beginning of a deliberate stop happen only in an open session; alarms and connect attempts only outside one. |
| `Wire.MonitorTracksData` | src/driver.rs:322-569 | What the monitor keeps as handed over shaped, drained and interrupted is what the log says since the session opened. |
| `Driver.DeviceTask.HandData` | src/driver.rs:615-760 | One publish attempt of delivered data; the watchdog holds it exactly when it reached the wire. |
| `Driver.DeviceTask.PublishShaped` | src/driver.rs:615-667 | Every released update is one attempt, in order, none skipped or repeated. |
| `Driver.DeviceTask.PublishReadings` | src/driver.rs:711-760 | A snapshot's readings are attempted one by one in order, past the shaper, and the number that reached the wire is returned. |
| `Driver.DeviceTask.PublishTransitions` | src/driver.rs:711-760 | The watchdog's output is attempted one by one, in order, each attempt exactly as the wire answers it, and one attempt number is spent on each. |
| `Driver.DeviceTask.JudgeLink` | src/driver.rs:772-796 | The stamped transitions cover every held signal the fleet would otherwise see wrongly; each is the held value under the ladder's verdict, with everything but the receive stamp as delivered; into a degraded phase every held value that is not BAD is among them. |
| `Driver.DeviceTask.PublishPassive` | src/driver.rs:772-796 | Evaluates exactly when there are link facts, and spends one attempt on each verdict. Signals that are not held keep what they show; a steady phase attempts nothing; after any change of phase, into Fresh included, a held signal is shown the ladder's verdict on what is held if and only if it was before or the wire refused nothing about it; and after a change into a phase other than Fresh any shown signal is shown at least as bad as the phase makes it if and only if it was before, or it is held and not refused. |
| `Driver.DeviceTask.FlushOpenWindows` | src/driver.rs:689-699 | Everything buffered is released and handed to the wire, one attempt an update; no window is left; the phase does not change. |
| `Driver.DeviceTask.StopCleanly` | src/driver.rs:672-684 | A deliberate stop flushes, then closes once; no reading is discarded. |
| `Driver.DeviceTask.OnPause` | src/driver.rs:377-401 | Pause clears the windows once and publishes nothing; a second pause changes nothing. |
| `Driver.DeviceTask.OnResume` | src/driver.rs:402-453 | Resume forgets what is held, then publishes the snapshot read past the shaper if the read works, then re-arms the deadband; a second resume changes nothing. |
| `Driver.DeviceTask.OnReconnect` | src/driver.rs:454-459 | Windows are flushed, the session closes, and the reply is kept for the next connect. |
| `Driver.DeviceTask.OnRepoll` | src/driver.rs:460-493 | Refused while paused with no effect; otherwise every answered reading is attempted past the shaper and the reply counts those that reached the wire; a failed read is reported and loses the link. |
| `Driver.DeviceTask.LoseLink` | src/driver.rs:503-514 | Windows are flushed first, then every held value goes to the Unreachable verdict, paused or not, with the same if-and-only-if as PublishPassive relative to the log just after the flush; then the session closes. |
| `Driver.DeviceTask.OnTick` | src/driver.rs:497-550 | A tick does to shaper, paused flag, resync mark, table and phase exactly what `TickCourse` says: drained only while paused, otherwise re-armed, re-tabled, offered in order and judged last, so that a phase change leaves every held signal, what this tick published included, at the ladder's verdict. |
| `Driver.DeviceTask.OnDeadline` | src/driver.rs:555-559 | An expired window is released and published; with no open window the arm does nothing. |
| `Driver.DeviceTask.OnArm` | src/driver.rs:338-560 | Each arm of the loop takes the session exactly where `After` says, exits exactly when `Exit` says, and keeps the loop invariant; after any exit the shaper is empty. |
| `Driver.DeviceTask.RunPolling` | src/driver.rs:292-569 | Over any script of arms the session ends exactly as `ExitAfter` and `CourseAfter` say, in any case with an empty shaper, one close, and every log entry permitted. |
| `Driver.DeviceTask.ServeWhileDown` | src/driver.rs:863-914 | Control served while down ends as its first cancel, close, reconnect or elapse says: in a shutdown if and only if that is a cancel or a close, elapsed if and only if it is an elapse, in a reconnect with its reply if and only if it is that; the paused flag is that of the events, and no other entry is logged. |
| `Driver.DeviceTask.StartSession` | src/driver.rs:292-320 | A session starts with an empty shaper under the session's own table, a fresh watchdog at Fresh, the paused flag kept, the alarm cleared and the pending reply answered. |
| `Driver.DeviceTask.Serve` | src/driver.rs:208-257 | One session from connect to alarm: the alarm is raised exactly for a lost link or a reconnect, and an ended session is recorded with what its shaper was asked for. |
| `Driver.DeviceTask.Fail` | src/driver.rs:178-206 | A failed connect answers the pending reply with failure and serves control until the next attempt. |
| `Driver.DeviceTask.RunDevice` | src/driver.rs:121-257 | Over any script: the protocol permits every log entry; exactly as many connects are attempted as the script asks for, and an attempt is made whenever all before it are refused and elapse or ask to reconnect; and the sessions that ended are, in order, those the script ends, each carrying to the wire, per signal, exactly the updates its own script makes of its readings. |
| `Driver.DeviceTask.Attend` | src/driver.rs:131-257 | One connect attempt and what follows it: whether it was the last, the paused flag afterwards, the pending reply, and the session it adds to the ended ones. |
| `Driver.AllOfferedIsOffered` | src/driver.rs:535-541 | Offering a batch appends exactly its readings to what was offered and never clears. |
| `Driver.DownEndsExactlyWhen` | src/driver.rs:863-914 | How a wait ends, each way if and only if its first deciding event says so. |
| `Courses.ExitExactlyWhen` | src/driver.rs:338-560 | A session ends by the first arm that ends it (a stop, a reconnect, a failed tick, a failed repoll while not paused): closed, with the reply, or with the link lost as that arm says; it goes on without one; and whether it is then paused is what the last pause or resume said. |
| `Courses.ScriptsAreSequential` | src/driver.rs:338-560 | A script is its arms one after the other, nothing after the end counts, and one arm takes the session where that arm says. |
| `Courses.EndSays` | src/driver.rs:503-514 | Every end flushes all windows and changes nothing else of any signal; a lost link turns the phase to Unreachable if there are link facts. |
| `Courses.PauseSays` | src/driver.rs:377-401 | A pause drops what waits of every signal, once, and leaves deadbands and policies alone. |
| `Courses.ResumeSays` | src/driver.rs:402-453 | A resume makes every deadband forget, once, and starts the ladder over unless the inventory is empty. |
| `Courses.DeadlineSays` | src/driver.rs:555-559 | The batch timer releases of each signal exactly what was opened at least one batch period ago. |
| `Courses.RunningTickSays` | src/driver.rs:515-550 | A running tick first makes the deadbands forget if a snapshot was drained, then puts a new generation's table in force, and only then offers what was drained, stamped and in order; the phase is what the link facts say, without any Fresh after a snapshot. |
| `Courses.OfferedOneByOne` | src/driver.rs:535-541 | Offering a batch is offering its readings one after the other, all at one moment. |
| `Courses.OthersSay` | src/driver.rs:460-493 | A command served between ticks, and a repoll that works or is refused, change nothing of the session's course. |
| `Courses.FirstReadingsPass` | src/driver.rs:519-523 | After a snapshot was drained, the first reading of every signal in the first tick that runs passes the deadband. |
| `Courses.PausedTickSays` | src/driver.rs:515-518 | A tick while paused only remembers that a snapshot was drained. |
| `Courses.OpeningSays` | src/driver.rs:292-320 | A session opens under the table of its generation, else the configured one, with nothing waiting or remembered, on a fresh ladder, paused as the instance is. |
| `Courses.AttemptsExactlyWhen` | src/driver.rs:131-257 | Exactly which attempts of a script are made: all up to the first that is cancelled, whose wait is stopped or undecided, or whose session is stopped on purpose or not over. |
| `Courses.PausesCountWhileDown` | src/driver.rs:863-914 | Until a wait is decided, its last pause or resume says whether the instance is paused. |
| `Courses.SessionsExactlyWhen` | src/driver.rs:208-257 | An attempt adds the session it opened to the ended ones if and only if an arm of its script ends it. |
| `Courses.SessionsInOrder` | src/driver.rs:121-257 | The ended sessions of a script are those of the attempts made, in order. |
| `DriverRuns.SessionConservation` | src/driver.rs:322-569 | At any point of any session, per signal: drained = kept out by the deadband + let in; let in = published + superseded + discarded + waiting, once and in order; the published are exactly what the shaped updates on the wire carry; without a pause nothing is discarded. |
| `DriverRuns.EndedSessionsAccountForEverything` | src/driver.rs:322-569 | The same for every session of a whole run that ended: nothing waits, and every reading it drained is kept out by the deadband, published on the wire, superseded, or discarded by a pause. |
| `DriverRuns.EndedSessionsDrainTheirScript` | src/driver.rs:497-541 | What an ended session drained is exactly what the ticks of its script drained while running, in order. |
| `DriverRuns.EverythingDrainedIsOffered` | src/driver.rs:497-541 | Over any script of arms and any exit, what the shaper was offered is exactly what the ticks drained while running, in order. |
| `DriverRuns.NothingIsLostAtTheExit` | src/driver.rs:672-699 | An ended session handed every accepted reading of an on-change signal to the wire, in order and once, but for the segments its pauses discarded; without a pause, every one. |
| `DriverRuns.UpdatesHaveOneRoute` | src/driver.rs:524-541 | When every signal is described by the model, every shaped update handed to the wire has one channel and one component path. |
| `DriverRuns.DescribedSessionsKeepOneRoute` | src/driver.rs:524-541 | Over any script of arms, across any number of new tables: when each tick's readings are described by the table they were served under, every shaped update an ended session handed to the wire has one route. |
| `DriverRuns.UpdatesMixExactlyWhenOffRoute` | src/driver.rs:524-541 | Under a compiled table, the shaped updates of a signal on the wire have one route each if and only if no offer closed a window that held something with a reading off its policy's route. |
| `DriverRuns.WatchedExactlyWhenDelivered` | src/driver.rs:430-446 | A signal is watched if and only if data of it reached the wire since the session opened and since the last re-baseline, and what is held of it is the newest that did. |
| `DriverRuns.ResumeWatchesItsSnapshot` | src/driver.rs:423-453 | After a resume exactly the signals are watched whose reading in its snapshot reached the wire; none when the read failed. |
| `DriverRuns.RepliesCount` | src/driver.rs:711-760 | The count a repoll replies with is the number of its publish attempts that reach the wire. |
| `DriverRuns.FleetSeesTheLadder` | src/driver.rs:772-796 | The fleet sees of any signal the last verdict that reached the wire, so an unattempted or refused verdict changes nothing; of a watched signal that was not refused, it is exactly the delivered verdict, or the ladder's verdict of the last phase change since. |
| `DriverRuns.DegradedExactlyWhenReached` | src/staleness.rs:177-208 | After a change into a phase other than Fresh, a signal the fleet sees is seen at least as bad as the phase makes it if and only if it already was, or its data reached the wire since the last re-baseline and the wire did not refuse the verdict; unwatched signals keep what they show; a steady phase adds nothing to the log. |
| `DriverRuns.RestoredExactlyWhenReached` | src/staleness.rs:177-208 | After any change of phase the fleet sees of a watched signal exactly the ladder's verdict on its newest delivered value if and only if it already did or the wire did not refuse the verdict; into Fresh that is the verdict the value was delivered with. |
| `DriverRuns.DegradedExactlyWhenJudged` | src/staleness.rs:154-208 | At any moment a watched, unrefused signal is seen at least as bad as the phase makes it if and only if the phase changed since its last delivery or it was delivered that bad. |
| `PassiveGaps.FailedResumeLeavesValuesGood` | src/driver.rs:430-446 | Not every value the fleet sees is watched: a run in which the resume's snapshot read fails, the link goes stale, and a value stays GOOD. |
| `PassiveGaps.DrainedWhilePausedLeavesValuesGood` | src/driver.rs:519-523 | The same outcome when a snapshot drained while paused makes the first running tick forget what the resume just delivered. |
| `PassiveGaps.RefusedVerdictIsNotRetried` | src/driver.rs:772-796 | A run in which the wire refuses the one verdict a change of phase causes: the value is watched, the next silent tick attempts nothing, and the value stays GOOD. |
| `PassiveGaps.DeliveredWhileStaleStaysGood` | src/staleness.rs:154-166 | A run in which a value is delivered while the link is already stale: it is watched, refused by nobody, and stays GOOD on the further tick. |
| `PassiveGaps.RefusedRecoveryLeavesValuesBad` | src/driver.rs:772-796 | A run in which the link expires, which the fleet is told, and is heard again, which the wire refuses to tell: the value is watched and stays BAD on a fresh link. |
| `Probe.Walk` | src/mtconnect/model.rs:263-334 | The walk appends, in order, an element's own valid data items and then each child component followed by its subtree. |
| `Probe.ParentsComeFirst` | src/mtconnect/model.rs:263-334 | In the projection of any device only the root has no parent, and every other node names a component that stands before it. |
| `Projection.EverythingIsShown` | src/mtconnect/model.rs:263-334 | A node is in the projection of a device if and only if it is the root, a component of its element tree beneath the component one level up, or a data item with id and known category beneath its component, ids and paths as spelled out. |
| `Projection.PathsSay` | src/mtconnect/model.rs:263-334 | Paths are tags, each with its name in brackets if it has one, separated by slashes; component ids are paths after mtc:/component/. |
| `Projection.EverythingIsShownOnce` | src/mtconnect/model.rs:263-334 | The projection has as many nodes as the element tree has components and such data items. |
| `Projection.InDocumentOrder` | src/mtconnect/model.rs:263-334 | An element's data items come before its components, and components one after the other, each with all of its own before the next; with `ItemsInDocumentOrder` and `ComponentBeforeItsOwn` this fixes the order. |
| `Browse.ConfiguredFlags` | src/commands.rs:1242-1266 | The array after the reverse pass is exactly `FlagsFrom` of the tree. |
| `Browse.ConfiguredFlagsAreRightExactlyWhen` | src/commands.rs:1242-1266 | For every device: the reverse pass flags exactly the nodes with a bound data item at or beneath them, whatever is bound, if and only if no node with a data item beneath it has its id repeated by a later node; unique ids suffice. |
| `Browse.FlagsAreRightExactlyWhen` | src/commands.rs:1239-1266 | The same for every tree in which nodes hang beneath earlier components. |
| `Browse.DevicesAreWellNested` | src/mtconnect/model.rs:263-334 | The projection of every device is such a tree. |
| `Browse.TwinComponentsMislead` | src/commands.rs:1242-1266 | Without unique ids the closure fails: two unnamed sibling components of one element name leave the bound item's component and the device unflagged and flag the other one. |
| `Nesting.DevicesArePreOrders` | src/mtconnect/model.rs:263-334 | The projection of every device is a pre-order: a node hangs beneath the nearest earlier node with the id it names, whose subtree the node just before it still belongs to. |
| `Nesting.SubtreesAreContiguous` | src/mtconnect/model.rs:263-334 | In a pre-order a subtree is one contiguous stretch of the tree. |
| `Expansion.ChildrenByParent` | src/commands.rs:1269-1277 | The table holds, for every id some node names as parent, exactly those nodes in tree order, and no other id. |
| `Expansion.SubtreesExactlyWhenParentsAreUnique` | src/commands.rs:1282-1324 | In a pre-order every expansion may show exactly the nodes whose parents lead to the expanded node within the depth limit, each at its own level, if and only if no two nodes share an id that some node names as its parent's. |
| `Expansion.DocumentOrderExactlyWhenParentsAreUnique` | src/commands.rs:1282-1324 | In a pre-order what every expansion may show is strictly ascending in the tree, so in document order and without repeats, if and only if no two nodes share an id that some node names as its parent's. |
| `Expansion.ExpansionsAreRightExactlyWhen` | src/commands.rs:1269-1324 | For every device: its expansions are in document order, and show the subtrees, each if and only if no two nodes share an id that some node names as its parent's. |
| `Expansion.TwinsAreListedTwice` | src/commands.rs:1269-1324 | A device with two unnamed sibling components of one element name: expanding it lists the one data item under both, so twice and out of order. |
| `Expansion.RefsOf` | src/commands.rs:1282-1324 | Emits exactly the first min(N, budget) nodes of the depth-limited subtree in pre-order, leaves budget minus emitted, sets `truncated` if and only if N exceeds the budget, omits `refs` exactly at the depth limit, and passes a node with children off as a leaf if and only if the cut falls between it and its first child. |
| `Expansion.FaithfulSays` | src/commands.rs:1282-1324 | Each reference carries the flag of its node, and comes without references exactly when the node has children beyond the depth limit; those it comes with are likewise one level down. |
| `Expansion.MisreportsHere` | src/commands.rs:1296-1311 | A reference misreports if and only if it comes with none although its node has children, or one it comes with does; a deferred one never does. |
| `Expansion.Expand` | src/commands.rs:1145-1213 | A missing or empty ref is refused; any other but `root` expands the first node with exactly that id and is refused as unknown if and only if no node has it; `root` means mtc:/component/. A depth from 1 to 4 and a size from 1 to 1000 are used as given, others brought into range, 1 and 200 without; the reply lists exactly the first nodes of the subtree that fit and is truncated if and only if there are more. |
| `Expansion.CutNodeLooksLikeALeaf` | src/commands.rs:1296-1311 | A request that reaches the failing side: a device with one component holding one item, expanded two levels deep and one reference wide, is told that the component is a leaf. |
| `Paging.AcceptedExactlyWhen` | src/commands.rs:1218-1237 | A cursor is accepted if and only if it is the view, the separator, and a 64-bit number with at most a leading plus. |
| `Paging.CursorRoundTrip` | src/commands.rs:1218-1237 | A minted cursor reads back as its index under its own pair of probe digest and signal generation, and is refused as changed under any other pair. |
| `Paging.ViewsDiffer` | src/reload.rs:299-303 | View generations are equal if and only if both halves are, for digests of fixed length. |
| `Paging.PagesFollowOn` | src/commands.rs:1102-1139 | Following cursors is never refused; the entries are a prefix of the listing without gap or repetition; a cursor is held exactly while something is missing, and every page adds an entry. |
| `Paging.PageSays` | src/commands.rs:1102-1139 | A page has as many entries as asked for (1 to 1000, 200 unasked) as far as the tree goes from where it starts, each a node with its own flag, and a cursor to the next node if and only if there is one. |
| `Paging.AnswersSay` | src/commands.rs:1102-1130 | Without a cursor the first page is answered, with an accepted one the page from where it says, and any other is refused for what is wrong with it. |
| `Paging.ChangedExactlyWhen` | src/commands.rs:1218-1237 | A cursor is refused as changed if and only if what comes before its first separator is not the view. |
| `Paging.NumberExactlyWhen` | src/commands.rs:1230-1237 | Digits, with or without one plus sign, are read as their number unless it exceeds 2^64 - 1; nothing else is (`NothingElseIsANumber`). |
| `Paging.PagingYieldsTheWholeTree` | src/commands.rs:1102-1139 | Whatever the page sizes, the entries are the nodes of the tree with their own flags, in order and from the first on; the cursor is gone exactly when all are there; and as many pages as there are nodes are always enough. |
| `Encoding.EqualBytesExactlyWhenEqual` | src/reload.rs:221-288 | Two configurations whose strings avoid the bytes that end them feed the hasher the same bytes if and only if they are equal: absent and empty binding, absent and default publish, entry and list boundaries, and signals and a selection block are all told apart; an id may start like a block. |
| `Encoding.SignalReadsBack` | src/reload.rs:233-258 | A signal's bytes are self-delimiting: equal bytes come from equal signals followed by equal remainders. |
| `Encoding.SelectionReadsBack` | src/reload.rs:260-288 | Equal bytes of selection blocks come from equal selections. |
| `Encoding.SignalExample` | src/reload.rs:233-258 | One signal, byte by byte. |
| `Encoding.SelectionExample` | src/reload.rs:260-288 | One selection, byte by byte, its settings in `TailExample`. |
| `Encoding.ConfigInOrder` | src/reload.rs:221-288 | A configuration's bytes are those of its signals in order, then those of its selection. |
| `Collisions.ToldApartExactlyWhen` | src/reload.rs:221-288 | Over every alphabet: the configurations validation lets through, with texts over the alphabet, are told apart by the bytes they are hashed as if and only if the alphabet has neither the separator of bound ids nor the byte that ends texts. |
| `Collisions.EndInIdCollides` | src/reload.rs:233-236 | Every configuration with the byte that ends texts inside a signal's id, wherever it stands, shares its bytes with the different one whose id ends there; validation lets that through too, unless the shorter id is taken or the longer data item id is bound. |
| `Collisions.EndInItemCollides` | src/reload.rs:236-237 | Every configuration with that byte inside a data item id shares its bytes with the one whose id goes on to there; validation lets that through too, unless the longer id is taken or the shorter data item id is blank or bound. |
| `Collisions.SeparatorInBindingCollides` | src/reload.rs:241-249 | Every configuration with the separator byte inside a bound condition id shares its bytes with the one that binds the two parts; validation lets that through too, unless a part is the signal's own data item. |
| `Collisions.EndInBindingCollides` | src/reload.rs:241-259 | Whatever the ids, a bound id that starts with the byte that ends a binding can make one signal's bytes those of two, although it avoids the separator. |
| `Collisions.EndInNameCollides` | src/reload.rs:238-238 | For any two named signals, one signal whose name swallows the first one's and everything up to the second one's has the bytes of both. |
| `Collisions.EndInChannelCollides` | src/reload.rs:239-239 | The same for any two signals with channels. |
| `Collisions.EndInMatcherCollides` | src/reload.rs:264-271 | The same for a matcher's type, subtype, id pattern or path: a selection with one such include matcher has the bytes of one with two, and validation lets it through whenever it lets that one through. |
| `Reload.Feed` | src/reload.rs:222-288 | The loops feed the hasher exactly the bytes of the configuration. |
| `Reload.SignalRegistry.constructor` | src/reload.rs:340-362 | The registry starts with every device's configuration under its own generation. |
| `Reload.SignalRegistry.Apply` | src/reload.rs:378-398 | A candidate that does not compile changes nothing; otherwise all new generations are prepared against the old slots, exactly those are stored and reported, and no slot appears or disappears. |
| `Reload.ReloadInstallsTheCandidate` | src/reload.rs:378-398 | After a reload a named instance holds the candidate's configuration under that configuration's generation and is reported as changed if and only if it differs, unless the hash collides. |
| `Reload.ReloadKeepsTheOthers` | src/reload.rs:378-398 | Every instance the candidate does not name keeps what it held and is not reported. |

## Left out

- The HTTP client, TLS, credentials, multipart and XML parsing: input and output; what they deliver is the script of `Driver`.
- The agent runtime, its sequence and resync ladders, and selection compilation: parameters; a tick's readings, link facts, drained snapshots and generations are arbitrary, under the promises of `ArmOk`.
- Command registration, JSON shapes, status replies, metrics families, the simulator, process startup and shutdown budgets: presentation or thin orchestration.
- Writes, scoped reads and browse requests served between ticks: one arm, `OtherCommand`, that changes nothing modelled.
- Backoff delays, the attempt counter and link-state display: they change no step of the protocol; `serve_while_down` may elapse at any time.
- Operator notices other than condition events, and the paused and resumed events on the wire.
- Floating point: values and deadbands are reals, so rounding and NaN are not modelled; a deadband enters the encoding as the text it prints as.
- Instants are milliseconds as natural numbers, and batch periods are not limited to their machine width.
- SHA-256: the hash is an arbitrary function; where equal generations must mean equal bytes, a premise says so (`TellsApart`).
- The iteration order of hash maps: windows flushed by a policy swap and the signals of a transition may leave in any order; sorted outputs are proved unique instead.
- UTF-8: strings in the encoding are their bytes; elsewhere they are sequences of characters ordered by code point.
- Session.EventsAreSpaced: does not cross a reconnect, because the source's limiter does not either.
- Encoding.EqualBytesExactlyWhenEqual: asks each text to avoid the bytes that end it; which single names, channels and matcher texts with such a byte collide is not characterised, only which alphabets keep all configurations apart (`Collisions.ToldApartExactlyWhen`).
- Collisions.ToldApartExactlyWhen: of validation it leaves out that matcher patterns compile, that text is UTF-8, and white space beyond ASCII in the test for a blank data item id; none of these refuses the configurations that show the collisions.
- Nesting.DevicesArePreOrders: assumes that no component directly beneath the device is nameless, which XML rules out.
