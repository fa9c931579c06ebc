/** What the device task keeps over every run. Every statement holds of any task that satisfies its loop
    invariant, which every arm and every exit of `Driver` keeps, so of any task at any point of any run. */
module DriverRuns {
  import opened Common
  import opened Readings
  import opened Shaping
  import opened ShapingRuns
  import opened Staleness
  import opened Wire
  import opened Driver

  // ---------------------------------------------------------------------------------------------
  // Conservation
  // ---------------------------------------------------------------------------------------------

  /** The readings of one signal, in order. */
  function OfSignal(id: string, readings: seq<Reading>): seq<Reading> {
    if readings == [] then []
    else
      var last := readings[|readings| - 1];
      OfSignal(id, readings[..|readings| - 1]) + if last.signalId == id then [last] else []
  }

  lemma OfSignalSnoc(id: string, readings: seq<Reading>, last: Reading)
    ensures OfSignal(id, readings + [last]) == OfSignal(id, readings) + if last.signalId == id then [last] else []
  {
    assert (readings + [last])[..|readings|] == readings;
  }

  /** The readings of one signal the deadband kept out, in arrival order. */
  function Refused(id: string, h: Trace): seq<Reading> {
    match h
    case Start => []
    case Then(past, e) =>
      Refused(id, past)
      + if e.Offer? && e.reading.signalId == id && DispositionIn(past, e.reading) == Dropped then [e.reading] else []
  }

  /** One event more: a reading it offers is let in or kept out. */
  lemma OneEventMore(id: string, h: Trace) returns (more: seq<Reading>, in_: seq<Reading>, out: seq<Reading>)
    requires h.Then?
    ensures OfSignal(id, Offered(h)) == OfSignal(id, Offered(h.past)) + more
    ensures Accepted(id, h) == Accepted(id, h.past) + in_ && Refused(id, h) == Refused(id, h.past) + out
    ensures (in_ == more && out == []) || (in_ == [] && out == more)
  {
    more, in_, out := [], [], [];
    if h.event.Offer? {
      OfSignalSnoc(id, Offered(h.past), h.event.reading);
      if h.event.reading.signalId == id {
        more := [h.event.reading];
        if DispositionIn(h.past, h.event.reading) == Dropped {
          out := more;
        } else {
          in_ := more;
        }
      }
    }
  }

  /** Every offered reading of a signal was let in or kept out, once. */
  lemma {:induction false} LetInOrKeptOut(id: string, h: Trace)
    ensures multiset(OfSignal(id, Offered(h))) == multiset(Accepted(id, h)) + multiset(Refused(id, h))
  {
    if h.Then? {
      LetInOrKeptOut(id, h.past);
      var more, in_, out := OneEventMore(id, h);
      assert multiset(more) == multiset(in_) + multiset(out);
    }
  }

  lemma {:induction false} OnlyPausesDiscard(id: string, h: Trace)
    requires NeverCleared(h)
    ensures forall row :: row in Keep(id, h).settled ==> row.fate != Discarded
  {
    if h.Then? {
      OnlyPausesDiscard(id, h.past);
    }
  }

  /** What the wire and the device task hold of one signal is what that signal's own lane computes. */
  lemma TheWireFollowsTheLane(task: DeviceTask, id: string)
    requires task.Valid()
    ensures task.View().flow.polled == Offered(task.shaper.history)
    ensures !task.View().flow.interrupted ==> NeverCleared(task.shaper.history)
    ensures Of(id, task.View().flow.shaped) == RunLane(id, task.shaper.history).out
    ensures task.shaper.LaneOf(id) == RunLane(id, task.shaper.history).lane
  {
    assert Holds(id, task.shaper.LaneOf(id), task.shaper.history);
    assert Released(id, task.shaper.released, task.shaper.history);
    assert task.shaper.released == task.View().flow.shaped;
  }

  /** Session conservation: at any point of any session, for every signal, what the ticks drained of it is
      what the deadband kept out and what it let in; what it let in is on the books once, in arrival order,
      as published, superseded, discarded or waiting; the published are exactly what was handed to the wire
      in shaped updates, in that order; and without a pause nothing is discarded. */
  lemma SessionConservation(task: DeviceTask, id: string)
    requires task.Valid()
    ensures var flow, h := task.View().flow, task.shaper.history;
            var books := Keep(id, h);
            && multiset(OfSignal(id, flow.polled)) == multiset(Accepted(id, h)) + multiset(Refused(id, h))
            && ReadingsIn(books.settled) + books.waiting == Accepted(id, h)
            && PublishedIn(books.settled) == Flatten(Of(id, flow.shaped))
            && books.waiting == (if id in task.shaper.buffers then task.shaper.buffers[id].readings else [])
            && (!flow.interrupted ==> forall row :: row in books.settled ==> row.fate != Discarded)
  {
    var h := task.shaper.history;
    TheWireFollowsTheLane(task, id);
    LetInOrKeptOut(id, h);
    EveryReadingIsAccountedFor(id, h);
    if !task.View().flow.interrupted {
      OnlyPausesDiscard(id, h);
    }
  }

  /** What one arm drains for publication. */
  function DrainedBy(paused: bool, arm: Arm): seq<Reading> {
    if arm.Tick? && !paused && arm.outcome.Some? then Stamped(arm.outcome.value, arm.stamp) else []
  }

  /** What the ticks of a script drain for publication: nothing while paused, nothing after the exit. */
  ghost function Drained(c: Course, arms: seq<Arm>, tables: string -> Policies, staleAfter: nat): seq<Reading>
    decreases |arms|
  {
    if arms == [] then []
    else if Exit(c.paused, arms[0]) != Running then DrainedBy(c.paused, arms[0])
    else DrainedBy(c.paused, arms[0]) + Drained(After(c, arms[0], tables, staleAfter), arms[1..], tables, staleAfter)
  }

  lemma OneArmOffers(c: Course, arm: Arm, tables: string -> Policies, staleAfter: nat)
    ensures Offered(After(c, arm, tables, staleAfter).h) == Offered(c.h) + DrainedBy(c.paused, arm)
  {
    if arm.Tick? && !c.paused && arm.outcome.Some? {
      var resynced := c.resynced || arm.snapshotDrained;
      var armed := if resynced then Then(c.h, Event.ResetDeadband) else c.h;
      var swapped := if arm.generation == c.gen || arm.generation.None? then armed
                     else Then(armed, Event.SetPolicies(tables(arm.generation.value)));
      AllOfferedIsOffered(swapped, Stamped(arm.outcome.value, arm.stamp), arm.now);
    }
  }

  /** Over any script of arms, by whichever exit, what the shaper was offered is exactly what the ticks drained
      while the instance was running, in order. */
  lemma {:induction false} EverythingDrainedIsOffered(c: Course, arms: seq<Arm>, tables: string -> Policies,
                                                      staleAfter: nat)
    ensures Offered(CourseAfter(c, arms, tables, staleAfter).h) == Offered(c.h) + Drained(c, arms, tables, staleAfter)
    decreases |arms|
  {
    if arms != [] {
      var next := After(c, arms[0], tables, staleAfter);
      OneArmOffers(c, arms[0], tables, staleAfter);
      if Exit(c.paused, arms[0]) == Running {
        EverythingDrainedIsOffered(next, arms[1..], tables, staleAfter);
        InThreeParts(Offered(c.h), DrainedBy(c.paused, arms[0]), Drained(next, arms[1..], tables, staleAfter));
      }
    }
  }

  lemma InThreeParts(a: seq<Reading>, b: seq<Reading>, c: seq<Reading>)
    ensures a + b + c == a + (b + c)
  {
  }

  /** A session that ended with no window open handed every accepted reading of an on-change signal to the wire, in
      order and once, but for the segments its pauses discarded; without a pause, every one. */
  lemma NothingIsLostAtTheExit(task: DeviceTask, id: string)
    requires task.Valid() && !task.open && task.shaper.buffers == map[] && AlwaysOnChange(id, task.shaper.history)
    ensures Flatten(Of(id, task.View().flow.shaped)) == Survivors(id, task.shaper.history)
    ensures !task.View().flow.interrupted ==> Survivors(id, task.shaper.history) == Accepted(id, task.shaper.history)
  {
    TheWireFollowsTheLane(task, id);
    NoLossNoOvertaking(id, task.shaper.history);
  }

  /** Over whole runs: every ended session accounts for everything it drained. Per signal, what it drained is what the
      deadband kept out and what it let in; what it let in is settled, once and in arrival order, as published,
      superseded or discarded; the published are exactly what the session's shaped updates carried to the wire, in
      order; and without a pause nothing was discarded. */
  lemma EndedSessionsAccountForEverything(log: Log, h: Trace, id: string)
    requires Carries(log, h)
    ensures var flow, rows := Replay(log).value.flow, Keep(id, h).settled;
            && multiset(OfSignal(id, flow.polled)) == multiset(Accepted(id, h)) + multiset(Refused(id, h))
            && ReadingsIn(rows) == Accepted(id, h)
            && PublishedIn(rows) == Flatten(Of(id, flow.shaped))
            && (!flow.interrupted ==> forall row :: row in rows ==> row.fate != Discarded)
            && (AlwaysOnChange(id, h) ==> Flatten(Of(id, flow.shaped)) == Survivors(id, h))
  {
    assert CarriesOne(id, log, h);
    LetInOrKeptOut(id, h);
    EveryReadingIsAccountedFor(id, h);
    assert Keep(id, h).waiting == [];
    assert ReadingsIn(Keep(id, h).settled) + [] == ReadingsIn(Keep(id, h).settled);
    if !Replay(log).value.flow.interrupted {
      OnlyPausesDiscard(id, h);
    }
    if AlwaysOnChange(id, h) {
      NoLossNoOvertaking(id, h);
      assert Survivors(id, h) == Flatten(RunLane(id, h).out) + [];
    }
  }

  /** And what it drained is what the ticks of its script drained while running. */
  lemma EndedSessionsDrainTheirScript(log: Log, attempt: Attempt, paused: bool, tables: string -> Policies,
                                      staleAfter: nat)
    requires attempt.Connected?
    requires Carries(log, CourseAfter(Opening(attempt, paused, tables), attempt.arms, tables, staleAfter).h)
    ensures Replay(log).value.flow.polled == Drained(Opening(attempt, paused, tables), attempt.arms, tables, staleAfter)
  {
    var c := Opening(attempt, paused, tables);
    EverythingDrainedIsOffered(c, attempt.arms, tables, staleAfter);
    assert Offered(c.h) == [];
  }

  /** Under a compiled table, the shaped updates of a signal that were handed to the wire have one route each, if
      and only if no offer closed a window that held something with a reading off its policy's route. */
  lemma UpdatesMixExactlyWhenOffRoute(task: DeviceTask, id: string)
    requires task.Valid() && task.shapingGen.Some?
    ensures (forall u :: u in Of(id, task.View().flow.shaped) ==> SameRoute(u)) <==> !MixesIn(id, task.shaper.history)
  {
    TheWireFollowsTheLane(task, id);
    MixedExactlyWhenOffRoute(id, task.shaper.history);
  }

  /** When every signal is described, every shaped update handed to the wire has one route. */
  lemma UpdatesHaveOneRoute(task: DeviceTask, u: Update)
    requires task.Valid() && u in task.View().flow.shaped && AllDescribed(task.shaper.history)
    ensures SameRoute(u)
  {
    assert u in task.shaper.released;
    var id := u[0].signalId;
    OneUpdateOneRoute(id, task.shaper.history);
    InItsOwnLane(task.shaper.released, u);
    assert Released(id, task.shaper.released, task.shaper.history);
  }

  /** Every tick of a script is served under a compiled table that describes what it drained. */
  ghost predicate Describes(arms: seq<Arm>, tables: string -> Policies) {
    forall arm :: arm in arms && arm.Tick? && arm.outcome.Some? ==>
      arm.generation.Some? && DescribedUnder(arm.outcome.value, tables(arm.generation.value))
  }

  /** The policies a history leaves in force. */
  ghost predicate InForce(h: Trace, table: Policies) {
    forall id :: PolicyIs(id, h, table)
  }

  ghost predicate PolicyIs(id: string, h: Trace, table: Policies) {
    RunLane(id, h).lane.policy == Get(table, id)
  }

  lemma TableInForce(h: Trace, table: Policies)
    ensures InForce(Then(h, Event.SetPolicies(table)), table)
  {
    forall id ensures PolicyIs(id, Then(h, Event.SetPolicies(table)), table) {
    }
  }

  /** Everything but a new table leaves the policies alone. */
  lemma StillInForce(h: Trace, e: Event, table: Policies)
    requires InForce(h, table) && !e.SetPolicies?
    ensures InForce(Then(h, e), table)
  {
    forall id ensures PolicyIs(id, Then(h, e), table) {
      assert PolicyIs(id, h, table);
    }
  }

  lemma StampedIsDescribed(readings: seq<Reading>, stamp: string, table: Policies)
    requires DescribedUnder(readings, table)
    ensures DescribedUnder(Stamped(readings, stamp), table)
  {
    var s := Stamped(readings, stamp);
    forall r | r in s && r.signalId in table ensures Described(r, table[r.signalId]) {
      var i :| 0 <= i < |s| && s[i] == r;
      assert readings[i] in readings;
    }
  }

  lemma {:induction false} OfferedAsDescribed(h: Trace, readings: seq<Reading>, now: nat, table: Policies)
    requires AllDescribed(h) && InForce(h, table) && DescribedUnder(readings, table)
    ensures AllDescribed(AllOffered(h, readings, now)) && InForce(AllOffered(h, readings, now), table)
  {
    if readings != [] {
      var n := |readings| - 1;
      var before := AllOffered(h, readings[..n], now);
      OfferedAsDescribed(h, readings[..n], now, table);
      assert readings[n] in readings && PolicyIs(readings[n].signalId, before, table);
      StillInForce(before, Event.Offer(readings[n], now), table);
    }
  }

  /** A session stands under a compiled table, and all it was offered was described. */
  ghost predicate Faithful(c: Course, tables: string -> Policies) {
    c.gen.Some? && AllDescribed(c.h) && InForce(c.h, tables(c.gen.value))
  }

  lemma ServedAsDescribed(c: Course, readings: seq<Reading>, generation: string, link: Option<PassiveLink>, now: nat,
                          tables: string -> Policies, staleAfter: nat)
    requires Faithful(c, tables) && DescribedUnder(readings, tables(generation))
    ensures Faithful(Served(c, readings, Some(generation), link, now, tables, staleAfter), tables)
  {
    var table := tables(generation);
    var armed := if c.resynced then Then(c.h, Event.ResetDeadband) else c.h;
    StillInForce(c.h, Event.ResetDeadband, tables(c.gen.value));
    TableInForce(armed, table);
    var swapped := if Some(generation) == c.gen then armed else Then(armed, Event.SetPolicies(table));
    OfferedAsDescribed(swapped, readings, now, table);
  }

  lemma ArmAsDescribed(c: Course, arm: Arm, tables: string -> Policies, staleAfter: nat)
    requires Faithful(c, tables) && Describes([arm], tables)
    ensures Faithful(After(c, arm, tables, staleAfter), tables)
  {
    assert arm in [arm];
    forall e: Event | !e.SetPolicies? ensures InForce(Then(c.h, e), tables(c.gen.value)) {
      StillInForce(c.h, e, tables(c.gen.value));
    }
    if arm.Tick? && arm.outcome.Some? {
      StampedIsDescribed(arm.outcome.value, arm.stamp, tables(arm.generation.value));
      ServedAsDescribed(c.(resynced := c.resynced || arm.snapshotDrained), Stamped(arm.outcome.value, arm.stamp),
                        arm.generation.value, arm.link, arm.now, tables, staleAfter);
    }
  }

  /** Over a whole script of arms, across any number of new tables: when every tick's readings are described by the
      table they were served under, the shaper was offered nothing else. */
  lemma {:induction false} ScriptAsDescribed(c: Course, arms: seq<Arm>, tables: string -> Policies, staleAfter: nat)
    requires Faithful(c, tables) && Describes(arms, tables)
    ensures Faithful(CourseAfter(c, arms, tables, staleAfter), tables)
    decreases |arms|
  {
    if arms != [] {
      assert arms[0] in arms;
      ArmAsDescribed(c, arms[0], tables, staleAfter);
      ScriptAsDescribed(After(c, arms[0], tables, staleAfter), arms[1..], tables, staleAfter);
    }
  }

  /** So every shaped update that an ended session handed to the wire has one route, when its script's reads were
      described. */
  lemma DescribedSessionsKeepOneRoute(log: Log, attempt: Attempt, paused: bool, tables: string -> Policies,
                                      staleAfter: nat, u: Update)
    requires attempt.Connected? && attempt.generation.Some? && Describes(attempt.arms, tables)
    requires Carries(log, CourseAfter(Opening(attempt, paused, tables), attempt.arms, tables, staleAfter).h)
    requires u in Replay(log).value.flow.shaped
    ensures SameRoute(u)
  {
    var c := Opening(attempt, paused, tables);
    TableInForce(Start, tables(attempt.generation.value));
    ScriptAsDescribed(c, attempt.arms, tables, staleAfter);
    ShapedIsNonEmpty(log);
    var id, h := u[0].signalId, CourseAfter(c, attempt.arms, tables, staleAfter).h;
    assert CarriesOne(id, log, h);
    InItsOwnLane(Replay(log).value.flow.shaped, u);
    OneUpdateOneRoute(id, h);
  }

  lemma {:induction false} ShapedIsNonEmpty(log: Log)
    requires Accepts(log)
    ensures forall u :: u in Replay(log).value.flow.shaped ==> u != []
  {
    if log.Then? {
      ShapedIsNonEmpty(log.past);
    }
  }

  lemma {:induction false} InItsOwnLane(updates: seq<Update>, u: Update)
    requires u in updates && u != []
    ensures u in Of(u[0].signalId, updates)
  {
    var n := |updates| - 1;
    if u != updates[n] {
      InItsOwnLane(updates[..n], u);
    }
  }

  // ---------------------------------------------------------------------------------------------
  // Quality
  // ---------------------------------------------------------------------------------------------

  /** Whether data of a signal reached the wire since the session opened and since the last re-baseline. */
  predicate DeliveredSince(log: Log, id: string) {
    match log
    case Start => false
    case Then(_, SessionOpened) => false
    case Then(_, Rebaselined) => false
    case Then(past, Handed(readings, _, reached)) =>
      (reached && IsData(readings) && id in IdsOf(readings)) || DeliveredSince(past, id)
    case Then(past, _) => DeliveredSince(past, id)
  }

  /** The newest data of a signal that did. */
  function LastDelivered(log: Log, id: string): Option<Reading> {
    match log
    case Start => None
    case Then(_, SessionOpened) => None
    case Then(_, Rebaselined) => None
    case Then(past, Handed(readings, _, reached)) =>
      if reached && IsData(readings) && id in Delivers(map[], readings) then Some(Delivers(map[], readings)[id])
      else LastDelivered(past, id)
    case Then(past, _) => LastDelivered(past, id)
  }

  lemma {:induction false} DeliversAgree(held: map<string, Reading>, readings: seq<Reading>, id: string)
    ensures Get(Delivers(held, readings), id)
            == if id in Delivers(map[], readings) then Get(Delivers(map[], readings), id) else Get(held, id)
  {
    if readings != [] {
      DeliversAgree(held, readings[..|readings| - 1], id);
    }
  }

  lemma {:induction false} MonitorTracksDeliveries(log: Log, id: string)
    requires Accepts(log)
    ensures Get(Replay(log).value.flow.held, id) == LastDelivered(log, id)
    ensures DeliveredSince(log, id) <==> LastDelivered(log, id).Some?
  {
    if log.Then? {
      MonitorTracksDeliveries(log.past, id);
      if log.event.Handed? {
        DeliversAgree(Replay(log.past).value.flow.held, log.event.readings, id);
        WhatReadingsTouch(map[], map[], log.event.readings);
      }
    }
  }

  /** A signal is watched exactly when its data reached the wire since the last re-baseline, and what is held of it is
      the newest that did. */
  lemma WatchedExactlyWhenDelivered(task: DeviceTask, id: string)
    requires task.Valid()
    ensures id in task.watchdog.signals <==> DeliveredSince(task.log, id)
    ensures HeldAfter(id, task.watchdog.history) == LastDelivered(task.log, id)
  {
    MonitorTracksDeliveries(task.log, id);
    var w := task.watchdog;
    assert Agrees(id, Get(w.signals, id), w.wire, w.phase, w.history);
    assert Get(HeldIn(w.signals), id) == LastDelivered(task.log, id);
  }

  /** One attempt about a signal reached the wire. */
  predicate ReachedAt(readings: seq<Reading>, id: string, accepts: iset<nat>, attempt: nat, k: int) {
    0 <= k < |readings| && readings[k].signalId == id && attempt + k in accepts
  }

  lemma {:induction false} AttemptsDeliver(before: Log, after: Log, readings: seq<Reading>, n: nat, accepts: iset<nat>,
                                           attempt: nat, id: string)
    requires n <= |readings| && IsData(readings)
    requires Attempted(before, after, OneByOne(readings), n, false, accepts, attempt)
    ensures DeliveredSince(after, id)
            <==> DeliveredSince(before, id) || exists k :: k < n && ReachedAt(readings, id, accepts, attempt, k)
  {
    if n > 0 {
      var last := readings[n - 1];
      AttemptsDeliver(before, after.past, readings, n - 1, accepts, attempt, id);
      assert OneByOne(readings)[n - 1] == [last] && last in readings;
      assert last in [last] && IdsOf([last]) == {last.signalId};
      assert last.signalId == id && attempt + n - 1 in accepts <==> ReachedAt(readings, id, accepts, attempt, n - 1);
    }
  }

  /** What a resume leaves watched: exactly the signals its snapshot read and published; nothing when the read
      failed. */
  lemma ResumeWatchesItsSnapshot(before: Log, after: Log, outcome: Option<seq<Reading>>, stamp: string,
                                 accepts: iset<nat>, attempt: nat, id: string)
    requires Snapshotted(before, after, outcome, stamp, accepts, attempt)
    requires outcome.Some? ==> IsData(outcome.value)
    ensures DeliveredSince(after, id)
            <==> outcome.Some? && exists k :: ReachedAt(outcome.value, id, accepts, attempt, k)
  {
    if outcome.Some? {
      var readings := Stamped(outcome.value, stamp);
      StampedIsData(outcome.value, stamp);
      AttemptsDeliver(Then(Then(before, Entry.Rebaselined), Snapshot(readings)), after, readings, |readings|, accepts,
                      attempt, id);
      assert forall k :: ReachedAt(outcome.value, id, accepts, attempt, k)
                         <==> ReachedAt(readings, id, accepts, attempt, k);
    }
  }

  /** The wire takes the `i`-th of some attempts. */
  predicate Takes(accepts: iset<nat>, attempt: nat, i: nat) {
    attempt + i in accepts
  }

  /** The reply of a repoll counts the attempts that reach the wire. */
  lemma {:induction false} RepliesCount(accepts: iset<nat>, attempt: nat, count: nat)
    ensures Reaching(accepts, attempt, count) == |set i: nat | i < count && Takes(accepts, attempt, i)|
  {
    var reached := set i: nat | i < count && Takes(accepts, attempt, i);
    if count > 0 {
      RepliesCount(accepts, attempt, count - 1);
      var earlier := set i: nat | i < count - 1 && Takes(accepts, attempt, i);
      assert reached == earlier + if Takes(accepts, attempt, count - 1) then {count - 1} else {};
    }
  }

  /** The last verdict on a signal that reached the wire, whatever the session. */
  function Newest(log: Log, id: string): Option<Verdict> {
    match log
    case Start => None
    case Then(past, Handed(readings, _, true)) =>
      if id in Shows(map[], readings) then Some(Shows(map[], readings)[id]) else Newest(past, id)
    case Then(past, _) => Newest(past, id)
  }

  /** What the fleet sees of a signal is the last verdict on it that reached the wire, and nothing else. */
  lemma {:induction false} FleetSeesTheNewest(log: Log, id: string)
    requires Accepts(log)
    ensures Get(Replay(log).value.flow.shown, id) == Newest(log, id)
  {
    if log.Then? {
      FleetSeesTheNewest(log.past, id);
      if log.event.Handed? {
        ShowsAgree(Replay(log.past).value.flow.shown, map[], log.event.readings, id);
      }
    }
  }

  /** In this session the wire refused the newest of the watchdog's verdicts on a signal, and took nothing
      about the signal since. */
  predicate RefusedSince(log: Log, id: string) {
    match log
    case Start => false
    case Then(_, SessionOpened) => false
    case Then(past, Handed(readings, _, reached)) =>
      if id !in IdsOf(readings) || (!reached && IsData(readings)) then RefusedSince(past, id) else !reached
    case Then(past, _) => RefusedSince(past, id)
  }

  lemma {:induction false} MonitorTracksRefusals(log: Log, id: string)
    requires Accepts(log)
    ensures id in Replay(log).value.flow.lost <==> RefusedSince(log, id)
  {
    if log.Then? {
      MonitorTracksRefusals(log.past, id);
    }
  }

  /** What the fleet sees. Of any signal: the last verdict on it that reached the wire, so what is refused or not
      attempted changes nothing. Of a watched signal whose newest verdict the wire took, that is what the ladder says:
      the delivered verdict, or that of the last change of phase since. */
  lemma FleetSeesTheLadder(task: DeviceTask, id: string)
    requires task.Valid()
    ensures Get(task.View().flow.shown, id) == Newest(task.log, id)
    ensures DeliveredSince(task.log, id) && !RefusedSince(task.log, id) ==>
      && LastDelivered(task.log, id).Some?
      && Newest(task.log, id)
         == Some(Shown(LastDelivered(task.log, id).value, JudgedSince(id, task.watchdog.history)))
  {
    FleetSeesTheNewest(task.log, id);
    MonitorTracksRefusals(task.log, id);
    WatchedExactlyWhenDelivered(task, id);
    var w := task.watchdog;
    if DeliveredSince(task.log, id) && !RefusedSince(task.log, id) {
      assert Agrees(id, Get(w.signals, id), w.wire, w.phase, w.history);
      assert Matches(id, w.wire, task.View().flow);
    }
  }

  /** What a change of phase reaches: after a change into a phase other than Fresh, a signal the fleet sees is
      seen at least as bad as the phase makes it if and only if it already was, or its data reached the wire
      since the last re-baseline and the wire did not refuse the verdict. What is not watched keeps what it
      shows, and a judgement that changes nothing attempts nothing. */
  lemma DegradedExactlyWhenReached(j: Judgement, after: Log, was: PassivePhase, phase: PassivePhase,
                                   accepts: iset<nat>, id: string)
    requires JudgedFrom(j, after, was, phase, accepts)
    ensures Newest(after, id).Some? <==> Newest(j.log, id).Some?
    ensures was != phase && phase != Fresh && Newest(after, id).Some? ==>
      (Severity(Newest(after, id).value.0) >= Severity(Floor(phase))
       <==> Severity(Newest(j.log, id).value.0) >= Severity(Floor(phase))
            || (DeliveredSince(after, id) && !RefusedSince(after, id)))
    ensures !DeliveredSince(after, id) ==> Newest(after, id) == Newest(j.log, id)
    ensures was == phase ==> after == j.log
  {
    assert JudgesOne(id, Replay(j.log).value.flow, Replay(after).value.flow, was, phase, j.ageMs);
    FleetSeesTheNewest(j.log, id);
    FleetSeesTheNewest(after, id);
    MonitorTracksDeliveries(after, id);
    MonitorTracksRefusals(after, id);
  }

  /** What a change of phase restores: after any change, into Fresh included, the fleet sees of a watched signal
      exactly the ladder's verdict on the newest delivered value if and only if it already did, or the wire did not
      refuse the verdict. Into Fresh, that is the verdict the value was delivered with. */
  lemma RestoredExactlyWhenReached(j: Judgement, after: Log, was: PassivePhase, phase: PassivePhase,
                                   accepts: iset<nat>, id: string)
    requires JudgedFrom(j, after, was, phase, accepts) && was != phase && DeliveredSince(after, id)
    ensures LastDelivered(after, id).Some? && LastDelivered(j.log, id) == LastDelivered(after, id)
    ensures var held := LastDelivered(after, id).value;
            var verdict := VerdictIn(phase, held, j.ageMs);
            && (Newest(after, id) == Some(verdict)
                <==> Newest(j.log, id) == Some(verdict) || !RefusedSince(after, id))
            && (phase == Fresh ==> verdict == held.Verdict())
  {
    assert JudgesOne(id, Replay(j.log).value.flow, Replay(after).value.flow, was, phase, j.ageMs);
    FleetSeesTheNewest(j.log, id);
    FleetSeesTheNewest(after, id);
    MonitorTracksDeliveries(j.log, id);
    MonitorTracksDeliveries(after, id);
    MonitorTracksRefusals(after, id);
    LadderTakesTheWorse(phase, LastDelivered(after, id).value, j.ageMs);
  }

  /** At any moment: a watched signal whose verdict the wire took is seen at least as bad as the phase makes it
      if and only if the phase changed since its last delivery, or it was delivered that bad. */
  lemma DegradedExactlyWhenJudged(task: DeviceTask, id: string)
    requires task.Valid() && DeliveredSince(task.log, id) && !RefusedSince(task.log, id)
    ensures var w := task.watchdog;
            && LastDelivered(task.log, id).Some? && Newest(task.log, id).Some?
            && (Severity(Newest(task.log, id).value.0) >= Severity(Floor(w.phase))
                <==> JudgedSince(id, w.history).Some?
                     || Severity(LastDelivered(task.log, id).value.quality) >= Severity(Floor(w.phase)))
  {
    var w := task.watchdog;
    FleetSeesTheLadder(task, id);
    WatchedExactlyWhenDelivered(task, id);
    assert Agrees(id, Get(w.signals, id), w.wire, w.phase, w.history);
    var held, judged := HeldAfter(id, w.history).value, JudgedSince(id, w.history);
    if judged.Some? {
      LadderTakesTheWorse(w.phase, held, judged.value.1);
    }
  }
}
