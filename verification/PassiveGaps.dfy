/** Runs of the device task after which the fleet does not see what the ladder says: one run for each way to fail the
    condition of `DegradedExactlyWhenReached`, `DegradedExactlyWhenJudged` and `RestoredExactlyWhenReached`. */
module PassiveGaps {
  import opened Common
  import opened Readings
  import opened Shaping
  import opened Staleness
  import opened Wire
  import opened Driver
  import opened DriverRuns

  const OK := Some("MTC_OK")
  const ONE_VALUE := Reading("x", Some("X"), Some(Num(1.0)), Good, OK, None, Some("t0"), Some("t1"),
                             Some(map["sequence" := Num(7.0)]), Some("plant/x"), Some("Axes/Linear[X]"))
  const GENERATION := Some("g")

  const SILENT := PassiveLink(false, Some(500), 100)
  const SILENT_FOR_LONG := PassiveLink(false, Some(1500), 100)
  const HEARD_AGAIN := PassiveLink(false, Some(50), 100)

  /** The fleet saw one GOOD value of "x" last. */
  ghost predicate SeesGood(log: Log) {
    Accepts(log) && Newest(log, "x") == Some((Good, OK))
  }

  /** Nothing but "x" is watched, and the value of it that was delivered was GOOD. */
  ghost predicate WatchesOnlyX(log: Log) {
    && Accepts(log) && Replay(log).value.flow.held.Keys == {"x"}
    && Replay(log).value.flow.held["x"].Verdict() == (Good, OK)
  }

  lemma StillSeesGood(log: Log, e: Entry)
    requires SeesGood(log) && Accepts(Then(log, e)) && !e.Handed?
    ensures SeesGood(Then(log, e))
  {
  }

  /** One reading that is the one value, but for its receive stamp. */
  predicate OneValue(r: Reading) {
    r.(receivedTs := None) == ONE_VALUE.(receivedTs := None)
  }

  /** One value handed to the wire, which takes it: the fleet sees it. */
  lemma OneHandedIsShown(before: Log, r: Reading)
    requires OneValue(r) && Accepts(Then(before, Handed([r], false, true)))
    ensures var after := Then(before, Handed([r], false, true));
            && SeesGood(after) && DeliveredSince(after, "x") && !RefusedSince(after, "x")
            && (Replay(before).value.flow.held == map[] ==> WatchesOnlyX(after))
  {
    assert [r][..0] == [] && Shows(map[], [r]) == map["x" := (Good, OK)] && Delivers(map[], [r]) == map["x" := r];
    assert !IsSynthetic(r) && r in [r] && IdsOf([r]) == {"x"};
  }

  /** One published snapshot of it. */
  lemma OneValueIsShown(before: Log, after: Log, stamp: string, accepts: iset<nat>, attempt: nat)
    requires Accepts(after) && attempt in accepts
    requires var readings := Stamped([ONE_VALUE], stamp);
             Attempted(Then(before, Snapshot(readings)), after, OneByOne(readings), 1, false, accepts, attempt)
    ensures SeesGood(after) && DeliveredSince(after, "x") && !RefusedSince(after, "x")
    ensures Accepts(before) && (Replay(before).value.flow.held == map[] ==> WatchesOnlyX(after))
  {
    var readings := Stamped([ONE_VALUE], stamp);
    var read := Then(before, Snapshot(readings));
    assert OneByOne(readings)[0] == [readings[0]] && OneValue(readings[0]);
    assert Attempted(read, after.past, OneByOne(readings), 0, false, accepts, attempt);
    assert after == Then(read, Handed([readings[0]], false, true));
    OneHandedIsShown(read, readings[0]);
  }

  /** A judgement none of whose attempts reaches the wire shows the fleet nothing new. */
  lemma NothingReached(j: Judgement, after: Log, was: PassivePhase, phase: PassivePhase, accepts: iset<nat>)
    requires JudgedFrom(j, after, was, phase, accepts) && forall k :: j.first <= k ==> k !in accepts
    ensures forall id :: Newest(after, id) == Newest(j.log, id)
  {
    forall id ensures Newest(after, id) == Newest(j.log, id) {
      NothingReachedSoFar(j.log, after, j.out, |j.out|, accepts, j.first, id);
    }
  }

  lemma {:induction false} NothingReachedSoFar(before: Log, after: Log, out: seq<Reading>, n: nat,
                                               accepts: iset<nat>, attempt: nat, id: string)
    requires n <= |out| && Attempted(before, after, OneByOne(out), n, false, accepts, attempt)
    requires forall k :: attempt <= k ==> k !in accepts
    ensures Newest(after, id) == Newest(before, id)
  {
    if n > 0 {
      NothingReachedSoFar(before, after.past, out, n - 1, accepts, attempt, id);
    }
  }

  // ---------------------------------------------------------------------------------------------
  // Steps
  // ---------------------------------------------------------------------------------------------

  /** A running session, between arms. */
  ghost predicate Idling(task: DeviceTask)
    reads task, task.shaper, task.watchdog
  {
    task.Valid() && task.open && task.shapingGen == GENERATION && task.staleAfter == 1000
  }

  method Opened(accepts: iset<nat>) returns (task: DeviceTask)
    ensures fresh(task) && fresh(task.shaper) && fresh(task.watchdog)
    ensures Idling(task) && !task.paused && !task.resynced && task.watchdog.phase == Fresh
    ensures task.accepts == accepts && task.attempts == 0 && task.View().flow.held == map[]
  {
    task := new DeviceTask(accepts, _ => map[], 1000);
    task.StartSession(GENERATION, map[], None);
  }

  /** Publish a snapshot of one GOOD value. */
  method DeliverOne(task: DeviceTask)
    requires Idling(task) && !task.paused && task.attempts in task.accepts
    modifies task`log, task`attempts, task`open, task.watchdog, task.shaper
    ensures Idling(task) && SeesGood(task.log) && task.attempts == old(task.attempts) + 1
    ensures DeliveredSince(task.log, "x") && !RefusedSince(task.log, "x")
    ensures task.watchdog.phase == old(task.watchdog.phase)
    ensures old(task.View()).flow.held == map[] ==> WatchesOnlyX(task.log)
  {
    var readings := [ONE_VALUE];
    assert IsData(readings);
    var exit, reply := task.OnRepoll(Some(readings), None, "0");
    OneValueIsShown(old(task.log), task.log, "0", task.accepts, old(task.attempts));
  }

  method PauseAfterOne(task: DeviceTask)
    requires Idling(task) && !task.paused && SeesGood(task.log)
    modifies task`log, task`paused, task.shaper
    ensures Idling(task) && task.paused && SeesGood(task.log)
  {
    task.OnPause();
    StillSeesGood(old(task.log), PauseEvent);
  }

  /** Resume, but the snapshot read fails. */
  method ResumeUnread(task: DeviceTask)
    requires Idling(task) && task.paused && SeesGood(task.log)
    modifies task`log, task`paused, task`attempts, task.watchdog, task.shaper
    ensures Idling(task) && !task.paused && SeesGood(task.log)
    ensures !DeliveredSince(task.log, "x") && task.watchdog.phase == Fresh
  {
    task.OnResume(false, None, "1");
    StillSeesGood(old(task.log), ResumeEvent);
    StillSeesGood(Then(old(task.log), ResumeEvent), Entry.Rebaselined);
  }

  method DrainPaused(task: DeviceTask)
    requires Idling(task) && task.paused
    modifies task`log, task`attempts, task`open, task`resynced, task`shapingGen, task.watchdog, task.shaper
    ensures Idling(task) && task.resynced
    ensures task.log == old(task.log) && task.attempts == old(task.attempts)
  {
    var exit, j := task.OnTick(Some([]), true, GENERATION, None, "0", 0);
  }

  /** Resume, with a snapshot of one GOOD value. */
  method ResumeRead(task: DeviceTask)
    requires Idling(task) && task.paused && task.attempts in task.accepts
    modifies task`log, task`paused, task`attempts, task.watchdog, task.shaper
    ensures Idling(task) && !task.paused && SeesGood(task.log) && task.resynced == old(task.resynced)
  {
    var readings := [ONE_VALUE];
    assert IsData(readings);
    task.OnResume(false, Some(readings), "1");
    OneValueIsShown(Then(Then(old(task.log), ResumeEvent), Entry.Rebaselined), task.log, "1", task.accepts,
                    old(task.attempts));
  }

  /** A tick that drains nothing. */
  method EmptyTick(task: DeviceTask, link: PassiveLink) returns (ghost j: Judgement)
    requires Idling(task) && !task.paused
    modifies task`log, task`attempts, task`open, task`resynced, task`shapingGen, task.watchdog, task.shaper
    ensures Idling(task) && !task.paused && !task.resynced && task.watchdog.phase == PhaseOf(link, 1000)
    ensures j.log == Then(Rebased(old(task.log), old(task.resynced)), Polled([])) && j.first == old(task.attempts)
    ensures j.ageMs == AgeMs(link) && task.attempts == j.first + |j.out|
    ensures JudgedFrom(j, task.log, Since(old(task.resynced), old(task.watchdog.phase)), PhaseOf(link, 1000),
                       task.accepts)
  {
    var exit, judgement := task.OnTick(Some([]), false, GENERATION, Some(link), "2", 0);
    j := judgement;
  }

  /** The log an empty tick judges shows what the log before it showed. */
  lemma TickShowsNothing(log: Log, resynced: bool, judged: Log)
    requires judged == Then(Rebased(log, resynced), Polled([])) && Accepts(judged) && SeesGood(log)
    ensures SeesGood(judged)
    ensures !resynced ==> (DeliveredSince(judged, "x") <==> DeliveredSince(log, "x"))
    ensures !resynced ==> (RefusedSince(judged, "x") <==> RefusedSince(log, "x"))
    ensures resynced ==> !DeliveredSince(judged, "x")
  {
  }

  // ---------------------------------------------------------------------------------------------
  // Runs
  // ---------------------------------------------------------------------------------------------

  /** The agent falls silent while "x" is not watched. */
  method GoSilent(task: DeviceTask)
    requires Idling(task) && !task.paused && SeesGood(task.log)
    requires task.resynced || !DeliveredSince(task.log, "x")
    modifies task`log, task`attempts, task`open, task`resynced, task`shapingGen, task.watchdog, task.shaper
    ensures Idling(task) && SeesGood(task.log) && task.watchdog.phase == Stale && !DeliveredSince(task.log, "x")
  {
    ghost var was := Since(task.resynced, task.watchdog.phase);
    ghost var j := EmptyTick(task, SILENT);
    TickShowsNothing(old(task.log), old(task.resynced), j.log);
    MonitorTracksDeliveries(j.log, "x");
    MonitorTracksDeliveries(task.log, "x");
    DegradedExactlyWhenReached(j, task.log, was, Stale, task.accepts, "x");
  }

  /** Unwatched: a resume forgets what is held before it tries the snapshot read, so when that read fails the
      last value the fleet saw is watched no more, and stays GOOD on a stale link. */
  method FailedResumeLeavesValuesGood(accepts: iset<nat>) returns (task: DeviceTask)
    requires 0 in accepts
    ensures Idling(task) && task.watchdog.phase == Stale
    ensures SeesGood(task.log) && !DeliveredSince(task.log, "x")
  {
    task := Opened(accepts);
    DeliverOne(task);
    PauseAfterOne(task);
    ResumeUnread(task);
    GoSilent(task);
  }

  /** Unwatched: a snapshot the session drains while paused leaves its mark until the first tick that runs, which
      then forgets what the resume's own snapshot just delivered. */
  method DrainedWhilePausedLeavesValuesGood(accepts: iset<nat>) returns (task: DeviceTask)
    requires 0 in accepts
    ensures Idling(task) && task.watchdog.phase == Stale
    ensures SeesGood(task.log) && !DeliveredSince(task.log, "x")
  {
    task := Opened(accepts);
    task.OnPause();
    DrainPaused(task);
    ResumeRead(task);
    GoSilent(task);
  }

  /** Refused: the wire refuses the one verdict the change of phase causes; the value is watched, the next silent
      tick attempts nothing, and the value stays GOOD. */
  method RefusedVerdictIsNotRetried(accepts: iset<nat>) returns (task: DeviceTask, ghost before: Log)
    requires forall k :: k in accepts <==> k == 0
    ensures Idling(task) && task.watchdog.phase == Stale
    ensures SeesGood(task.log) && DeliveredSince(task.log, "x") && RefusedSince(task.log, "x")
    ensures task.log == Then(before, Polled([])) && SeesGood(before) && RefusedSince(before, "x")
  {
    task := Opened(accepts);
    DeliverOne(task);
    RefuseOnce(task);
    before := task.log;
    TickAgain(task);
  }

  method RefuseOnce(task: DeviceTask)
    requires Idling(task) && !task.paused && !task.resynced && task.watchdog.phase == Fresh
    requires SeesGood(task.log) && DeliveredSince(task.log, "x")
    requires forall k :: task.attempts <= k ==> k !in task.accepts
    modifies task`log, task`attempts, task`open, task`resynced, task`shapingGen, task.watchdog, task.shaper
    ensures Idling(task) && !task.resynced && task.watchdog.phase == Stale
    ensures SeesGood(task.log) && DeliveredSince(task.log, "x") && RefusedSince(task.log, "x")
  {
    ghost var j := EmptyTick(task, SILENT);
    TickShowsNothing(old(task.log), false, j.log);
    NothingReached(j, task.log, Fresh, Stale, task.accepts);
    MonitorTracksDeliveries(j.log, "x");
    MonitorTracksDeliveries(task.log, "x");
    DegradedExactlyWhenReached(j, task.log, Fresh, Stale, task.accepts, "x");
  }

  method TickAgain(task: DeviceTask)
    requires Idling(task) && !task.paused && !task.resynced && task.watchdog.phase == Stale && SeesGood(task.log)
    modifies task`log, task`attempts, task`open, task`resynced, task`shapingGen, task.watchdog, task.shaper
    ensures Idling(task) && task.watchdog.phase == Stale
    ensures task.log == Then(old(task.log), Polled([])) && SeesGood(task.log)
    ensures DeliveredSince(task.log, "x") <==> DeliveredSince(old(task.log), "x")
    ensures RefusedSince(task.log, "x") <==> RefusedSince(old(task.log), "x")
  {
    ghost var j := EmptyTick(task, SILENT);
    TickShowsNothing(old(task.log), false, j.log);
    DegradedExactlyWhenReached(j, task.log, Stale, Stale, task.accepts, "x");
  }

  /** Refused on the way up: the link expires, which the fleet is told, and is heard again, which the wire refuses to
      tell; the value stays BAD on a fresh link. */
  method RefusedRecoveryLeavesValuesBad(accepts: iset<nat>) returns (task: DeviceTask)
    requires forall k :: k in accepts <==> k < 2
    ensures Idling(task) && task.watchdog.phase == Fresh
    ensures SeesExpired(task.log) && DeliveredSince(task.log, "x") && RefusedSince(task.log, "x")
  {
    task := Opened(accepts);
    DeliverOne(task);
    ExpireOnce(task);
    RecoverUnheard(task);
  }

  /** The fleet was told last that "x" expired. */
  ghost predicate SeesExpired(log: Log) {
    Accepts(log) && Newest(log, "x") == Some((Bad, Some(StaleRaw(1500))))
  }

  lemma AtMostOne(out: seq<Reading>)
    requires forall i :: 0 <= i < |out| ==> out[i].signalId == "x"
    requires forall a, b :: 0 <= a < b < |out| ==> out[a].signalId != out[b].signalId
    ensures |out| <= 1
  {
    if |out| > 1 {
      NotBoth(out);
      assert false;
    }
  }

  lemma NotBoth(out: seq<Reading>)
    requires |out| > 1 && forall a, b :: 0 <= a < b < |out| ==> out[a].signalId != out[b].signalId
    ensures out[0].signalId != "x" || out[1].signalId != "x"
  {
  }

  /** A judgement about one signal attempts at most one verdict. */
  lemma OneSignalOneVerdict(j: Judgement, after: Log, was: PassivePhase, phase: PassivePhase, accepts: iset<nat>)
    requires JudgedFrom(j, after, was, phase, accepts) && WatchesOnlyX(j.log)
    ensures |j.out| <= 1 && WatchesOnlyX(after)
    ensures j.out == [] ==> after == j.log
    ensures |j.out| == 1 ==>
      after == Then(j.log, Handed([j.out[0]], false, j.first in accepts)) && j.out[0].signalId == "x"
  {
    forall i | 0 <= i < |j.out| ensures j.out[i].signalId == "x" {
      assert j.out[i] in j.out && j.out[i].signalId in IdsOf(j.out);
    }
    AtMostOne(j.out);
    if j.out != [] {
      assert OneByOne(j.out)[0] == [j.out[0]];
      assert Attempted(j.log, after.past, OneByOne(j.out), 0, false, accepts, j.first);
    }
  }

  method ExpireOnce(task: DeviceTask)
    requires Idling(task) && !task.paused && !task.resynced && task.watchdog.phase == Fresh
    requires SeesGood(task.log) && WatchesOnlyX(task.log) && !RefusedSince(task.log, "x")
    requires task.attempts == 1 && forall k :: k in task.accepts <==> k < 2
    modifies task`log, task`attempts, task`open, task`resynced, task`shapingGen, task.watchdog, task.shaper
    ensures Idling(task) && !task.paused && !task.resynced && task.watchdog.phase == Expired && task.attempts == 2
    ensures SeesExpired(task.log) && WatchesOnlyX(task.log)
  {
    ghost var j := EmptyTick(task, SILENT_FOR_LONG);
    TickShowsNothing(old(task.log), false, j.log);
    ExpiryIsSeen(j, task.log, task.accepts);
  }

  lemma ExpiryIsSeen(j: Judgement, after: Log, accepts: iset<nat>)
    requires JudgedFrom(j, after, Fresh, Expired, accepts) && j.first == 1 && j.ageMs == 1500 && 1 in accepts
    requires SeesGood(j.log) && WatchesOnlyX(j.log) && !RefusedSince(j.log, "x")
    ensures |j.out| == 1 && SeesExpired(after) && WatchesOnlyX(after)
  {
    OneSignalOneVerdict(j, after, Fresh, Expired, accepts);
    MonitorTracksDeliveries(after, "x");
    RestoredExactlyWhenReached(j, after, Fresh, Expired, accepts, "x");
  }

  method RecoverUnheard(task: DeviceTask)
    requires Idling(task) && !task.paused && !task.resynced && task.watchdog.phase == Expired
    requires SeesExpired(task.log) && WatchesOnlyX(task.log)
    requires forall k :: task.attempts <= k ==> k !in task.accepts
    modifies task`log, task`attempts, task`open, task`resynced, task`shapingGen, task.watchdog, task.shaper
    ensures Idling(task) && task.watchdog.phase == Fresh
    ensures SeesExpired(task.log) && DeliveredSince(task.log, "x") && RefusedSince(task.log, "x")
  {
    ghost var j := EmptyTick(task, HEARD_AGAIN);
    TickShowsTheSame(old(task.log), j.log);
    RecoveryIsRefused(j, task.log, task.accepts);
  }

  lemma TickShowsTheSame(log: Log, judged: Log)
    requires judged == Then(log, Polled([])) && Accepts(judged) && SeesExpired(log) && WatchesOnlyX(log)
    ensures SeesExpired(judged) && WatchesOnlyX(judged)
  {
  }

  lemma RecoveryIsRefused(j: Judgement, after: Log, accepts: iset<nat>)
    requires JudgedFrom(j, after, Expired, Fresh, accepts) && forall k :: j.first <= k ==> k !in accepts
    requires SeesExpired(j.log) && WatchesOnlyX(j.log)
    ensures SeesExpired(after) && DeliveredSince(after, "x") && RefusedSince(after, "x")
  {
    NothingReached(j, after, Expired, Fresh, accepts);
    OneSignalOneVerdict(j, after, Expired, Fresh, accepts);
    MonitorTracksDeliveries(after, "x");
    RestoredExactlyWhenReached(j, after, Expired, Fresh, accepts, "x");
  }

  /** Delivered since the change: a value delivered while the link is already stale is watched, refused by
      nobody, and stays GOOD on every further tick of the same phase. */
  method DeliveredWhileStaleStaysGood(accepts: iset<nat>) returns (task: DeviceTask)
    requires forall k :: k in accepts
    ensures Idling(task) && task.watchdog.phase == Stale
    ensures SeesGood(task.log) && DeliveredSince(task.log, "x") && !RefusedSince(task.log, "x")
  {
    task := Opened(accepts);
    ghost var j := EmptyTick(task, SILENT);
    ghost var next: nat := task.attempts;
    assert next in accepts;
    DeliverOne(task);
    TickAgain(task);
  }
}
