/** What a script comes to (src/driver.rs), arm by arm and attempt by attempt: when a session ends and how, what
    each arm makes of every signal's window, deadband and policy, and which connect attempts are made. */
module Courses {
  import opened Common
  import opened Readings
  import opened Shaping
  import opened ShapingRuns
  import opened Staleness
  import opened Wire
  import opened Driver

  // ---------------------------------------------------------------------------------------------
  // How a session ends
  // ---------------------------------------------------------------------------------------------

  /** Whether the instance is paused before the `k`-th arm: what the last pause or resume said. */
  predicate PausedBefore(paused: bool, arms: seq<Arm>, k: nat)
    requires k <= |arms|
  {
    if k == 0 then paused
    else if arms[k - 1].Pause? then true
    else if arms[k - 1].Resume? then false
    else PausedBefore(paused, arms, k - 1)
  }

  /** The arms that end a session: a stop, a reconnect, a tick whose read fails, and, unless paused, a repoll whose read
      fails. */
  predicate Ends(paused: bool, arm: Arm) {
    || arm.Cancel? || arm.ControlClosed? || arm.Reconnect?
    || (arm.Tick? && arm.outcome.None?) || (arm.Repoll? && arm.outcome.None? && !paused)
  }

  /** The `k`-th arm is the first that ends the session. */
  predicate FirstEnd(paused: bool, arms: seq<Arm>, k: int) {
    && 0 <= k < |arms| && Ends(PausedBefore(paused, arms, k), arms[k])
    && forall j :: 0 <= j < k ==> !Ends(PausedBefore(paused, arms, j), arms[j])
  }

  lemma {:induction false} OneArmLater(paused: bool, arms: seq<Arm>, k: nat)
    requires k < |arms|
    ensures PausedBefore(paused, arms, k + 1) == PausedBefore(PausedBefore(paused, arms, 1), arms[1..], k)
  {
    if k > 0 {
      OneArmLater(paused, arms, k - 1);
    }
  }

  lemma FirstEndLater(paused: bool, arms: seq<Arm>, k: int)
    requires arms != [] && !Ends(paused, arms[0])
    ensures FirstEnd(paused, arms, k) <==> k > 0 && FirstEnd(PausedBefore(paused, arms, 1), arms[1..], k - 1)
  {
    var next := PausedBefore(paused, arms, 1);
    forall j: nat | j < |arms| - 1
      ensures Ends(PausedBefore(paused, arms, j + 1), arms[j + 1])
              <==> Ends(PausedBefore(next, arms[1..], j), arms[1..][j])
    {
      OneArmLater(paused, arms, j);
    }
    if k > 0 && FirstEnd(next, arms[1..], k - 1) {
      forall j | 0 <= j < k ensures !Ends(PausedBefore(paused, arms, j), arms[j]) {
        if j > 0 {
          assert !Ends(PausedBefore(next, arms[1..], j - 1), arms[1..][j - 1]);
        }
      }
    }
    if FirstEnd(paused, arms, k) {
      assert k != 0;
      forall j | 0 <= j < k - 1 ensures !Ends(PausedBefore(next, arms[1..], j), arms[1..][j]) {
        assert !Ends(PausedBefore(paused, arms, j + 1), arms[j + 1]);
      }
    }
  }

  lemma OneArm(c: Course, arm: Arm, tables: string -> Policies, staleAfter: nat)
    ensures Exit(c.paused, arm) != Running <==> Ends(c.paused, arm)
    ensures After(c, arm, tables, staleAfter).paused == PausedBefore(c.paused, [arm], 1)
  {
    assert PausedBefore(c.paused, [arm], 0) == c.paused;
  }

  lemma FirstArm(paused: bool, arms: seq<Arm>)
    requires arms != []
    ensures PausedBefore(paused, arms, 1) == PausedBefore(paused, [arms[0]], 1)
  {
    assert PausedBefore(paused, arms, 0) == PausedBefore(paused, [arms[0]], 0);
  }

  /** How a session ends: by the first arm that ends it, on purpose for a stop, with the reply kept for a reconnect,
      and with the link lost for a failed read; it goes on as long as there is none. Whether it is then paused is
      what the last pause or resume before said. */
  lemma {:induction false} ExitExactlyWhen(c: Course, arms: seq<Arm>, tables: string -> Policies, staleAfter: nat)
    ensures (forall k :: !FirstEnd(c.paused, arms, k)) ==>
              && ExitAfter(c, arms, tables, staleAfter) == Running
              && CourseAfter(c, arms, tables, staleAfter).paused == PausedBefore(c.paused, arms, |arms|)
    ensures forall k :: FirstEnd(c.paused, arms, k) ==>
              && ExitAfter(c, arms, tables, staleAfter)
                 == (if arms[k].Cancel? || arms[k].ControlClosed? then Closed
                     else if arms[k].Reconnect? then ReconnectExit(arms[k].reply) else LinkLost)
              && CourseAfter(c, arms, tables, staleAfter).paused == PausedBefore(c.paused, arms, k)
    decreases |arms|
  {
    if arms != [] {
      OneArm(c, arms[0], tables, staleAfter);
      FirstArm(c.paused, arms);
      if Ends(c.paused, arms[0]) {
        assert FirstEnd(c.paused, arms, 0);
        assert forall k :: FirstEnd(c.paused, arms, k) ==> k == 0;
      } else {
        var next := After(c, arms[0], tables, staleAfter);
        ExitExactlyWhen(next, arms[1..], tables, staleAfter);
        forall k ensures FirstEnd(c.paused, arms, k) <==> k > 0 && FirstEnd(next.paused, arms[1..], k - 1) {
          FirstEndLater(c.paused, arms, k);
        }
        assert forall k :: FirstEnd(next.paused, arms[1..], k) ==> FirstEnd(c.paused, arms, k + 1);
        OneArmLater(c.paused, arms, |arms| - 1);
        forall k | FirstEnd(c.paused, arms, k)
          ensures PausedBefore(c.paused, arms, k) == PausedBefore(next.paused, arms[1..], k - 1)
        {
          OneArmLater(c.paused, arms, k - 1);
        }
      }
    }
  }

  /** A script is its arms one after the other: a session that is not over after a first part goes on with the rest, and
      one arm takes it where that arm says. */
  lemma {:induction false} ScriptsAreSequential(c: Course, a: seq<Arm>, b: seq<Arm>, tables: string -> Policies,
                                                staleAfter: nat)
    ensures var mid := CourseAfter(c, a, tables, staleAfter);
            if ExitAfter(c, a, tables, staleAfter) == Running then
              && CourseAfter(c, a + b, tables, staleAfter) == CourseAfter(mid, b, tables, staleAfter)
              && ExitAfter(c, a + b, tables, staleAfter) == ExitAfter(mid, b, tables, staleAfter)
            else
              && CourseAfter(c, a + b, tables, staleAfter) == mid
              && ExitAfter(c, a + b, tables, staleAfter) == ExitAfter(c, a, tables, staleAfter)
    ensures |a| == 1 ==> CourseAfter(c, a, tables, staleAfter) == After(c, a[0], tables, staleAfter)
    decreases |a|
  {
    if a == [] {
      assert a + b == b;
    } else {
      assert (a + b)[0] == a[0] && (a + b)[1..] == a[1..] + b;
      ScriptsAreSequential(After(c, a[0], tables, staleAfter), a[1..], b, tables, staleAfter);
    }
  }

  // ---------------------------------------------------------------------------------------------
  // What one arm makes of every signal
  // ---------------------------------------------------------------------------------------------

  /** Of this signal, everything that waits is released, and nothing else changes. */
  ghost predicate Released(id: string, before: Trace, after: Trace) {
    var b, a := RunLane(id, before), RunLane(id, after);
    && a.lane == b.lane.(buffer := None)
    && a.out == b.out + if b.lane.buffer.Some? then [Pending(b.lane)] else []
  }

  /** Every end flushes all windows. A lost link turns the phase to Unreachable, if there are link facts; the others
      leave it. */
  lemma EndSays(c: Course, arm: Arm, tables: string -> Policies, staleAfter: nat, id: string)
    requires Ends(c.paused, arm)
    ensures var after := After(c, arm, tables, staleAfter);
            && Released(id, c.h, after.h)
            && after.gen == c.gen && after.paused == c.paused
            && after.phase == if (arm.Tick? || arm.Repoll?) && arm.link.Some? then Unreachable else c.phase
  {
  }

  /** A pause drops what waits, once, and leaves the deadband and the policies alone. */
  lemma PauseSays(c: Course, tables: string -> Policies, staleAfter: nat, id: string)
    ensures var after := After(c, Pause, tables, staleAfter);
            && after.paused && after.phase == c.phase && after.resynced == c.resynced && after.gen == c.gen
            && (c.paused ==> after == c)
            && (!c.paused ==>
                  RunLane(id, after.h) == LaneRun(RunLane(id, c.h).lane.(buffer := None), RunLane(id, c.h).out))
  {
  }

  /** A resume makes the deadband forget, once, and leaves windows and policies alone; unless the inventory is
      empty, the ladder starts over. */
  lemma ResumeSays(c: Course, arm: Arm, tables: string -> Policies, staleAfter: nat, id: string)
    requires arm.Resume?
    ensures var after := After(c, arm, tables, staleAfter);
            && !after.paused && after.resynced == c.resynced && after.gen == c.gen
            && (!c.paused ==> after == c)
            && (c.paused ==>
                  && RunLane(id, after.h) == LaneRun(RunLane(id, c.h).lane.(entry := None), RunLane(id, c.h).out)
                  && AcceptedSinceRearm(id, after.h) == []
                  && after.phase == if arm.emptyInventory then c.phase else Fresh)
  {
  }

  /** The batch timer releases of each signal what is one batch period old, and nothing else happens. */
  lemma DeadlineSays(c: Course, now: nat, tables: string -> Policies, staleAfter: nat, id: string)
    ensures var after := After(c, Deadline(now), tables, staleAfter);
            && after == c.(h := after.h)
            && var l := RunLane(id, c.h).lane;
               if l.buffer.Some? && OpenedAt(id, c.h).Some? && l.policy.Some?
                  && OpenedAt(id, c.h).value + l.policy.value.batchMs <= now
               then Released(id, c.h, after.h)
               else RunLane(id, after.h) == RunLane(id, c.h)
  {
    if RunLane(id, c.h).lane.buffer.Some? {
      TimerReleasesExactlyWhenDue(id, c.h, now);
      assert AnyWindow(c.h);
    }
  }

  /** A command served between ticks, and a repoll that works or is refused, change nothing. */
  lemma OthersSay(c: Course, arm: Arm, tables: string -> Policies, staleAfter: nat)
    requires arm.OtherCommand? || (arm.Repoll? && !Ends(c.paused, arm))
    ensures After(c, arm, tables, staleAfter) == c
  {
  }

  /** A tick while paused only remembers that a snapshot was drained. */
  lemma PausedTickSays(c: Course, arm: Arm, tables: string -> Policies, staleAfter: nat)
    requires arm.Tick? && arm.outcome.Some? && c.paused
    ensures After(c, arm, tables, staleAfter) == c.(resynced := c.resynced || arm.snapshotDrained)
  {
  }

  /** Where a signal stands before the offers of a running tick: a drained snapshot made the deadband forget, and a new
      generation brought its table. */
  ghost predicate ReadyToOffer(id: string, before: Trace, ready: Trace, forgets: bool, table: Option<Policies>) {
    var b, r := RunLane(id, before), RunLane(id, ready);
    && r.lane.entry == (if forgets then None else b.lane.entry)
    && r.lane.policy == (if table.Some? then Get(table.value, id) else b.lane.policy)
    && if r.lane.policy == b.lane.policy then r.lane.buffer == b.lane.buffer && r.out == b.out
       else r.lane.buffer.None? && r.out == b.out + if b.lane.buffer.Some? then [Pending(b.lane)] else []
  }

  /** The table of a generation that is new to the session. */
  function NewTable(c: Course, arm: Arm, tables: string -> Policies): Option<Policies>
    requires arm.Tick?
  {
    if arm.generation.Some? && arm.generation != c.gen then Some(tables(arm.generation.value)) else None
  }

  /** A running tick: first the deadband forgets, if a snapshot was drained since it was last asked about; then the
      table of a new generation takes over; and only then is what was drained offered, with the receive stamp, in
      order and at the tick's moment. The phase is then what the link facts say; without any, Fresh after a
      snapshot. */
  lemma RunningTickSays(c: Course, arm: Arm, tables: string -> Policies, staleAfter: nat) returns (ready: Trace)
    requires arm.Tick? && arm.outcome.Some? && !c.paused
    ensures var after, forgets := After(c, arm, tables, staleAfter), c.resynced || arm.snapshotDrained;
            var table := NewTable(c, arm, tables);
            && (forall id :: ReadyToOffer(id, c.h, ready, forgets, table))
            && after.h == AllOffered(ready, Stamped(arm.outcome.value, arm.stamp), arm.now)
            && !after.paused && !after.resynced && after.gen == arm.generation
            && after.phase == if arm.link.Some? then PhaseOf(arm.link.value, staleAfter)
                              else if forgets then Fresh else c.phase
  {
    var armed := if c.resynced || arm.snapshotDrained then Then(c.h, Event.ResetDeadband) else c.h;
    ready := if arm.generation == c.gen || arm.generation.None? then armed
             else Then(armed, Event.SetPolicies(tables(arm.generation.value)));
    var forgets, table := c.resynced || arm.snapshotDrained, NewTable(c, arm, tables);
    forall id ensures ReadyToOffer(id, c.h, ready, forgets, table) {
      assert RunLane(id, armed) == LaneRun(RunLane(id, armed).lane, RunLane(id, c.h).out);
      if arm.generation.Some? && arm.generation != c.gen {
        SwappedTableTakesOver(id, armed, tables(arm.generation.value));
      }
    }
  }

  /** Offering a batch is offering its readings one after the other, all at one moment. */
  lemma OfferedOneByOne(h: Trace, readings: seq<Reading>, last: Reading, now: nat)
    ensures AllOffered(h, [], now) == h
    ensures AllOffered(h, readings + [last], now) == Then(AllOffered(h, readings, now), Event.Offer(last, now))
  {
    assert (readings + [last])[..|readings|] == readings;
  }

  lemma {:induction false} OthersOffered(id: string, h: Trace, readings: seq<Reading>, now: nat)
    requires forall r :: r in readings ==> r.signalId != id
    ensures RunLane(id, AllOffered(h, readings, now)) == RunLane(id, h)
  {
    if readings != [] {
      var n := |readings| - 1;
      OthersOffered(id, h, readings[..n], now);
      assert readings[n] in readings;
      OfferedReadingGoes(AllOffered(h, readings[..n], now), readings[n], now);
    }
  }

  /** After a snapshot was drained, the first reading of every signal passes the deadband in the first tick that
      runs. */
  lemma FirstReadingsPass(c: Course, arm: Arm, tables: string -> Policies, staleAfter: nat, k: nat)
    returns (before: Trace)
    requires arm.Tick? && arm.outcome.Some? && !c.paused && (c.resynced || arm.snapshotDrained)
    requires k < |arm.outcome.value|
    requires forall j :: 0 <= j < k ==> arm.outcome.value[j].signalId != arm.outcome.value[k].signalId
    ensures var readings := Stamped(arm.outcome.value, arm.stamp);
            var offered := Then(before, Event.Offer(readings[k], arm.now));
            && (offered == After(c, arm, tables, staleAfter).h || Earlier(offered, After(c, arm, tables, staleAfter).h))
            && DispositionIn(before, readings[k]) != Dropped
  {
    var readings := Stamped(arm.outcome.value, arm.stamp);
    var ready := RunningTickSays(c, arm, tables, staleAfter);
    before := AllOffered(ready, readings[..k], arm.now);
    var id := readings[k].signalId;
    OthersOffered(id, ready, readings[..k], arm.now);
    var table := NewTable(c, arm, tables);
    assert ReadyToOffer(id, c.h, ready, true, table);
    OfferedOnTheWay(ready, readings, arm.now, k);
  }

  lemma {:induction false} OfferedOnTheWay(h: Trace, readings: seq<Reading>, now: nat, k: nat)
    requires k < |readings|
    ensures var offered := Then(AllOffered(h, readings[..k], now), Event.Offer(readings[k], now));
            offered == AllOffered(h, readings, now) || Earlier(offered, AllOffered(h, readings, now))
  {
    var n := |readings| - 1;
    if k < n {
      OfferedOnTheWay(h, readings[..n], now, k);
      assert readings[..n][..k] == readings[..k];
    }
  }

  /** A session opens under the table of its generation, or the configured one, with nothing waiting, nothing
      remembered and nothing released, on a fresh ladder, paused as the instance is. */
  lemma OpeningSays(attempt: Attempt, paused: bool, tables: string -> Policies, id: string)
    requires attempt.Connected?
    ensures var c := Opening(attempt, paused, tables);
            var table := if attempt.generation.Some? then tables(attempt.generation.value) else attempt.configured;
            && RunLane(id, c.h) == LaneRun(Lane(Get(table, id), None, None), [])
            && c.paused == paused && !c.resynced && c.gen == attempt.generation && c.phase == Fresh
  {
  }

  // ---------------------------------------------------------------------------------------------
  // Which attempts are made
  // ---------------------------------------------------------------------------------------------

  /** Whether the instance is paused before the `k`-th event of a wait. */
  predicate PausedAmid(paused: bool, events: seq<DownEvent>, k: nat)
    requires k <= |events|
  {
    if k == 0 then paused
    else if events[k - 1].DownPause? then true
    else if events[k - 1].DownResume? then false
    else PausedAmid(paused, events, k - 1)
  }

  lemma {:induction false} OneEventLater(paused: bool, events: seq<DownEvent>, k: nat)
    requires k < |events|
    ensures PausedAmid(paused, events, k + 1) == PausedAmid(PausedAmid(paused, events, 1), events[1..], k)
  {
    if k > 0 {
      OneEventLater(paused, events, k - 1);
    }
  }

  /** A pause and a resume count while the link is down, too: until the wait is decided the last one says. */
  lemma {:induction false} PausesCountWhileDown(events: seq<DownEvent>, paused: bool)
    ensures (forall k :: !FirstDecision(events, k)) ==>
              DownPaused(events, paused) == PausedAmid(paused, events, |events|)
    ensures forall k :: FirstDecision(events, k) ==> DownPaused(events, paused) == PausedAmid(paused, events, k)
    decreases |events|
  {
    if events != [] {
      if Decides(events[0]) {
        assert FirstDecision(events, 0);
        assert forall k :: FirstDecision(events, k) ==> k == 0;
      } else {
        var next := PausedAmid(paused, events, 1);
        assert PausedAmid(paused, events, 0) == paused;
        PausesCountWhileDown(events[1..], next);
        forall k ensures FirstDecision(events, k) <==> k > 0 && FirstDecision(events[1..], k - 1) {
          FirstDecisionLater(events, k);
        }
        assert forall k :: FirstDecision(events[1..], k) ==> FirstDecision(events, k + 1);
        OneEventLater(paused, events, |events| - 1);
        forall k | FirstDecision(events, k)
          ensures PausedAmid(paused, events, k) == PausedAmid(next, events[1..], k - 1)
        {
          OneEventLater(paused, events, k - 1);
        }
      }
    }
  }

  /** The attempts after which the device task stops: one cancelled while connecting; a refused one whose wait is
      stopped, or not decided; and a session stopped on purpose, or not over. */
  ghost predicate GivesUp(attempt: Attempt, paused: bool) {
    match attempt
    case CancelledConnecting => true
    case Refused(down) => forall k :: FirstDecision(down, k) ==> down[k].DownCancel? || down[k].DownClosed?
    case Connected(_, _, arms) =>
      forall k :: FirstEnd(paused, arms, k) ==> arms[k].Cancel? || arms[k].ControlClosed?
  }

  lemma StopsExactlyWhen(attempt: Attempt, paused: bool, tables: string -> Policies, staleAfter: nat)
    ensures Stops(attempt, paused, tables, staleAfter) <==> GivesUp(attempt, paused)
  {
    match attempt
    case CancelledConnecting =>
    case Refused(down) => DownEndsExactlyWhen(down);
    case Connected(_, _, arms) =>
      ExitExactlyWhen(Opening(attempt, paused, tables), arms, tables, staleAfter);
  }

  /** The first arm that ends a session, or the number of its arms. */
  function EndOf(paused: bool, arms: seq<Arm>, n: nat): (k: nat)
    requires n <= |arms|
    ensures k <= n && (k < n ==> Ends(PausedBefore(paused, arms, k), arms[k]))
    ensures forall j :: 0 <= j < k ==> !Ends(PausedBefore(paused, arms, j), arms[j])
  {
    if n == 0 then 0
    else
      var k := EndOf(paused, arms, n - 1);
      if k < n - 1 then k
      else if Ends(PausedBefore(paused, arms, n - 1), arms[n - 1]) then n - 1 else n
  }

  /** The first event that decides a wait, or the number of its events. */
  function DecisionOf(events: seq<DownEvent>, n: nat): (k: nat)
    requires n <= |events|
    ensures k <= n && (k < n ==> Decides(events[k])) && forall j :: 0 <= j < k ==> !Decides(events[j])
  {
    if n == 0 then 0
    else
      var k := DecisionOf(events, n - 1);
      if k < n - 1 then k else if Decides(events[n - 1]) then n - 1 else n
  }

  /** Whether the instance is paused after an attempt. */
  predicate PausedOver(attempt: Attempt, paused: bool) {
    match attempt
    case CancelledConnecting => paused
    case Refused(down) => PausedAmid(paused, down, DecisionOf(down, |down|))
    case Connected(_, _, arms) => PausedBefore(paused, arms, EndOf(paused, arms, |arms|))
  }

  lemma PausedAfterSays(attempt: Attempt, paused: bool, tables: string -> Policies, staleAfter: nat)
    ensures PausedAfter(attempt, paused, tables, staleAfter) == PausedOver(attempt, paused)
  {
    match attempt
    case CancelledConnecting =>
    case Refused(down) =>
      PausesCountWhileDown(down, paused);
      var k := DecisionOf(down, |down|);
      assert k < |down| ==> FirstDecision(down, k);
    case Connected(_, _, arms) =>
      var c := Opening(attempt, paused, tables);
      ExitExactlyWhen(c, arms, tables, staleAfter);
      var k := EndOf(paused, arms, |arms|);
      assert k < |arms| ==> FirstEnd(paused, arms, k);
  }

  /** Whether the instance is paused before the `k`-th attempt. */
  predicate PausedAtAttempt(paused: bool, script: seq<Attempt>, k: nat)
    requires k <= |script|
  {
    if k == 0 then paused else PausedOver(script[k - 1], PausedAtAttempt(paused, script, k - 1))
  }

  lemma {:induction false} OneAttemptLater(paused: bool, script: seq<Attempt>, k: nat)
    requires k < |script|
    ensures PausedAtAttempt(paused, script, k + 1) == PausedAtAttempt(PausedOver(script[0], paused), script[1..], k)
  {
    if k > 0 {
      OneAttemptLater(paused, script, k - 1);
    } else {
      assert PausedAtAttempt(paused, script, 0) == paused;
    }
  }

  /** The `k`-th attempt is made: the device task gave up after none before. */
  ghost predicate Made(paused: bool, script: seq<Attempt>, k: nat) {
    k < |script| && forall j :: 0 <= j < k ==> !GivesUp(script[j], PausedAtAttempt(paused, script, j))
  }

  lemma MadeLater(paused: bool, script: seq<Attempt>, k: nat)
    requires script != [] && !GivesUp(script[0], paused)
    ensures Made(paused, script, k + 1) <==> Made(PausedOver(script[0], paused), script[1..], k)
  {
    var next := PausedOver(script[0], paused);
    forall j: nat | j < |script| - 1
      ensures GivesUp(script[j + 1], PausedAtAttempt(paused, script, j + 1))
              <==> GivesUp(script[1..][j], PausedAtAttempt(next, script[1..], j))
    {
      OneAttemptLater(paused, script, j);
    }
    if Made(next, script[1..], k) {
      forall j | 0 <= j < k + 1 ensures !GivesUp(script[j], PausedAtAttempt(paused, script, j)) {
        if j > 0 {
          assert !GivesUp(script[1..][j - 1], PausedAtAttempt(next, script[1..], j - 1));
        }
      }
    }
    if Made(paused, script, k + 1) {
      forall j | 0 <= j < k ensures !GivesUp(script[1..][j], PausedAtAttempt(next, script[1..], j)) {
        assert !GivesUp(script[j + 1], PausedAtAttempt(paused, script, j + 1));
      }
    }
  }

  /** Exactly which attempts of a script are made: all, up to the first after which the device task stops. */
  lemma {:induction false} AttemptsExactlyWhen(so: Account, script: seq<Attempt>, paused: bool,
                                               tables: string -> Policies, staleAfter: nat)
    ensures AccountOf(so, script, paused, tables, staleAfter).tries >= so.tries
    ensures forall k: nat ::
      Made(paused, script, k) <==> so.tries + k < AccountOf(so, script, paused, tables, staleAfter).tries
    decreases |script|
  {
    if script != [] {
      var next := Account(so.tries + 1, so.histories + HistoryOf(script[0], paused, tables, staleAfter));
      StopsExactlyWhen(script[0], paused, tables, staleAfter);
      PausedAfterSays(script[0], paused, tables, staleAfter);
      assert PausedAtAttempt(paused, script, 0) == paused;
      if !GivesUp(script[0], paused) {
        var later := PausedOver(script[0], paused);
        AttemptsExactlyWhen(next, script[1..], later, tables, staleAfter);
        forall k: nat
          ensures Made(paused, script, k) <==> so.tries + k < AccountOf(so, script, paused, tables, staleAfter).tries
        {
          if k > 0 {
            MadeLater(paused, script, k - 1);
          }
        }
      }
    }
  }

  /** An attempt adds the one session it opened to the ended ones, exactly when an arm of its script ends it. */
  lemma SessionsExactlyWhen(attempt: Attempt, paused: bool, tables: string -> Policies, staleAfter: nat)
    ensures HistoryOf(attempt, paused, tables, staleAfter)
            == if attempt.Connected? && EndOf(paused, attempt.arms, |attempt.arms|) < |attempt.arms| then
                 [CourseAfter(Opening(attempt, paused, tables), attempt.arms, tables, staleAfter).h]
               else []
  {
    if attempt.Connected? {
      ExitExactlyWhen(Opening(attempt, paused, tables), attempt.arms, tables, staleAfter);
      var k := EndOf(paused, attempt.arms, |attempt.arms|);
      assert k < |attempt.arms| ==> FirstEnd(paused, attempt.arms, k);
      assert k == |attempt.arms| ==> forall j :: !FirstEnd(paused, attempt.arms, j);
    }
  }

  /** The ended sessions are those of the attempts made, in order. */
  lemma {:induction false} SessionsInOrder(so: Account, script: seq<Attempt>, paused: bool, tables: string -> Policies,
                                           staleAfter: nat)
    requires script != []
    ensures var now := so.histories + HistoryOf(script[0], paused, tables, staleAfter);
            AccountOf(so, script, paused, tables, staleAfter).histories
            == if GivesUp(script[0], paused) then now
               else AccountOf(Account(so.tries + 1, now), script[1..], PausedOver(script[0], paused), tables,
                              staleAfter).histories
  {
    StopsExactlyWhen(script[0], paused, tables, staleAfter);
    PausedAfterSays(script[0], paused, tables, staleAfter);
  }
}
