/** The device task (src/driver.rs): connect, poll, shape, publish, watch, pause, reconnect, stop.

    The environment is a script: what each connect attempt, each arm of the select loop and each publish
    does. `RunDevice` and `RunPolling` run any script; every log they leave is one the monitor of `Wire`
    accepts, and the device task's own state stays tied to what the monitor reads off the log. */
module Driver {
  import opened Common
  import opened Readings
  import opened Shaping
  import opened ShapingRuns
  import opened Staleness
  import opened Wire

  /** One arm of the poll loop's select, with what the session and the clock answer. A read that fails is
      `None`. */
  datatype Arm =
    | Cancel
    | ControlClosed
    | OtherCommand
    | Pause
    | Resume(emptyInventory: bool, outcome: Option<seq<Reading>>, stamp: string)
    | Reconnect(reply: nat)
    | Repoll(outcome: Option<seq<Reading>>, link: Option<PassiveLink>, stamp: string)
    | Tick(outcome: Option<seq<Reading>>, snapshotDrained: bool, generation: Option<string>,
           link: Option<PassiveLink>, stamp: string, now: nat)
    | Deadline(now: nat)

  datatype RepollError = RefusedPaused | ReadFailed

  /** What ended the poll loop; `Running` when the script ends first. */
  datatype PollExit = LinkLost | ReconnectExit(reply: nat) | Closed | Running

  datatype DownEvent =
    | DownCancel
    | DownClosed
    | DownReconnect(reply: nat)
    | DownPause
    | DownResume
    | DownRefused
    | DownElapsed

  datatype DownOutcome = ReconnectNow(reply: nat) | Elapsed | Shutdown | Waiting

  /** One connect attempt and what follows it. */
  datatype Attempt =
    | CancelledConnecting
    | Refused(down: seq<DownEvent>)
    | Connected(generation: Option<string>, configured: Policies, arms: seq<Arm>)

  /** The receive stamp, for readings the backend did not stamp. */
  function Stamped(readings: seq<Reading>, stamp: string): (r: seq<Reading>)
    ensures |r| == |readings|
    ensures forall i :: 0 <= i < |r| ==>
      r[i] == readings[i].(receivedTs := if readings[i].receivedTs.None? then Some(stamp) else readings[i].receivedTs)
  {
    seq(|readings|, i requires 0 <= i < |readings| =>
      readings[i].(receivedTs := if readings[i].receivedTs.None? then Some(stamp) else readings[i].receivedTs))
  }

  /** A read failed: the link counts as unreachable from then on, however it was described. */
  function LostLink(link: Option<PassiveLink>): Option<PassiveLink> {
    if link.None? then None else Some(link.value.(unreachable := true))
  }

  /** A log grew by publishing the first `n` of some updates, one attempt each. */
  predicate Attempted(before: Log, after: Log, updates: seq<Update>, n: nat, shaped: bool, accepts: iset<nat>,
                      attempt: nat)
    requires n <= |updates|
  {
    if n == 0 then after == before
    else
      && after.Then?
      && after.event == Handed(updates[n - 1], shaped, (attempt + n - 1 in accepts))
      && Attempted(before, after.past, updates, n - 1, shaped, accepts, attempt)
  }

  function OneByOne(readings: seq<Reading>): (r: seq<Update>)
    ensures |r| == |readings| && forall i :: 0 <= i < |r| ==> r[i] == [readings[i]]
  {
    seq(|readings|, i requires 0 <= i < |readings| => [readings[i]])
  }

  /** A log grew by a resume's snapshot: what is held is forgotten, then what the read answered, if it
      worked, is published. */
  predicate Snapshotted(before: Log, after: Log, outcome: Option<seq<Reading>>, stamp: string, accepts: iset<nat>,
                        attempt: nat) {
    var forgotten := Then(before, Entry.Rebaselined);
    if outcome.None? then after == forgotten
    else
      var readings := Stamped(outcome.value, stamp);
      Attempted(Then(forgotten, Snapshot(readings)), after, OneByOne(readings), |readings|, false, accepts, attempt)
  }

  /** How many of some consecutive publish attempts reach the wire. */
  function Reaching(accepts: iset<nat>, attempt: nat, count: nat): nat {
    if count == 0 then 0
    else Reaching(accepts, attempt, count - 1) + if attempt + count - 1 in accepts then 1 else 0
  }

  /** The shaper's history after some readings are offered, in order. */
  function AllOffered(h: Trace, readings: seq<Reading>, now: nat): Trace {
    if readings == [] then h
    else Then(AllOffered(h, readings[..|readings| - 1], now), Event.Offer(readings[|readings| - 1], now))
  }

  /** The shaper's history after a running tick: re-armed by a drained snapshot, then given the new policy
      table, if there is one, and only then offered what was drained. */
  function Ticked(h: Trace, resynced: bool, table: Option<Policies>, readings: seq<Reading>, now: nat): Trace {
    var armed := if resynced then Then(h, Event.ResetDeadband) else h;
    var swapped := if table.Some? then Then(armed, Event.SetPolicies(table.value)) else armed;
    AllOffered(swapped, readings, now)
  }

  /** What the session keeps of an arm: what it reads is the agent's data, and the GOOD readings served under a
      compiled table are on the routes of that table. */
  ghost predicate ArmOk(arm: Arm, tables: string -> Policies, compiled: bool) {
    match arm
    case Resume(_, outcome, _) => outcome.Some? ==> IsData(outcome.value)
    case Repoll(outcome, _, _) => outcome.Some? ==> IsData(outcome.value)
    case Tick(outcome, _, generation, _, _, _) =>
      && (outcome.Some? ==> IsData(outcome.value))
      && (compiled <==> generation.Some?)
      && (outcome.Some? && generation.Some? ==> AllTravel(outcome.value, tables(generation.value)))
    case _ => true
  }

  // ---------------------------------------------------------------------------------------------
  // What a script of arms asks for
  // ---------------------------------------------------------------------------------------------

  /** Where a session stands: what its shaper was asked so far, in order, and what decides the next arm. */
  datatype Course = Course(h: Trace, paused: bool, resynced: bool, gen: Option<string>, phase: PassivePhase)

  /** A batch window is open. */
  ghost predicate AnyWindow(h: Trace) {
    exists id :: RunLane(id, h).lane.buffer.Some?
  }

  /** A lost link: everything is flushed, then judged. */
  function Lost(c: Course, link: Option<PassiveLink>): Course {
    c.(h := Then(c.h, Event.FlushAll), phase := if link.Some? then Unreachable else c.phase)
  }

  /** A tick while running: re-armed by a snapshot, given the new table if there is one, offered what was
      drained, and then judged. */
  function Served(c: Course, readings: seq<Reading>, generation: Option<string>, link: Option<PassiveLink>, now: nat,
                  tables: string -> Policies, staleAfter: nat): Course
  {
    var table := if generation == c.gen || generation.None? then None else Some(tables(generation.value));
    Course(Ticked(c.h, c.resynced, table, readings, now), c.paused, false, generation,
           if link.Some? then PhaseOf(link.value, staleAfter) else if c.resynced then Fresh else c.phase)
  }

  /** A tick: while paused it only drains. */
  function TickCourse(c: Course, outcome: Option<seq<Reading>>, drained: bool, generation: Option<string>,
                      link: Option<PassiveLink>, stamp: string, now: nat, tables: string -> Policies,
                      staleAfter: nat): Course
  {
    var marked := c.(resynced := c.resynced || drained);
    if outcome.None? then Lost(c, link)
    else if c.paused then marked
    else Served(marked, Stamped(outcome.value, stamp), generation, link, now, tables, staleAfter)
  }

  ghost function After(c: Course, arm: Arm, tables: string -> Policies, staleAfter: nat): Course {
    match arm
    case Cancel => c.(h := Then(c.h, Event.FlushAll))
    case ControlClosed => c.(h := Then(c.h, Event.FlushAll))
    case Reconnect(_) => c.(h := Then(c.h, Event.FlushAll))
    case OtherCommand => c
    case Pause => if c.paused then c else c.(h := Then(c.h, Event.ClearBuffers), paused := true)
    case Resume(emptyInventory, _, _) =>
      if !c.paused then c
      else c.(h := Then(c.h, Event.ResetDeadband), paused := false, phase := if emptyInventory then c.phase else Fresh)
    case Repoll(outcome, link, _) => if c.paused || outcome.Some? then c else Lost(c, link)
    case Tick(outcome, drained, generation, link, stamp, now) =>
      TickCourse(c, outcome, drained, generation, link, stamp, now, tables, staleAfter)
    case Deadline(now) => if AnyWindow(c.h) then c.(h := Then(c.h, Event.Due(now))) else c
  }

  /** Whether, and how, an arm ends the session. */
  function Exit(paused: bool, arm: Arm): PollExit {
    match arm
    case Cancel => Closed
    case ControlClosed => Closed
    case Reconnect(reply) => ReconnectExit(reply)
    case Repoll(outcome, _, _) => if !paused && outcome.None? then LinkLost else Running
    case Tick(outcome, _, _, _, _, _) => if outcome.None? then LinkLost else Running
    case _ => Running
  }

  /** Where a session stands after a script of arms, or after the arm that ended it. */
  ghost function CourseAfter(c: Course, arms: seq<Arm>, tables: string -> Policies, staleAfter: nat): Course
    decreases |arms|
  {
    if arms == [] then c
    else if Exit(c.paused, arms[0]) != Running then After(c, arms[0], tables, staleAfter)
    else CourseAfter(After(c, arms[0], tables, staleAfter), arms[1..], tables, staleAfter)
  }

  /** How a script of arms ends the session. */
  ghost function ExitAfter(c: Course, arms: seq<Arm>, tables: string -> Policies, staleAfter: nat): PollExit
    decreases |arms|
  {
    if arms == [] then Running
    else if Exit(c.paused, arms[0]) != Running then Exit(c.paused, arms[0])
    else ExitAfter(After(c, arms[0], tables, staleAfter), arms[1..], tables, staleAfter)
  }

  /** How serving control while no session is open ends. */
  function DownAfter(events: seq<DownEvent>): DownOutcome
    decreases |events|
  {
    if events == [] then Waiting
    else
      match events[0]
      case DownCancel => Shutdown
      case DownClosed => Shutdown
      case DownReconnect(reply) => ReconnectNow(reply)
      case DownElapsed => Elapsed
      case _ => DownAfter(events[1..])
  }

  /** The events that decide a wait: a stop, a reconnect, and the end of the delay. */
  predicate Decides(e: DownEvent) {
    e.DownCancel? || e.DownClosed? || e.DownReconnect? || e.DownElapsed?
  }

  /** The `k`-th event is the first that decides. */
  predicate FirstDecision(events: seq<DownEvent>, k: int) {
    0 <= k < |events| && Decides(events[k]) && forall j :: 0 <= j < k ==> !Decides(events[j])
  }

  lemma FirstDecisionLater(events: seq<DownEvent>, k: int)
    requires events != [] && !Decides(events[0])
    ensures FirstDecision(events, k) <==> k > 0 && FirstDecision(events[1..], k - 1)
  {
    if k > 0 && FirstDecision(events[1..], k - 1) {
      assert forall j :: 1 <= j < k ==> events[j] == events[1..][j - 1];
    }
    if FirstDecision(events, k) {
      assert forall j :: 0 <= j < k - 1 ==> events[1..][j] == events[j + 1];
    }
  }

  /** Exactly how a wait ends: as its first event that decides says, in a shutdown, in a reconnect with its reply, or
      elapsed; and it is still on when there is none. */
  lemma {:induction false} DownEndsExactlyWhen(events: seq<DownEvent>)
    ensures DownAfter(events) == Waiting <==> forall k :: !FirstDecision(events, k)
    ensures DownAfter(events) == Shutdown <==>
              exists k :: FirstDecision(events, k) && (events[k].DownCancel? || events[k].DownClosed?)
    ensures DownAfter(events) == Elapsed <==> exists k :: FirstDecision(events, k) && events[k].DownElapsed?
    ensures forall reply ::
              DownAfter(events) == ReconnectNow(reply) <==>
              exists k :: FirstDecision(events, k) && events[k] == DownReconnect(reply)
    decreases |events|
  {
    if events != [] {
      if Decides(events[0]) {
        assert FirstDecision(events, 0);
        assert forall k :: FirstDecision(events, k) ==> k == 0;
      } else {
        DownEndsExactlyWhen(events[1..]);
        forall k ensures FirstDecision(events, k) <==> k > 0 && FirstDecision(events[1..], k - 1) {
          FirstDecisionLater(events, k);
        }
        assert forall k :: FirstDecision(events[1..], k) ==>
          FirstDecision(events, k + 1) && events[k + 1] == events[1..][k];
      }
    }
  }

  /** A refused attempt after which the next one is made. */
  ghost predicate Retries(attempt: Attempt) {
    attempt.Refused? && exists k :: FirstDecision(attempt.down, k)
                                    && (attempt.down[k].DownElapsed? || attempt.down[k].DownReconnect?)
  }

  /** Whether the instance is paused when it ends. */
  function DownPaused(events: seq<DownEvent>, paused: bool): bool
    decreases |events|
  {
    if events == [] then paused
    else
      match events[0]
      case DownPause => DownPaused(events[1..], true)
      case DownResume => DownPaused(events[1..], false)
      case DownRefused => DownPaused(events[1..], paused)
      case _ => paused
  }

  /** Where a session stands when it opens. */
  function Opening(attempt: Attempt, paused: bool, tables: string -> Policies): Course
    requires attempt.Connected?
  {
    var table := if attempt.generation.Some? then tables(attempt.generation.value) else attempt.configured;
    Course(Then(Start, Event.SetPolicies(table)), paused, false, attempt.generation, Fresh)
  }

  /** Whether one attempt, and what follows it, is the last. */
  ghost predicate Stops(attempt: Attempt, paused: bool, tables: string -> Policies, staleAfter: nat) {
    match attempt
    case CancelledConnecting => true
    case Refused(down) => DownAfter(down) in {Shutdown, Waiting}
    case Connected(_, _, arms) =>
      ExitAfter(Opening(attempt, paused, tables), arms, tables, staleAfter) in {Closed, Running}
  }

  /** Whether the instance is paused after it. */
  ghost function PausedAfter(attempt: Attempt, paused: bool, tables: string -> Policies, staleAfter: nat): bool {
    match attempt
    case CancelledConnecting => paused
    case Refused(down) => DownPaused(down, paused)
    case Connected(_, _, arms) => CourseAfter(Opening(attempt, paused, tables), arms, tables, staleAfter).paused
  }

  /** What the shaper was asked for in the session the attempt opened, if it opened one that ended. */
  ghost function HistoryOf(attempt: Attempt, paused: bool, tables: string -> Policies, staleAfter: nat): seq<Trace> {
    if !attempt.Connected? then []
    else
      var c := Opening(attempt, paused, tables);
      if ExitAfter(c, attempt.arms, tables, staleAfter) == Running then []
      else [CourseAfter(c, attempt.arms, tables, staleAfter).h]
  }

  /** What a script makes of the device task: how many connect attempts it makes before it stops, and what the
      shaper was asked for in each session that ended, in order. */
  datatype Account = Account(tries: nat, histories: seq<Trace>)

  ghost function AccountOf(so: Account, script: seq<Attempt>, paused: bool, tables: string -> Policies,
                           staleAfter: nat): Account
    decreases |script|
  {
    if script == [] then so
    else
      var next := Account(so.tries + 1, so.histories + HistoryOf(script[0], paused, tables, staleAfter));
      if Stops(script[0], paused, tables, staleAfter) then next
      else AccountOf(next, script[1..], PausedAfter(script[0], paused, tables, staleAfter), tables, staleAfter)
  }

  /** As long as every attempt is refused and its wait elapses or asks to reconnect, the next one is made. */
  lemma {:induction false} RetriesGoOn(so: Account, script: seq<Attempt>, paused: bool, tables: string -> Policies,
                                       staleAfter: nat, k: nat)
    requires k < |script| && forall j :: 0 <= j < k ==> Retries(script[j])
    ensures AccountOf(so, script, paused, tables, staleAfter).tries > so.tries + k
    decreases |script|
  {
    var next := Account(so.tries + 1, so.histories + HistoryOf(script[0], paused, tables, staleAfter));
    if k == 0 {
      NeverFewer(next, script[1..], PausedAfter(script[0], paused, tables, staleAfter), tables, staleAfter);
    } else {
      assert Retries(script[0]);
      DownEndsExactlyWhen(script[0].down);
      assert forall j :: 0 <= j < k - 1 ==> script[1..][j] == script[j + 1];
      RetriesGoOn(next, script[1..], PausedAfter(script[0], paused, tables, staleAfter), tables, staleAfter, k - 1);
    }
  }

  /** Every attempt before the `k`-th is refused and retried. */
  ghost predicate RetriedUpTo(script: seq<Attempt>, k: int) {
    0 <= k < |script| && forall j :: 0 <= j < k ==> Retries(script[j])
  }

  lemma RetriesAreMade(script: seq<Attempt>, tables: string -> Policies, staleAfter: nat)
    ensures forall k :: RetriedUpTo(script, k) ==>
              AccountOf(Account(0, []), script, false, tables, staleAfter).tries > k
  {
    forall k | RetriedUpTo(script, k) ensures AccountOf(Account(0, []), script, false, tables, staleAfter).tries > k {
      RetriesGoOn(Account(0, []), script, false, tables, staleAfter, k);
    }
  }

  lemma {:induction false} NeverFewer(so: Account, script: seq<Attempt>, paused: bool, tables: string -> Policies,
                                      staleAfter: nat)
    ensures AccountOf(so, script, paused, tables, staleAfter).tries >= so.tries
    decreases |script|
  {
    if script != [] {
      var next := Account(so.tries + 1, so.histories + HistoryOf(script[0], paused, tables, staleAfter));
      NeverFewer(next, script[1..], PausedAfter(script[0], paused, tables, staleAfter), tables, staleAfter);
    }
  }

  /** A session's log carries what a shaper's history says of one signal: every released update was handed to the
      wire, in order, and none is left. */
  ghost predicate CarriesOne(id: string, log: Log, h: Trace)
    requires Accepts(log)
  {
    Of(id, Replay(log).value.flow.shaped) == RunLane(id, h).out && RunLane(id, h).lane.buffer.None?
  }

  /** And it drained exactly what was offered. */
  ghost predicate Carries(log: Log, h: Trace) {
    && Accepts(log) && Replay(log).value.flow.polled == Offered(h)
    && (!Replay(log).value.flow.interrupted ==> NeverCleared(h))
    && forall id :: CarriesOne(id, log, h)
  }

  /** One more session ended. */
  ghost predicate EndsOne(before: seq<Log>, after: seq<Log>, h: Trace) {
    |after| == |before| + 1 && after[..|before|] == before && Carries(after[|before|], h)
  }

  /** At most one more did. */
  ghost predicate EndsMore(before: seq<Log>, after: seq<Log>, more: seq<Trace>) {
    if more == [] then after == before else |more| == 1 && EndsOne(before, after, more[0])
  }

  lemma AllEndMore(before: seq<Log>, after: seq<Log>, histories: seq<Trace>, more: seq<Trace>)
    requires AllEnd(before, histories) && EndsMore(before, after, more)
    ensures AllEnd(after, histories + more)
  {
    if more == [] {
      assert histories + more == histories;
    } else {
      forall i | 0 <= i < |after| ensures Carries(after[i], (histories + more)[i]) {
        if i < |before| {
          assert after[i] == before[i];
        }
      }
    }
  }

  ghost predicate AllEnd(ended: seq<Log>, histories: seq<Trace>) {
    |ended| == |histories| && forall i :: 0 <= i < |ended| ==> Carries(ended[i], histories[i])
  }

  class DeviceTask {
    /** Which publish attempts, by number, reach the wire. */
    const accepts: iset<nat>
    /** The policy table of a compiled signal generation. */
    const tables: string -> Policies
    const staleAfter: nat

    var attempts: nat
    var paused: bool
    var open: bool
    var shaper: Shaper
    var watchdog: QualityWatchdog
    var shapingGen: Option<string>
    /** The session drained a snapshot that nobody asked about yet. */
    var resynced: bool

    ghost var log: Log

    constructor (accepts: iset<nat>, tables: string -> Policies, staleAfter: nat)
      ensures this.accepts == accepts && this.tables == tables && this.staleAfter == staleAfter
      ensures log == Start && Down(None) && !paused && attempts == 0
      ensures fresh(shaper) && fresh(watchdog)
    {
      this.accepts, this.tables, this.staleAfter := accepts, tables, staleAfter;
      attempts, paused, open, shapingGen, resynced := 0, false, false, None, false;
      shaper := new Shaper();
      watchdog := new QualityWatchdog();
      log := Start;
    }

    ghost function View(): Monitor
      requires Accepts(log)
      reads this`log
    {
      Replay(log).value
    }

    /** The device task agrees with the log about the link. */
    ghost predicate OnLine()
      reads this`log, this`open, this`paused
    {
      && Accepts(log)
      && View().link.up == open && View().link.paused == paused
      && !View().link.connecting && View().link.settled.None?
    }

    /** For every held signal, except those listed, what the fleet saw last is what the watchdog counts on,
        unless its publish failed. */
    ghost predicate Seen(unshown: set<string>)
      reads this`log, this`watchdog, watchdog
    {
      && Accepts(log)
      && watchdog.Valid()
      && HeldIn(watchdog.signals) == View().flow.held
      && forall id :: id in watchdog.signals && id !in unshown ==> Matches(id, watchdog.wire, View().flow)
    }

    /** What waits was read recently, is data, and waits only while running. */
    ghost predicate Buffering()
      reads this`log, this`shaper, this`paused, shaper
    {
      && Accepts(log)
      && shaper.Valid()
      && shaper.Holdings() <= View().flow.recent
      && (forall r :: r in shaper.Holdings() ==> !IsSynthetic(r))
      && (paused ==> shaper.buffers == map[])
    }

    /** Everything drained was offered, in order. */
    ghost predicate Offering(rest: seq<Reading>)
      reads this`log, this`shaper, shaper
    {
      && Accepts(log)
      && View().flow.polled == Offered(shaper.history) + rest
      && (!View().flow.interrupted ==> NeverCleared(shaper.history))
    }

    /** Everything released was handed to the wire, in order, but for what is about to be. */
    ghost predicate Handing(rest: seq<Update>)
      reads this`log, this`shaper, shaper
    {
      && Accepts(log)
      && shaper.released == View().flow.shaped + rest
    }

    /** Under a compiled table, every offer travels as its policy says. */
    ghost predicate Routing()
      reads this`shaper, this`shapingGen, shaper
    {
      shapingGen.Some? ==> shaper.policies == tables(shapingGen.value) && Routed(shaper.history)
    }

    /** Every held signal was last given the ladder's verdict in this phase. */
    ghost predicate OnTheLadder(link: PassiveLink)
      reads this`watchdog, watchdog
    {
      forall id :: id in watchdog.signals ==>
        id in watchdog.wire && watchdog.wire[id] == VerdictIn(watchdog.phase, watchdog.signals[id].held, AgeMs(link))
    }

    /** Where the session stands. */
    ghost function Now(): Course
      reads this, shaper, watchdog
    {
      Course(shaper.history, paused, resynced, shapingGen, watchdog.phase)
    }

    /** At most one session ended, and then it carried what its shaper was asked for. */
    ghost predicate Ends(ended: bool, before: seq<Log>)
      reads this`log, this`shaper, shaper
    {
      Accepts(log) && if ended then EndsOne(before, View().link.ended, shaper.history) else View().link.ended == before
    }

    /** An arm took the session from where it stood to where `After` says, and ended it exactly when `Exit` says:
        then the shaper is empty and the link is closed, once. */
    ghost predicate Took(arm: Arm, exit: PollExit, was: Course, link: Link)
      reads this, shaper, watchdog
    {
      && Valid() && shapingGen.Some? == was.gen.Some?
      && exit == Exit(was.paused, arm) && Now() == After(was, arm, tables, staleAfter)
      && (exit == Running <==> open) && (exit != Running ==> shaper.buffers == map[])
      && View().link == link.(up := open, paused := paused, stopping := link.stopping || exit == Closed,
                              owed := if exit.ReconnectExit? then Some(exit.reply) else link.owed,
                              ended := View().link.ended)
      && Ends(exit != Running, link.ended)
    }

    /** The invariant of the poll loop. */
    ghost predicate Valid()
      reads this, shaper, watchdog
    {
      OnLine() && Seen({}) && Buffering() && Offering([]) && Handing([]) && Routing()
    }

    /** Between sessions: nothing is buffered, and one reconnect reply at most is pending. */
    ghost predicate Down(pending: Option<nat>)
      reads this`log, this`open, this`paused
    {
      OnLine() && !open && !View().link.stopping && View().link.owed == pending
    }

    ghost method Append(e: Entry)
      requires Accepts(log) && Permits(View().link, e) && Current(View().flow, e)
      modifies this`log
      ensures log == Then(old(log), e) && Accepts(log)
      ensures View() == Monitor(ObserveLink(old(View()).link, e, old(log)), ObserveFlow(old(View()).flow, e))
    {
      log := Then(log, e);
    }

    /** One publish attempt of data; the watchdog holds what reached the wire. */
    method HandData(readings: seq<Reading>, shaped: bool) returns (reached: bool)
      requires OnLine() && open && !paused && Seen({})
      requires readings != [] && IsData(readings) && forall r :: r in readings ==> r in View().flow.recent
      modifies this`log, this`attempts, watchdog
      ensures OnLine() && Seen({})
      ensures log == Then(old(log), Handed(readings, shaped, reached)) && reached == (old(attempts) in accepts)
      ensures attempts == old(attempts) + 1 && watchdog.phase == old(watchdog.phase)
      ensures View().link == old(View()).link
      ensures SameFlow(View().flow, old(View()).flow)
      ensures View().flow.shaped == old(View()).flow.shaped + if shaped then [readings] else []
      ensures reached ==> View().flow.held == Delivers(old(View()).flow.held, readings)
      ensures reached ==> View().flow.shown == Shows(old(View()).flow.shown, readings)
    {
      reached := attempts in accepts;
      attempts := attempts + 1;
      Append(Handed(readings, shaped, reached));
      if reached {
        HoldAll(readings);
      }
      WhatReadingsTouch(map[], HeldIn(old(watchdog.signals)), readings);
      forall id | id in watchdog.signals ensures Matches(id, watchdog.wire, View().flow) {
        assert id in HeldIn(watchdog.signals);
        assert id in old(watchdog.signals) ==> Matches(id, old(watchdog.wire), old(View()).flow);
        ShowsAgree(old(View()).flow.shown, old(watchdog.wire), readings, id);
      }
    }

    method HoldAll(readings: seq<Reading>)
      requires watchdog.Valid() && IsData(readings)
      modifies watchdog
      ensures watchdog.Valid()
      ensures watchdog.wire == Shows(old(watchdog.wire), readings)
      ensures HeldIn(watchdog.signals) == Delivers(HeldIn(old(watchdog.signals)), readings)
      ensures watchdog.phase == old(watchdog.phase)
    {
      for n := 0 to |readings|
        invariant watchdog.Valid()
        invariant watchdog.wire == Shows(old(watchdog.wire), readings[..n])
        invariant HeldIn(watchdog.signals) == Delivers(HeldIn(old(watchdog.signals)), readings[..n])
        invariant watchdog.phase == old(watchdog.phase)
      {
        assert readings[n] in readings;
        HoldsOneMore(watchdog.signals, readings[n].signalId, SignalRecord(readings[n], 0, false));
        watchdog.OnPublished(readings[n], 0);
        assert readings[..n + 1][..n] == readings[..n];
      }
      assert readings[..|readings|] == readings;
    }

    /** One publish attempt of the watchdog's own output; the watchdog ignores it. */
    method HandPassive(reading: Reading)
      requires OnLine() && open && IsSynthetic(reading)
      modifies this`log, this`attempts
      ensures OnLine()
      ensures log == Then(old(log), Handed([reading], false, old(attempts) in accepts)) && attempts == old(attempts) + 1
    {
      var reached := attempts in accepts;
      attempts := attempts + 1;
      assert reading in [reading];
      Append(Handed([reading], false, reached));
    }

    /** Publish what was released, in order and one attempt an update. */
    method PublishShaped(updates: seq<Update>)
      requires OnLine() && open && Seen({})
      requires NonEmpty(updates) && Within(updates, View().flow.recent)
      requires forall u :: u in updates ==> IsData(u)
      requires updates != [] ==> !paused
      modifies this`log, this`attempts, watchdog
      ensures OnLine() && Seen({})
      ensures View().link == old(View()).link
      ensures SameFlow(View().flow, old(View()).flow)
      ensures View().flow.shaped == old(View()).flow.shaped + updates
      ensures Attempted(old(log), log, updates, |updates|, true, accepts, old(attempts))
      ensures attempts == old(attempts) + |updates| && watchdog.phase == old(watchdog.phase)
    {
      for n := 0 to |updates|
        invariant OnLine() && Seen({})
        invariant View().link == old(View()).link
        invariant SameFlow(View().flow, old(View()).flow)
        invariant View().flow.shaped == old(View()).flow.shaped + updates[..n]
        invariant attempts == old(attempts) + n
        invariant Attempted(old(log), log, updates, n, true, accepts, old(attempts))
        invariant watchdog.phase == old(watchdog.phase)
      {
        assert updates[n] in updates;
        var reached := HandData(updates[n], true);
        assert updates[..n + 1] == updates[..n] + [updates[n]];
      }
      assert updates[..|updates|] == updates;
    }

    /** Publish data one by one, past the shaper: a live snapshot. */
    method PublishReadings(readings: seq<Reading>) returns (published: nat)
      requires OnLine() && open && !paused && Seen({})
      requires IsData(readings) && forall r :: r in readings ==> r in View().flow.recent
      modifies this`log, this`attempts, watchdog
      ensures OnLine() && Seen({})
      ensures View().link == old(View()).link
      ensures SameFlow(View().flow, old(View()).flow)
      ensures View().flow.shaped == old(View()).flow.shaped
      ensures Attempted(old(log), log, OneByOne(readings), |readings|, false, accepts, old(attempts))
      ensures published == Reaching(accepts, old(attempts), |readings|) && attempts == old(attempts) + |readings|
      ensures watchdog.phase == old(watchdog.phase)
    {
      published := 0;
      for n := 0 to |readings|
        invariant OnLine() && Seen({}) && watchdog.phase == old(watchdog.phase)
        invariant attempts == old(attempts) + n
        invariant Attempted(old(log), log, OneByOne(readings), n, false, accepts, old(attempts))
        invariant published == Reaching(accepts, old(attempts), n)
        invariant View().link == old(View()).link
        invariant SameFlow(View().flow, old(View()).flow)
        invariant View().flow.shaped == old(View()).flow.shaped
      {
        assert readings[n] in readings;
        var reached := HandData([readings[n]], false);
        published := published + if reached then 1 else 0;
      }
    }

    /** Publish the watchdog's own output, one by one and in order. */
    method PublishTransitions(readings: seq<Reading>)
      requires OnLine() && open && IsPassive(readings)
      modifies this`log, this`attempts
      ensures OnLine() && attempts == old(attempts) + |readings|
      ensures Attempted(old(log), log, OneByOne(readings), |readings|, false, accepts, old(attempts))
    {
      for n := 0 to |readings|
        invariant OnLine()
        invariant attempts == old(attempts) + n
        invariant Attempted(old(log), log, OneByOne(readings), n, false, accepts, old(attempts))
      {
        assert readings[n] in readings;
        HandPassive(readings[n]);
      }
    }

    /** Judge the link and publish the quality transitions it causes; the fleet then sees what the watchdog
        counts on, save where the wire refused it. */
    method PublishPassive(link: Option<PassiveLink>, stamp: string) returns (ghost j: Judgement)
      requires OnLine() && open && Seen({})
      modifies this`log, this`attempts, watchdog
      ensures OnLine() && Seen({})
      ensures View().link == old(View()).link
      ensures SameFlow(View().flow, old(View()).flow)
      ensures View().flow.shaped == old(View()).flow.shaped && View().flow.held == old(View()).flow.held
      ensures watchdog.phase == if link.Some? then PhaseOf(link.value, staleAfter) else old(watchdog.phase)
      ensures link.Some? && watchdog.phase != old(watchdog.phase) ==> OnTheLadder(link.value)
      ensures j.log == old(log) && j.first == old(attempts) && Spent(j, link)
      ensures JudgedFrom(j, log, old(watchdog.phase), watchdog.phase, accepts)
    {
      j := Judgement(log, attempts, [], AgeOf(link));
      if link.None? {
        return;
      }
      var readings := JudgeLink(link.value, stamp);
      j := Judgement(log, attempts, readings, AgeOf(link));
      PublishTransitions(readings);
      JudgementReaches(j, log, accepts, watchdog.signals, watchdog.wire, old(watchdog.phase), watchdog.phase);
    }

    /** Judge the link: the transitions to publish, stamped, cover every signal the fleet sees otherwise. */
    method JudgeLink(link: PassiveLink, stamp: string) returns (readings: seq<Reading>)
      requires OnLine() && open && Seen({})
      modifies watchdog
      ensures Seen(IdsOf(readings))
      ensures IsPassive(readings) && forall r :: r in readings ==> Announces(r, watchdog.signals, watchdog.wire)
      ensures forall i, j :: 0 <= i < j < |readings| ==> readings[i].signalId != readings[j].signalId
      ensures HeldIn(watchdog.signals) == HeldIn(old(watchdog.signals))
      ensures forall r :: r in readings ==>
        Republishes(r, HeldIn(watchdog.signals), watchdog.phase, AgeMs(link)) && r.receivedTs.Some?
      ensures watchdog.phase != old(watchdog.phase) && watchdog.phase != Fresh ==>
        forall id :: id in watchdog.signals ==> watchdog.signals[id].held.quality == Bad || id in IdsOf(readings)
      ensures watchdog.phase == old(watchdog.phase) ==> readings == []
      ensures watchdog.phase == PhaseOf(link, staleAfter)
      ensures watchdog.phase != old(watchdog.phase) ==> OnTheLadder(link)
    {
      var transitions := watchdog.Evaluate(link, staleAfter);
      readings := Stamped(transitions, stamp);
      SameHeld(old(watchdog.signals), watchdog.signals);
      TransitionsRepublish(transitions, stamp, watchdog.signals, watchdog.phase, AgeMs(link));
      TransitionsAnnounce(transitions, stamp, watchdog.signals, watchdog.wire);
      forall id | id in watchdog.signals && id !in IdsOf(readings) ensures Matches(id, watchdog.wire, View().flow) {
        assert Matches(id, old(watchdog.wire), View().flow);
        assert forall i :: 0 <= i < |readings| ==> readings[i] in readings;
        ShowsLast(old(watchdog.wire), transitions, id);
      }
    }

    /** Publish what the shaper released, and drain its counters. */
    method PublishReleased(updates: seq<Update>)
      requires OnLine() && open && Seen({}) && Buffering() && Offering([]) && Handing(updates) && Routing()
      requires NonEmpty(updates) && Within(updates, View().flow.recent)
      requires forall u :: u in updates ==> IsData(u)
      requires updates != [] ==> !paused
      modifies this`log, this`attempts, watchdog, shaper`counters, shaper`drained
      ensures Valid() && View().link == old(View()).link
      ensures SameFlow(View().flow, old(View()).flow)
      ensures Attempted(old(log), log, updates, |updates|, true, accepts, old(attempts))
      ensures attempts == old(attempts) + |updates| && watchdog.phase == old(watchdog.phase)
      ensures shaper.counters == ZERO_COUNTERS
    {
      PublishShaped(updates);
      var counters := shaper.TakeCounters();
    }

    /** A judgement of a link attempted all it put out, and nothing was attempted since. */
    ghost predicate Spent(j: Judgement, link: Option<PassiveLink>)
      reads this`attempts
    {
      attempts == j.first + |j.out| && j.ageMs == AgeOf(link)
    }

    /** A log grew by one attempt for each update released since. */
    ghost predicate Flushed(before: Log, after: Log, released: seq<Update>, attempt: nat)
      reads this`shaper, shaper
    {
      && released <= shaper.released
      && var out := shaper.released[|released|..];
         Attempted(before, after, out, |out|, true, accepts, attempt)
    }

    /** What every way out does first: nothing is left waiting, and what waited was attempted. */
    method FlushOpenWindows()
      requires Valid() && open
      modifies this`log, this`attempts, watchdog, shaper
      ensures Valid() && open
      ensures shaper.buffers == map[]
      ensures View().link == old(View()).link
      ensures SameFlow(View().flow, old(View()).flow)
      ensures shaper.history == Then(old(shaper.history), Event.FlushAll)
      ensures watchdog.phase == old(watchdog.phase)
      ensures Flushed(old(log), log, old(shaper.released), old(attempts))
      ensures attempts == old(attempts) + |shaper.released| - |old(shaper.released)|
    {
      var out := shaper.FlushAll();
      HoldingsAreData(out, old(shaper.Holdings()));
      UpdatesComeFromSomewhere(out, old(shaper.Holdings()));
      PublishReleased(out);
    }

    /** A session with no window left carries what its history says. */
    lemma CarriesTheLanes()
      requires Valid() && shaper.buffers == map[]
      ensures Carries(log, shaper.history)
    {
      assert shaper.released == View().flow.shaped;
      forall id ensures CarriesOne(id, log, shaper.history) {
        assert Holds(id, shaper.LaneOf(id), shaper.history);
        assert Released(id, shaper.released, shaper.history);
      }
    }

    method Close()
      requires Valid() && open && shaper.buffers == map[]
      modifies this`log, this`open
      ensures Valid() && !open
      ensures log == Then(old(log), SessionClosed)
      ensures View().link == old(View()).link.(up := false, ended := View().link.ended)
      ensures Ends(true, old(View()).link.ended)
    {
      CarriesTheLanes();
      Append(SessionClosed);
      open := false;
    }

    /** A deliberate stop: flush, publish, detach. */
    method StopCleanly() returns (exit: PollExit)
      requires Valid() && open && !View().link.stopping
      modifies this`log, this`attempts, this`open, watchdog, shaper
      ensures Valid() && !open && shaper.buffers == map[]
      ensures shaper.history == Then(old(shaper.history), Event.FlushAll) && watchdog.phase == old(watchdog.phase)
      ensures exit == Closed && View().link == old(View()).link.(
        up := false, stopping := true, ended := View().link.ended)
      ensures Ends(true, old(View()).link.ended)
    {
      Append(Stopping);
      FlushOpenWindows();
      Close();
      exit := Closed;
    }

    // -------------------------------------------------------------------------------------------
    // The arms of the poll loop
    // -------------------------------------------------------------------------------------------

    /** Pause: gate the wire and clear the windows, once. */
    method OnPause()
      requires Valid() && open
      modifies this`log, this`paused, shaper
      ensures Valid() && paused && (!old(paused) ==> shaper.buffers == map[])
      ensures log == if old(paused) then old(log) else Then(old(log), PauseEvent)
      ensures shaper.history == if old(paused) then old(shaper.history) else Then(old(shaper.history), ClearBuffers)
      ensures View().link == old(View()).link.(paused := true)
    {
      if paused {
        return;
      }
      var discarded := shaper.Clear();
      Append(PauseEvent);
      paused := true;
    }

    /** Resume: publish a live snapshot of the inventory past the shaper, then re-arm the deadband. */
    method OnResume(emptyInventory: bool, outcome: Option<seq<Reading>>, stamp: string)
      requires Valid() && open
      requires outcome.Some? ==> IsData(outcome.value)
      modifies this`log, this`paused, this`attempts, watchdog, shaper
      ensures Valid() && !paused
      ensures View().link == old(View()).link.(paused := false)
      ensures !old(paused) ==> log == old(log)
      ensures shaper.history == if old(paused) then Then(old(shaper.history), Event.ResetDeadband)
                                else old(shaper.history)
      ensures watchdog.phase == if old(paused) && !emptyInventory then Fresh else old(watchdog.phase)
      ensures old(paused) ==>
        var resumed := Then(old(log), ResumeEvent);
        if emptyInventory then log == resumed else Snapshotted(resumed, log, outcome, stamp, accepts, old(attempts))
    {
      if !paused {
        return;
      }
      paused := false;
      Append(ResumeEvent);
      if !emptyInventory {
        SnapshotAfterPause(outcome, stamp);
      }
      Rearm();
    }

    /** The resume snapshot: what is held is forgotten before the read is tried. */
    method SnapshotAfterPause(outcome: Option<seq<Reading>>, stamp: string)
      requires Valid() && open && !paused
      requires outcome.Some? ==> IsData(outcome.value)
      modifies this`log, this`attempts, watchdog
      ensures Valid() && View().link == old(View()).link
      ensures Snapshotted(old(log), log, outcome, stamp, accepts, old(attempts)) && watchdog.phase == Fresh
    {
      Rebaseline();
      if outcome.Some? {
        var published := PublishSnapshot(outcome.value, stamp);
      }
    }

    /** Forget what is held: a snapshot supersedes it. */
    method Rebaseline()
      requires Valid() && open
      modifies this`log, watchdog
      ensures Valid() && View().link == old(View()).link
      ensures watchdog.signals == map[] && watchdog.phase == Fresh && log == Then(old(log), Entry.Rebaselined)
    {
      watchdog.OnRebaseline();
      Append(Entry.Rebaselined);
    }

    method Rearm()
      requires Valid()
      modifies shaper
      ensures Valid() && View() == old(View()) && shaper.released == old(shaper.released)
      ensures shaper.history == Then(old(shaper.history), Event.ResetDeadband)
    {
      shaper.Rearm();
    }

    /** Publish what a live read answered. */
    method PublishSnapshot(answered: seq<Reading>, stamp: string) returns (published: nat)
      requires Valid() && open && !paused && IsData(answered)
      modifies this`log, this`attempts, watchdog
      ensures Valid() && View().link == old(View()).link && watchdog.phase == old(watchdog.phase)
      ensures var readings := Stamped(answered, stamp);
              Attempted(Then(old(log), Snapshot(readings)), log, OneByOne(readings), |readings|, false, accepts,
                        old(attempts))
      ensures published == Reaching(accepts, old(attempts), |answered|) && attempts == old(attempts) + |answered|
    {
      var readings := Stamped(answered, stamp);
      StampedIsData(answered, stamp);
      Append(Snapshot(readings));
      published := PublishReadings(readings);
    }

    /** Reconnect on request: nothing buffered is lost, the session is dropped, the reply is kept. */
    method OnReconnect(reply: nat) returns (exit: PollExit)
      requires Valid() && open && View().link.owed.None?
      modifies this`log, this`attempts, this`open, watchdog, shaper
      ensures Valid() && !open && shaper.buffers == map[]
      ensures shaper.history == Then(old(shaper.history), Event.FlushAll) && watchdog.phase == old(watchdog.phase)
      ensures exit == ReconnectExit(reply) && View().link == old(View()).link.(
        up := false, owed := Some(reply), ended := View().link.ended)
      ensures Ends(true, old(View()).link.ended)
    {
      FlushOpenWindows();
      Close();
      Append(ReconnectTaken(reply));
      exit := ReconnectExit(reply);
    }

    /** The link broke: flush, say so about every held value, drop the session. */
    method LoseLink(link: Option<PassiveLink>, stamp: string) returns (exit: PollExit, ghost j: Judgement)
      requires Valid() && open
      modifies this`log, this`attempts, this`open, watchdog, shaper
      ensures Valid() && !open && shaper.buffers == map[]
      ensures exit == LinkLost && View().link == old(View()).link.(up := false, ended := View().link.ended)
      ensures Ends(true, old(View()).link.ended)
      ensures Now() == Lost(old(Now()), link)
      ensures link.Some? && old(watchdog.phase) != Unreachable ==> OnTheLadder(link.value)
      ensures Flushed(old(log), j.log, old(shaper.released), old(attempts))
      ensures j.first == old(attempts) + |shaper.released| - |old(shaper.released)| && Spent(j, link)
      ensures log.Then? && JudgedFrom(j, log.past, old(watchdog.phase), watchdog.phase, accepts)
    {
      j := SayLost(link, stamp);
      Close();
      exit := LinkLost;
    }

    /** What a lost link still publishes: first the windows, then the judgement. */
    method SayLost(link: Option<PassiveLink>, stamp: string) returns (ghost j: Judgement)
      requires Valid() && open
      modifies this`log, this`attempts, watchdog, shaper
      ensures Valid() && shaper.buffers == map[] && View().link == old(View()).link
      ensures Now() == Lost(old(Now()), link)
      ensures link.Some? && old(watchdog.phase) != Unreachable ==> OnTheLadder(link.value)
      ensures Flushed(old(log), j.log, old(shaper.released), old(attempts))
      ensures j.first == old(attempts) + |shaper.released| - |old(shaper.released)| && Spent(j, link)
      ensures JudgedFrom(j, log, old(watchdog.phase), watchdog.phase, accepts)
    {
      FlushOpenWindows();
      j := PublishPassive(LostLink(link), stamp);
    }

    /** Repoll: say the whole current truth again, past the shaper; refused while paused. The reply counts what
        was published, or says why nothing was. */
    method OnRepoll(outcome: Option<seq<Reading>>, link: Option<PassiveLink>, stamp: string)
      returns (exit: PollExit, reply: Result<nat, RepollError>)
      requires Valid() && open
      requires outcome.Some? ==> IsData(outcome.value)
      modifies this`log, this`attempts, this`open, watchdog, shaper
      ensures Valid() && exit in {Running, LinkLost}
      ensures exit == Running ==> open && View().link == old(View()).link
      ensures exit == LinkLost <==> !paused && outcome.None?
      ensures Now() == if exit == LinkLost then Lost(old(Now()), link) else old(Now())
      ensures exit == LinkLost ==>
        && !open && shaper.buffers == map[] && Ends(true, old(View()).link.ended)
        && View().link == old(View()).link.(up := false, ended := View().link.ended)
      ensures exit == Running && paused ==> log == old(log) && attempts == old(attempts)
      ensures exit == Running && !paused ==>
        var readings := Stamped(outcome.value, stamp);
        && attempts == old(attempts) + |readings|
        && Attempted(Then(old(log), Snapshot(readings)), log, OneByOne(readings), |readings|, false, accepts,
                     old(attempts))
      ensures reply == if paused then Err(RefusedPaused) else if outcome.None? then Err(ReadFailed)
                       else Ok(Reaching(accepts, old(attempts), |outcome.value|))
    {
      exit := Running;
      if paused {
        reply := Err(RefusedPaused);
      } else if outcome.Some? {
        var published := PublishSnapshot(outcome.value, stamp);
        reply := Ok(published);
      } else {
        reply := Err(ReadFailed);
        ghost var j;
        exit, j := LoseLink(link, stamp);
      }
    }

    /** A tick drains the session; while running, what it drained is shaped, published and then judged. */
    method OnTick(outcome: Option<seq<Reading>>, snapshotDrained: bool, generation: Option<string>,
                  link: Option<PassiveLink>, stamp: string, now: nat) returns (exit: PollExit, ghost j: Judgement)
      requires Valid() && open
      requires ArmOk(Tick(outcome, snapshotDrained, generation, link, stamp, now), tables, shapingGen.Some?)
      modifies this`log, this`attempts, this`open, this`resynced, this`shapingGen, watchdog, shaper
      ensures Valid() && exit in {Running, LinkLost}
      ensures exit == Running ==> open && View().link == old(View()).link
      ensures exit == LinkLost ==>
        && !open && shaper.buffers == map[] && Ends(true, old(View()).link.ended)
        && View().link == old(View()).link.(up := false, ended := View().link.ended)
      ensures shapingGen.Some? == old(shapingGen).Some?
      ensures exit == LinkLost <==> outcome.None?
      ensures Now() == TickCourse(old(Now()), outcome, snapshotDrained, generation, link, stamp, now, tables,
          staleAfter)
      ensures exit == Running && paused ==> log == old(log) && attempts == old(attempts)
      ensures exit == Running && !paused && link.Some? ==>
        watchdog.phase != Since(old(resynced) || snapshotDrained, old(watchdog.phase)) ==> OnTheLadder(link.value)
      ensures exit == LinkLost ==> log.Then? && JudgedFrom(j, log.past, old(watchdog.phase), watchdog.phase, accepts)
      ensures exit == Running && !paused ==>
        JudgedFrom(j, log, Since(old(resynced) || snapshotDrained, old(watchdog.phase)), watchdog.phase, accepts)
      ensures j.first == old(attempts) + |shaper.released| - |old(shaper.released)| && Spent(j, link)
      ensures outcome == Some([]) && !paused && generation == old(shapingGen) ==>
        j.log == Then(Rebased(old(log), old(resynced) || snapshotDrained), Polled([])) && j.first == old(attempts)
    {
      if outcome.None? {
        exit, j := LoseLink(link, stamp);
        return;
      }
      exit, j := Running, Judgement(log, attempts, [], AgeOf(link));
      resynced := resynced || snapshotDrained;
      if paused {
        return;
      }
      j := StampedTick(outcome.value, generation, link, stamp, now);
    }

    /** A tick while running: what it drained gets the receive stamp first. */
    method StampedTick(drained: seq<Reading>, generation: Option<string>, link: Option<PassiveLink>, stamp: string,
                       now: nat) returns (ghost j: Judgement)
      requires Valid() && open && !paused && IsData(drained)
      requires shapingGen.Some? <==> generation.Some?
      requires generation.Some? ==> AllTravel(drained, tables(generation.value))
      modifies this`log, this`attempts, this`resynced, this`shapingGen, watchdog, shaper
      ensures Valid() && View().link == old(View()).link
      ensures Now() == Served(old(Now()), Stamped(drained, stamp), generation, link, now, tables, staleAfter)
      ensures link.Some? && watchdog.phase != Since(old(resynced), old(watchdog.phase)) ==> OnTheLadder(link.value)
      ensures JudgedFrom(j, log, Since(old(resynced), old(watchdog.phase)), watchdog.phase, accepts)
      ensures j.first == old(attempts) + |shaper.released| - |old(shaper.released)| && Spent(j, link)
      ensures drained == [] && generation == old(shapingGen) ==>
        j.log == Then(Rebased(old(log), old(resynced)), Polled([])) && j.first == old(attempts)
    {
      StampedIsData(drained, stamp);
      StampedTravels(drained, stamp, if generation.Some? then tables(generation.value) else map[]);
      j := RunningTick(Stamped(drained, stamp), generation, link, stamp, now);
    }

    /** A tick while running. */
    method RunningTick(readings: seq<Reading>, generation: Option<string>, link: Option<PassiveLink>, stamp: string,
                       now: nat) returns (ghost j: Judgement)
      requires Valid() && open && !paused && IsData(readings)
      requires shapingGen.Some? <==> generation.Some?
      requires generation.Some? ==> AllTravel(readings, tables(generation.value))
      modifies this`log, this`attempts, this`resynced, this`shapingGen, watchdog, shaper
      ensures Valid() && View().link == old(View()).link
      ensures Now() == Served(old(Now()), readings, generation, link, now, tables, staleAfter)
      ensures link.Some? && watchdog.phase != Since(old(resynced), old(watchdog.phase)) ==> OnTheLadder(link.value)
      ensures JudgedFrom(j, log, Since(old(resynced), old(watchdog.phase)), watchdog.phase, accepts)
      ensures j.first == old(attempts) + |shaper.released| - |old(shaper.released)| && Spent(j, link)
      ensures readings == [] && generation == old(shapingGen) ==>
        j.log == Then(Rebased(old(log), old(resynced)), Polled([])) && j.first == old(attempts)
    {
      TakeResync();
      j := ServeTick(readings, generation, link, stamp, now);
    }

    /** A drained snapshot re-baselines: the deadband and the watchdog start over. */
    method TakeResync()
      requires Valid() && open
      modifies this`log, this`resynced, watchdog, shaper
      ensures Valid() && View().link == old(View()).link && !resynced
      ensures shaper.released == old(shaper.released)
      ensures watchdog.phase == Since(old(resynced), old(watchdog.phase)) && log == Rebased(old(log), old(resynced))
      ensures shaper.history == if old(resynced) then Then(old(shaper.history), Event.ResetDeadband)
                                else old(shaper.history)
    {
      if resynced {
        resynced := false;
        Rearm();
        Rebaseline();
      }
    }

    /** Shape and publish what was drained, under the table it was served under, and judge the link. */
    method ServeTick(readings: seq<Reading>, generation: Option<string>, link: Option<PassiveLink>, stamp: string,
                     now: nat) returns (ghost j: Judgement)
      requires Valid() && open && !paused && !resynced && IsData(readings)
      requires shapingGen.Some? <==> generation.Some?
      requires generation.Some? ==> AllTravel(readings, tables(generation.value))
      modifies this`log, this`attempts, this`shapingGen, watchdog, shaper
      ensures Valid() && View().link == old(View()).link
      ensures Now() == Served(old(Now()), readings, generation, link, now, tables, staleAfter)
      ensures link.Some? && watchdog.phase != old(watchdog.phase) ==> OnTheLadder(link.value)
      ensures JudgedFrom(j, log, old(watchdog.phase), watchdog.phase, accepts)
      ensures j.first == old(attempts) + |shaper.released| - |old(shaper.released)| && Spent(j, link)
      ensures readings == [] && generation == old(shapingGen) ==>
        j.log == Then(old(log), Polled([])) && j.first == old(attempts)
    {
      ShapeUnder(generation, readings, now);
      j := PublishPassive(link, stamp);
    }

    /** Swap the policy table if the served set was recompiled, and only then offer what was drained. */
    method ShapeUnder(generation: Option<string>, readings: seq<Reading>, now: nat)
      requires Valid() && open && !paused && !resynced && IsData(readings)
      requires shapingGen.Some? <==> generation.Some?
      requires generation.Some? ==> AllTravel(readings, tables(generation.value))
      modifies this`log, this`attempts, this`shapingGen, watchdog, shaper
      ensures Valid() && View().link == old(View()).link
      ensures Now() == Served(old(Now()), readings, generation, None, now, tables, staleAfter)
      ensures attempts == old(attempts) + |shaper.released| - |old(shaper.released)|
      ensures readings == [] && generation == old(shapingGen) ==>
        log == Then(old(log), Polled([])) && attempts == old(attempts)
    {
      if generation.Some? && shapingGen != generation {
        SwapPolicies(generation.value);
      }
      ShapeAndPublish(readings, now);
    }

    /** A reload or a model drift recompiled the served set: swap the table, flushing changed windows. */
    method SwapPolicies(generation: string)
      requires Valid() && open && !paused
      requires shapingGen.Some? && shapingGen != Some(generation)
      modifies this`log, this`attempts, this`shapingGen, watchdog, shaper
      ensures Valid() && shapingGen == Some(generation)
      ensures shaper.history == Then(old(shaper.history), Event.SetPolicies(tables(generation)))
      ensures watchdog.phase == old(watchdog.phase)
      ensures View().link == old(View()).link
      ensures Flushed(old(log), log, old(shaper.released), old(attempts))
      ensures attempts == old(attempts) + |shaper.released| - |old(shaper.released)|
    {
      shapingGen := Some(generation);
      var flushed := shaper.SetPolicies(tables(generation));
      assert shaper.released == old(shaper.released) + flushed;
      HoldingsAreData(flushed, old(shaper.Holdings()));
      PublishShaped(flushed);
    }

    /** Offer what was drained to the shaper and publish what it releases. */
    method ShapeAndPublish(readings: seq<Reading>, now: nat)
      requires Valid() && open && !paused && IsData(readings)
      requires shapingGen.Some? ==> AllTravel(readings, tables(shapingGen.value))
      modifies this`log, this`attempts, watchdog, shaper
      ensures Valid() && View().link == old(View()).link
      ensures shaper.history == AllOffered(old(shaper.history), readings, now) && watchdog.phase == old(watchdog.phase)
      ensures Flushed(Then(old(log), Polled(readings)), log, old(shaper.released), old(attempts))
      ensures attempts == old(attempts) + |shaper.released| - |old(shaper.released)|
      ensures readings == [] ==> log == Then(old(log), Polled([])) && attempts == old(attempts)
    {
      Append(Polled(readings));
      var updates := OfferAll(readings, now);
      PublishReleased(updates);
    }

    /** Offer every drained reading, in order. */
    method OfferAll(readings: seq<Reading>, now: nat) returns (updates: seq<Update>)
      requires Accepts(log) && Buffering() && Routing() && !paused
      requires Offering(readings) && Handing([])
      requires IsData(readings) && forall r :: r in readings ==> r in View().flow.recent
      requires shapingGen.Some? ==> AllTravel(readings, tables(shapingGen.value))
      modifies shaper
      ensures Buffering() && Routing() && Offering([]) && Handing(updates)
      ensures NonEmpty(updates) && Within(updates, View().flow.recent) && forall u :: u in updates ==> IsData(u)
      ensures shaper.history == AllOffered(old(shaper.history), readings, now)
      ensures shaper.released == old(shaper.released) + updates && (readings == [] ==> updates == [])
    {
      updates := [];
      for n := 0 to |readings|
        invariant shaper.released == old(shaper.released) + updates && (n == 0 ==> updates == [])
        invariant Buffering() && Routing()
        invariant Handing(updates)
        invariant shaper.history == AllOffered(old(shaper.history), readings[..n], now)
        invariant NonEmpty(updates) && Within(updates, View().flow.recent)
        invariant forall u :: u in updates ==> IsData(u)
      {
        assert readings[n] in readings;
        var out := OfferOne(readings[n], now);
        updates := updates + out;
        assert readings[..n + 1][..n] == readings[..n];
      }
      assert readings[..|readings|] == readings;
      AllOfferedIsOffered(old(shaper.history), readings, now);
    }

    /** Offer one drained reading. */
    method OfferOne(reading: Reading, now: nat) returns (out: seq<Update>)
      requires Accepts(log) && Buffering() && Routing() && !paused
      requires reading in View().flow.recent && !IsSynthetic(reading)
      requires shapingGen.Some? && reading.signalId in shaper.policies ==>
        Travels(reading, shaper.policies[reading.signalId])
      modifies shaper
      ensures Buffering() && Routing()
      ensures shaper.history == Then(old(shaper.history), Event.Offer(reading, now))
      ensures shaper.released == old(shaper.released) + out
      ensures NonEmpty(out) && Within(out, View().flow.recent) && forall u :: u in out ==> IsData(u)
    {
      assert Holds(reading.signalId, shaper.LaneOf(reading.signalId), shaper.history);
      out := shaper.Offer(reading, now);
      HoldingsAreData(out, old(shaper.Holdings()) + {reading});
    }

    /** A window expired: release what is due. */
    method OnDeadline(now: nat)
      requires Valid() && open
      modifies this`log, this`attempts, watchdog, shaper
      ensures Valid() && open && View().link == old(View()).link
      ensures Now() == old(Now()).(h :=
        if old(shaper.buffers) == map[] then old(shaper.history) else Then(old(shaper.history), Event.Due(now)))
      ensures Flushed(old(log), log, old(shaper.released), old(attempts))
      ensures attempts == old(attempts) + |shaper.released| - |old(shaper.released)|
    {
      var next := shaper.NextDeadline();
      if next.None? {
        return;
      }
      var out := shaper.Due(now);
      HoldingsAreData(out, old(shaper.Holdings()));
      UpdatesComeFromSomewhere(out, old(shaper.Holdings()));
      PublishReleased(out);
    }

    // -------------------------------------------------------------------------------------------
    // The loops
    // -------------------------------------------------------------------------------------------

    /** The poll loop, over any script of arms. */
    method RunPolling(arms: seq<Arm>) returns (exit: PollExit)
      requires Valid() && open && View().link.owed.None? && !View().link.stopping
      requires forall i :: 0 <= i < |arms| ==> ArmOk(arms[i], tables, shapingGen.Some?)
      modifies this`log, this`attempts, this`open, this`paused, this`resynced, this`shapingGen, watchdog, shaper
      ensures Valid()
      ensures exit == ExitAfter(old(Now()), arms, tables, staleAfter)
      ensures Now() == CourseAfter(old(Now()), arms, tables, staleAfter)
      ensures exit == Running <==> open
      ensures exit != Running ==> shaper.buffers == map[]
      ensures View().link == old(View()).link.(
        up := open, paused := paused, stopping := exit == Closed,
        owed := if exit.ReconnectExit? then Some(exit.reply) else None, ended := View().link.ended)
      ensures Ends(exit != Running, old(View()).link.ended)
    {
      exit := Running;
      for n := 0 to |arms|
        invariant Valid() && open && exit == Running
        invariant View().link == old(View()).link.(paused := paused)
        invariant shapingGen.Some? == old(shapingGen).Some?
        invariant ExitAfter(Now(), arms[n..], tables, staleAfter) == ExitAfter(old(Now()), arms, tables, staleAfter)
        invariant CourseAfter(Now(), arms[n..], tables, staleAfter) == CourseAfter(old(Now()), arms, tables, staleAfter)
      {
        assert arms[n..][0] == arms[n] && arms[n..][1..] == arms[n + 1..];
        exit := OnArm(arms[n]);
        if exit != Running { return; }
      }
    }

    lemma WindowsAreInTheHistory()
      requires shaper.Valid()
      ensures shaper.buffers == map[] <==> !AnyWindow(shaper.history)
    {
      forall id ensures id in shaper.buffers <==> RunLane(id, shaper.history).lane.buffer.Some? {
        assert Holds(id, shaper.LaneOf(id), shaper.history);
      }
    }

    /** One arm of the poll loop. */
    method OnArm(arm: Arm) returns (exit: PollExit)
      requires Valid() && open && View().link.owed.None? && !View().link.stopping
      requires ArmOk(arm, tables, shapingGen.Some?)
      modifies this`log, this`attempts, this`open, this`paused, this`resynced, this`shapingGen, watchdog, shaper
      ensures Took(arm, exit, old(Now()), old(View()).link)
      ensures arm.OtherCommand? ==> log == old(log)
    {
      match arm
      case Cancel => exit := OnStop(arm);
      case ControlClosed => exit := OnStop(arm);
      case OtherCommand => exit := Running;
      case Pause => exit := OnGate(arm);
      case Resume(_, _, _) => exit := OnGate(arm);
      case Reconnect(reply) => exit := OnStop(arm);
      case Repoll(outcome, link, stamp) =>
        var reply;
        exit, reply := OnRepoll(outcome, link, stamp);
      case Tick(outcome, snapshotDrained, generation, link, stamp, now) =>
        ghost var j;
        exit, j := OnTick(outcome, snapshotDrained, generation, link, stamp, now);
      case Deadline(now) => exit := OnTimer(now);
    }

    /** The arms that end the session on purpose. */
    method OnStop(arm: Arm) returns (exit: PollExit)
      requires Valid() && open && View().link.owed.None? && !View().link.stopping
      requires arm.Cancel? || arm.ControlClosed? || arm.Reconnect?
      modifies this`log, this`attempts, this`open, watchdog, shaper
      ensures Took(arm, exit, old(Now()), old(View()).link)
    {
      if arm.Reconnect? {
        exit := OnReconnect(arm.reply);
      } else {
        exit := StopCleanly();
      }
    }

    /** The arms that move the gate. */
    method OnGate(arm: Arm) returns (exit: PollExit)
      requires Valid() && open && (arm.Pause? || arm.Resume?) && ArmOk(arm, tables, shapingGen.Some?)
      modifies this`log, this`paused, this`attempts, watchdog, shaper
      ensures Took(arm, exit, old(Now()), old(View()).link)
    {
      exit := Running;
      if arm.Pause? {
        OnPause();
      } else {
        OnResume(arm.emptyInventory, arm.outcome, arm.stamp);
      }
    }

    /** The batch timer. */
    method OnTimer(now: nat) returns (exit: PollExit)
      requires Valid() && open
      modifies this`log, this`attempts, watchdog, shaper
      ensures Took(Deadline(now), exit, old(Now()), old(View()).link)
    {
      WindowsAreInTheHistory();
      OnDeadline(now);
      exit := Running;
    }

    /** Serve the control channel while no session is open. */
    method ServeWhileDown(events: seq<DownEvent>) returns (outcome: DownOutcome)
      requires Down(None)
      modifies this`log, this`paused
      ensures outcome == DownAfter(events) && paused == DownPaused(events, old(paused))
      ensures outcome == Waiting <==> forall k :: !FirstDecision(events, k)
      ensures outcome == Shutdown <==>
        exists k :: FirstDecision(events, k) && (events[k].DownCancel? || events[k].DownClosed?)
      ensures outcome == Elapsed <==> exists k :: FirstDecision(events, k) && events[k].DownElapsed?
      ensures outcome.ReconnectNow? <==> exists k :: FirstDecision(events, k) && events[k].DownReconnect?
      ensures outcome.ReconnectNow? ==>
        exists k :: FirstDecision(events, k) && events[k] == DownReconnect(outcome.reply)
      ensures Down(if outcome.ReconnectNow? then Some(outcome.reply) else None)
      ensures View().link == old(View()).link.(
        paused := paused, owed := if outcome.ReconnectNow? then Some(outcome.reply) else None)
    {
      DownEndsExactlyWhen(events);
      for n := 0 to |events|
        invariant Down(None)
        invariant View().link == old(View()).link.(paused := paused)
        invariant DownAfter(events[n..]) == DownAfter(events)
        invariant DownPaused(events[n..], paused) == DownPaused(events, old(paused))
      {
        assert events[n..][0] == events[n] && events[n..][1..] == events[n + 1..];
        match events[n]
        case DownCancel => return Shutdown;
        case DownClosed => return Shutdown;
        case DownReconnect(reply) =>
          Append(ReconnectTaken(reply));
          return ReconnectNow(reply);
        case DownPause =>
          if !paused {
            Append(PauseEvent);
            paused := true;
          }
        case DownResume =>
          if paused {
            Append(ResumeEvent);
            paused := false;
          }
        case DownRefused =>
        case DownElapsed => return Elapsed;
      }
      outcome := Waiting;
    }

    /** A connect attempt succeeded: clear the alarm and answer whoever asked for it. */
    method OpenLink(pending: Option<nat>)
      requires Down(pending) && View().link.alarm != Some(false)
      modifies this`log, this`open
      ensures OnLine() && open
      ensures View().link == old(View()).link.(
        up := true, alarm := Some(false), owed := None, tried := old(View()).link.tried + 1)
      ensures var f := View().flow;
              f.recent == {} && f.shaped == [] && f.polled == [] && !f.interrupted && f.held == map[]
    {
      Append(ConnectTried);
      Append(SessionOpened);
      open := true;
      Append(AlarmCleared);
      if pending.Some? {
        Append(Answered(pending.value, true));
      }
    }

    /** A session opens with a fresh shaper and a fresh watchdog, under the session's own policy table. */
    method StartSession(generation: Option<string>, configured: Policies, pending: Option<nat>)
      requires Down(pending) && View().link.alarm != Some(false)
      modifies this
      ensures Valid() && open && fresh(shaper) && fresh(watchdog) && attempts == old(attempts)
      ensures View().link == old(View()).link.(
        up := true, alarm := Some(false), owed := None, tried := old(View()).link.tried + 1)
      ensures Now() == Opening(Connected(generation, configured, []), old(paused), tables)
      ensures View().flow.held == map[]
    {
      OpenLink(pending);
      Prepare(generation, if generation.Some? then tables(generation.value) else configured);
    }

    /** The parts of a new session. */
    method Prepare(generation: Option<string>, table: Policies)
      requires OnLine() && open && (generation.Some? ==> table == tables(generation.value))
      requires var f := View().flow;
               f.recent == {} && f.shaped == [] && f.polled == [] && !f.interrupted && f.held == map[]
      modifies this`resynced, this`shapingGen, this`watchdog, this`shaper
      ensures Valid() && fresh(shaper) && fresh(watchdog)
      ensures Now() == Course(Then(Start, Event.SetPolicies(table)), paused, false, generation, Fresh)
    {
      resynced, shapingGen := false, generation;
      watchdog := new QualityWatchdog();
      shaper := new Shaper();
      var flushed := shaper.SetPolicies(table);
      UpdatesComeFromSomewhere(flushed, {});
    }

    /** A connect attempt failed: answer whoever asked for it, and serve control until the next one. */
    method Fail(down: seq<DownEvent>, pending: Option<nat>) returns (outcome: DownOutcome)
      requires Down(pending)
      modifies this`log, this`paused
      ensures outcome == DownAfter(down) && paused == DownPaused(down, old(paused))
      ensures Down(if outcome.ReconnectNow? then Some(outcome.reply) else None)
      ensures View().link.tried == old(View()).link.tried + 1 && View().link.alarm == old(View()).link.alarm
      ensures View().link.ended == old(View()).link.ended
    {
      Append(ConnectTried);
      Append(ConnectFailed);
      if pending.Some? {
        Append(Answered(pending.value, false));
      }
      outcome := ServeWhileDown(down);
    }

    /** The device task: connect, poll, reconnect, over any script. It makes as many connect attempts as the script
        asks for before it is stopped, and each session that ends carried to the wire, per signal, exactly what that
        session's script makes of its readings. */
    method RunDevice(script: seq<Attempt>)
      requires log == Start && Down(None) && !paused
      requires forall i :: 0 <= i < |script| ==> AttemptOk(script[i])
      modifies this, shaper, watchdog
      ensures Accepts(log)
      ensures open ==> Valid()
      ensures var account := AccountOf(Account(0, []), script, false, tables, staleAfter);
              View().link.tried == account.tries && AllEnd(View().link.ended, account.histories)
      ensures forall k :: RetriedUpTo(script, k) ==> View().link.tried > k
    {
      RetriesAreMade(script, tables, staleAfter);
      ghost var so := Account(0, []);
      var pending: Option<nat> := None;
      for n := 0 to |script|
        invariant Down(pending) && View().link.alarm != Some(false)
        invariant fresh(shaper) || shaper == old(shaper)
        invariant fresh(watchdog) || watchdog == old(watchdog)
        invariant View().link.tried == so.tries && AllEnd(View().link.ended, so.histories)
        invariant AccountOf(so, script[n..], paused, tables, staleAfter)
                  == AccountOf(Account(0, []), script, false, tables, staleAfter)
      {
        assert script[n..][0] == script[n] && script[n..][1..] == script[n + 1..];
        ghost var before, more := View().link.ended, HistoryOf(script[n], paused, tables, staleAfter);
        var stop;
        stop, pending := Attend(script[n], pending);
        AllEndMore(before, View().link.ended, so.histories, more);
        so := Account(so.tries + 1, so.histories + more);
        if stop {
          return;
        }
      }
    }

    ghost predicate AttemptOk(attempt: Attempt) {
      attempt.Connected? ==>
        forall k :: 0 <= k < |attempt.arms| ==> ArmOk(attempt.arms[k], tables, attempt.generation.Some?)
    }

    /** One connect attempt and what follows it. */
    method Attend(attempt: Attempt, pending: Option<nat>) returns (stop: bool, next: Option<nat>)
      requires Down(pending) && View().link.alarm != Some(false) && AttemptOk(attempt)
      modifies this
      ensures Accepts(log) && (open ==> Valid())
      ensures (fresh(shaper) && fresh(watchdog)) || (shaper == old(shaper) && watchdog == old(watchdog))
      ensures stop == Stops(attempt, old(paused), tables, staleAfter)
      ensures !stop ==> Down(next) && View().link.alarm != Some(false)
      ensures !stop ==> paused == PausedAfter(attempt, old(paused), tables, staleAfter)
      ensures View().link.tried == old(View()).link.tried + 1
      ensures EndsMore(old(View()).link.ended, View().link.ended, HistoryOf(attempt, old(paused), tables, staleAfter))
    {
      next := None;
      match attempt
      case CancelledConnecting =>
        Append(ConnectTried);
        stop := true;
      case Refused(down) =>
        var outcome := Fail(down, pending);
        stop := outcome == Shutdown || outcome == Waiting;
        if outcome.ReconnectNow? {
          next := Some(outcome.reply);
        }
      case Connected(generation, configured, arms) =>
        var exit := Serve(generation, configured, arms, pending);
        stop := exit == Closed || exit == Running;
        if exit.ReconnectExit? {
          next := Some(exit.reply);
        }
    }

    /** One session, from the connect that opened it to the alarm its loss raises. */
    method Serve(generation: Option<string>, configured: Policies, arms: seq<Arm>, pending: Option<nat>)
      returns (exit: PollExit)
      requires Down(pending) && View().link.alarm != Some(false)
      requires forall k :: 0 <= k < |arms| ==> ArmOk(arms[k], tables, generation.Some?)
      modifies this
      ensures fresh(shaper) && fresh(watchdog)
      ensures var c := Opening(Connected(generation, configured, arms), old(paused), tables);
              && exit == ExitAfter(c, arms, tables, staleAfter)
              && paused == CourseAfter(c, arms, tables, staleAfter).paused
      ensures Valid() && View().link.tried == old(View()).link.tried + 1
      ensures var c := Opening(Connected(generation, configured, arms), old(paused), tables);
              if exit == Running then View().link.ended == old(View()).link.ended
              else EndsOne(old(View()).link.ended, View().link.ended, CourseAfter(c, arms, tables, staleAfter).h)
      ensures exit !in {Running, Closed} ==>
        Down(if exit.ReconnectExit? then Some(exit.reply) else None) && View().link.alarm == Some(true)
    {
      StartSession(generation, configured, pending);
      exit := RunPolling(arms);
      if exit != Closed && exit != Running {
        Append(AlarmRaised);
      }
    }
  }

  /** The readings a watchdog holds. */
  function HeldIn(signals: map<string, SignalRecord>): map<string, Reading> {
    map id | id in signals :: signals[id].held
  }

  lemma HoldsOneMore(signals: map<string, SignalRecord>, id: string, record: SignalRecord)
    ensures HeldIn(signals[id := record]) == HeldIn(signals)[id := record.held]
  {
  }

  lemma SameHeld(a: map<string, SignalRecord>, b: map<string, SignalRecord>)
    requires a.Keys == b.Keys && forall id :: id in a ==> a[id].held == b[id].held
    ensures HeldIn(a) == HeldIn(b)
  {
  }

  /** The phase a judgement starts from: a drained snapshot starts the ladder over. */
  function Since(resynced: bool, phase: PassivePhase): PassivePhase {
    if resynced then Fresh else phase
  }

  function Rebased(log: Log, resynced: bool): Log {
    if resynced then Then(log, Entry.Rebaselined) else log
  }

  /** What publishing leaves alone in the session's flow. */
  ghost predicate SameFlow(a: Flow, b: Flow) {
    a.recent == b.recent && a.polled == b.polled && a.interrupted == b.interrupted
  }

  /** What the fleet sees of a signal did not change. */
  ghost predicate SameShown(id: string, a: Flow, b: Flow) {
    Get(a.shown, id) == Get(b.shown, id)
  }

  /** A signal is shown at least as bad as a phase makes it. */
  predicate ShownAtLeast(id: string, f: Flow, phase: PassivePhase) {
    id in f.shown && Severity(f.shown[id].0) >= Severity(Floor(phase))
  }

  /** What a judgement does to what the fleet sees of one signal. Only held signals are touched, and only by a
      change of phase. After a change, a held signal is shown the ladder's verdict on what is held exactly when it was
      before or the wire refused nothing about it. After a change into a phase other than Fresh, a signal is shown at
      least as bad as the phase makes it exactly when it was before, or it is held and the wire refused nothing. */
  ghost predicate JudgesOne(id: string, before: Flow, after: Flow, was: PassivePhase, phase: PassivePhase, ageMs: nat) {
    && (id !in after.held || was == phase ==> SameShown(id, after, before))
    && (id in after.shown <==> id in before.shown)
    && (was != phase && id in after.held ==>
          var verdict := Some(VerdictIn(phase, after.held[id], ageMs));
          (Get(after.shown, id) == verdict <==> Get(before.shown, id) == verdict || id !in after.lost))
    && (was != phase && phase != Fresh && id in after.shown ==>
          (ShownAtLeast(id, after, phase)
           <==> ShownAtLeast(id, before, phase) || (id in after.held && id !in after.lost)))
  }

  /** A judgement: the log it found, the number of its first attempt, what it attempted, in order, and the age it
      reports. */
  datatype Judgement = Judgement(log: Log, first: nat, out: seq<Reading>, ageMs: nat)

  /** The age a judgement reports. */
  function AgeOf(link: Option<PassiveLink>): nat {
    if link.Some? then AgeMs(link.value) else 0
  }

  /** A held value that was not BAD anyway, published again under the ladder's verdict, with everything else but the
      receive stamp as it was delivered. */
  predicate Republishes(r: Reading, holdings: map<string, Reading>, phase: PassivePhase, ageMs: nat) {
    && r.signalId in holdings
    && var held := holdings[r.signalId];
       && held.quality != Bad && (r.quality, r.qualityRaw) == VerdictIn(phase, held, ageMs)
       && r.value == held.value && r.name == held.name
       && r.sourceTs == held.sourceTs && r.captureTs == held.captureTs
       && r.channel == held.channel && r.componentPath == held.componentPath
       && r.extra.Some?
       && (held.extra.Some? ==>
             forall key :: key in held.extra.value && key != "passive" ==>
               Get(r.extra.value, key) == Some(held.extra.value[key]))
  }

  lemma TransitionsAnnounce(transitions: seq<Reading>, stamp: string, signals: map<string, SignalRecord>,
                            wire: map<string, Verdict>)
    requires IsPassive(transitions) && forall r :: r in transitions ==> Announces(r, signals, wire)
    requires forall i, j :: 0 <= i < j < |transitions| ==>
      StringLess(transitions[i].signalId, transitions[j].signalId)
    ensures var readings := Stamped(transitions, stamp);
            && IsPassive(readings) && (forall r :: r in readings ==> Announces(r, signals, wire))
            && forall i, j :: 0 <= i < j < |readings| ==> readings[i].signalId != readings[j].signalId
  {
    var readings := Stamped(transitions, stamp);
    forall r | r in readings ensures IsSynthetic(r) && Announces(r, signals, wire) {
      var i :| 0 <= i < |readings| && readings[i] == r;
      assert transitions[i] in transitions;
    }
    forall i, j | 0 <= i < j < |readings| ensures readings[i].signalId != readings[j].signalId {
      StringLessTotal(transitions[i].signalId, transitions[j].signalId);
    }
  }

  lemma TransitionsRepublish(transitions: seq<Reading>, stamp: string, signals: map<string, SignalRecord>,
                             phase: PassivePhase, ageMs: nat)
    requires forall r :: r in transitions ==> Republishes(r, HeldIn(signals), phase, ageMs)
    ensures forall r :: r in Stamped(transitions, stamp) ==>
      Republishes(r, HeldIn(signals), phase, ageMs) && r.receivedTs.Some?
    ensures forall id :: SpeaksOf(id, transitions) ==> id in IdsOf(Stamped(transitions, stamp))
  {
    var stamped := Stamped(transitions, stamp);
    forall r | r in stamped ensures Republishes(r, HeldIn(signals), phase, ageMs) && r.receivedTs.Some? {
      var i :| 0 <= i < |stamped| && stamped[i] == r;
      assert transitions[i] in transitions;
    }
    forall id | SpeaksOf(id, transitions) ensures id in IdsOf(stamped) {
      var i :| 0 <= i < |transitions| && transitions[i].signalId == id;
      assert stamped[i] in stamped;
    }
  }

  /** A log grew by a judgement that moved the phase from `was`: each held value was republished at most once, and
      into a degraded phase each that was not BAD. */
  ghost predicate JudgedFrom(j: Judgement, after: Log, was: PassivePhase, phase: PassivePhase, accepts: iset<nat>) {
    && Accepts(j.log) && Accepts(after)
    && IsPassive(j.out) && (was == phase ==> j.out == [])
    && IdsOf(j.out) <= Replay(after).value.flow.held.Keys
    && (forall a, b :: 0 <= a < b < |j.out| ==> j.out[a].signalId != j.out[b].signalId)
    && (forall r :: r in j.out ==>
          Republishes(r, Replay(after).value.flow.held, phase, j.ageMs) && r.receivedTs.Some?)
    && (was != phase && phase != Fresh ==> forall id :: id in Replay(after).value.flow.held ==>
          Replay(after).value.flow.held[id].quality == Bad || id in IdsOf(j.out))
    && Attempted(j.log, after, OneByOne(j.out), |j.out|, false, accepts, j.first)
    && Replay(after).value.flow.held == Replay(j.log).value.flow.held
    && Judges(Replay(j.log).value.flow, Replay(after).value.flow, was, phase, j.ageMs)
  }

  ghost predicate Judges(before: Flow, after: Flow, was: PassivePhase, phase: PassivePhase, ageMs: nat) {
    forall id :: JudgesOne(id, before, after, was, phase, ageMs)
  }

  /** The fleet saw last what the watchdog counts on, unless the publish failed. */
  ghost predicate Matches(id: string, wire: map<string, Verdict>, f: Flow) {
    id in f.lost || (id in wire && id in f.shown && f.shown[id] == wire[id])
  }

  /** A synthetic reading that says what the watchdog counts on. */
  ghost predicate Announces(r: Reading, signals: map<string, SignalRecord>, wire: map<string, Verdict>) {
    r.signalId in signals && r.signalId in wire && wire[r.signalId] == r.Verdict()
  }

  lemma HoldingsAreData(updates: seq<Update>, holdings: set<Reading>)
    requires Within(updates, holdings) && forall r :: r in holdings ==> !IsSynthetic(r)
    ensures forall u :: u in updates ==> IsData(u)
  {
  }

  lemma {:induction false} AllOfferedIsOffered(h: Trace, readings: seq<Reading>, now: nat)
    ensures Offered(AllOffered(h, readings, now)) == Offered(h) + readings
    ensures NeverCleared(AllOffered(h, readings, now)) <==> NeverCleared(h)
  {
    if readings != [] {
      var n := |readings| - 1;
      AllOfferedIsOffered(h, readings[..n], now);
      assert readings == readings[..n] + [readings[n]];
    }
  }

  /** Publishing the watchdog's own output leaves everything but what the fleet sees alone. */
  lemma {:induction false} PassiveKeepsTheRest(before: Log, after: Log, readings: seq<Reading>, n: nat,
                                               accepts: iset<nat>, attempt: nat)
    requires n <= |readings| && IsPassive(readings) && Accepts(after)
    requires Attempted(before, after, OneByOne(readings), n, false, accepts, attempt)
    ensures Accepts(before)
    ensures var b, a := Replay(before).value, Replay(after).value;
            && a.link == b.link && SameFlow(a.flow, b.flow)
            && a.flow.shaped == b.flow.shaped && a.flow.held == b.flow.held
  {
    if n > 0 {
      PassiveKeepsTheRest(before, after.past, readings, n - 1, accepts, attempt);
      var last := OneByOne(readings)[n - 1];
      assert last[0] in last && readings[n - 1] in readings;
    }
  }

  /** Where a reading about a signal first stands. */
  function FirstAbout(id: string, readings: seq<Reading>): (k: nat)
    ensures k <= |readings| && (k < |readings| ==> readings[k].signalId == id)
    ensures forall i :: 0 <= i < k ==> readings[i].signalId != id
  {
    if readings == [] || readings[0].signalId == id then 0
    else
      var k := FirstAbout(id, readings[1..]);
      assert forall i :: 1 <= i < k + 1 ==> readings[i] == readings[1..][i - 1];
      k + 1
  }

  /** What one attempt about a signal does to what the fleet sees of it. */
  lemma OneAttempt(f: Flow, reading: Reading, reached: bool, id: string)
    requires IsSynthetic(reading)
    ensures var g := ObserveFlow(f, Handed([reading], false, reached));
            if reading.signalId != id then SameShown(id, g, f) && (id in g.lost <==> id in f.lost)
            else if reached then id in g.shown && g.shown[id] == reading.Verdict() && id !in g.lost
            else SameShown(id, g, f) && id in g.lost
  {
    assert reading in [reading] && IdsOf([reading]) == {reading.signalId};
    assert [reading][..0] == [] && Shows(f.shown, []) == f.shown;
  }

  /** Publishing the watchdog's own output, at most one reading a signal: the fleet sees a reading that
      reached the wire, and what it saw before of every other signal. */
  lemma {:induction false} PassiveReachesSoFar(before: Log, after: Log, readings: seq<Reading>, n: nat, k: nat,
                                               accepts: iset<nat>, attempt: nat, id: string)
    requires n <= |readings| && IsPassive(readings) && Accepts(after) && k <= |readings|
    requires Attempted(before, after, OneByOne(readings), n, false, accepts, attempt)
    requires forall i :: 0 <= i < |readings| ==> (readings[i].signalId == id <==> i == k)
    ensures Accepts(before)
    ensures var b, a := Replay(before).value.flow, Replay(after).value.flow;
            if k < n && attempt + k in accepts then
              id in a.shown && a.shown[id] == readings[k].Verdict() && id !in a.lost
            else SameShown(id, a, b) && (id in a.lost <==> k < n || id in b.lost)
  {
    if n > 0 {
      PassiveReachesSoFar(before, after.past, readings, n - 1, k, accepts, attempt, id);
      assert readings[n - 1] in readings && OneByOne(readings)[n - 1] == [readings[n - 1]];
      assert after.event == Handed([readings[n - 1]], false, attempt + n - 1 in accepts);
      assert readings[n - 1].signalId == id <==> k == n - 1;
      OneAttempt(Replay(after.past).value.flow, readings[n - 1], attempt + n - 1 in accepts, id);
    }
  }

  /** What some attempts about distinct signals do to what the fleet sees of one, given what became of its own. */
  ghost predicate Reaches(id: string, before: Flow, after: Flow, readings: seq<Reading>, reached: bool) {
    var k := FirstAbout(id, readings);
    if k < |readings| && reached then
      id in after.shown && after.shown[id] == readings[k].Verdict() && id !in after.lost
    else SameShown(id, after, before) && (id in after.lost <==> k < |readings| || id in before.lost)
  }

  lemma PassiveReaches(before: Log, after: Log, readings: seq<Reading>, accepts: iset<nat>, attempt: nat, id: string)
    requires IsPassive(readings) && Accepts(after)
    requires Attempted(before, after, OneByOne(readings), |readings|, false, accepts, attempt)
    requires forall i, j :: 0 <= i < j < |readings| ==> readings[i].signalId != readings[j].signalId
    ensures Accepts(before)
    ensures Reaches(id, Replay(before).value.flow, Replay(after).value.flow, readings,
                    attempt + FirstAbout(id, readings) in accepts)
  {
    PassiveReachesSoFar(before, after, readings, |readings|, FirstAbout(id, readings), accepts, attempt, id);
  }

  lemma JudgedOne(id: string, before: Flow, after: Flow, readings: seq<Reading>, reached: bool,
                  signals: map<string, SignalRecord>, wire: map<string, Verdict>, was: PassivePhase,
                  phase: PassivePhase, ageMs: nat)
    requires Reaches(id, before, after, readings, reached)
    requires forall r :: r in readings ==> Announces(r, signals, wire)
    requires HeldIn(signals) == after.held && before.held == after.held && before.held.Keys <= before.shown.Keys
    requires id in signals && id !in IdsOf(readings) ==> Matches(id, wire, before)
    requires was == phase ==> readings == []
    requires was != phase && id in signals ==>
      id in wire && wire[id] == VerdictIn(phase, signals[id].held, ageMs)
    ensures id in signals ==> Matches(id, wire, after)
    ensures JudgesOne(id, before, after, was, phase, ageMs)
  {
    var k := FirstAbout(id, readings);
    if k < |readings| {
      assert readings[k] in readings;
    } else {
      assert id !in IdsOf(readings);
    }
    if id in signals {
      LadderTakesTheWorse(phase, signals[id].held, ageMs);
    }
  }

  /** Publishing what a judgement put out: the fleet sees what the watchdog counts on, save where it was refused. */
  lemma JudgementReaches(j: Judgement, after: Log, accepts: iset<nat>, signals: map<string, SignalRecord>,
                         wire: map<string, Verdict>, was: PassivePhase, phase: PassivePhase)
    requires Accepts(j.log) && Accepts(after) && IsPassive(j.out) && (was == phase ==> j.out == [])
    requires Attempted(j.log, after, OneByOne(j.out), |j.out|, false, accepts, j.first)
    requires forall a, b :: 0 <= a < b < |j.out| ==> j.out[a].signalId != j.out[b].signalId
    requires forall r :: r in j.out ==> Announces(r, signals, wire)
    requires HeldIn(signals) == Replay(j.log).value.flow.held
    requires forall id :: id in signals && id !in IdsOf(j.out) ==> Matches(id, wire, Replay(j.log).value.flow)
    requires was != phase ==> forall id :: id in signals ==>
      id in wire && wire[id] == VerdictIn(phase, signals[id].held, j.ageMs)
    requires forall r :: r in j.out ==> Republishes(r, HeldIn(signals), phase, j.ageMs) && r.receivedTs.Some?
    requires was != phase && phase != Fresh ==> forall id :: id in signals ==>
      signals[id].held.quality == Bad || id in IdsOf(j.out)
    ensures JudgedFrom(j, after, was, phase, accepts)
    ensures forall id :: id in signals ==> Matches(id, wire, Replay(after).value.flow)
    ensures var b, a := Replay(j.log).value, Replay(after).value;
            a.link == b.link && SameFlow(a.flow, b.flow) && a.flow.shaped == b.flow.shaped
  {
    PassiveKeepsTheRest(j.log, after, j.out, |j.out|, accepts, j.first);
    forall id ensures id in signals ==> Matches(id, wire, Replay(after).value.flow)
              ensures JudgesOne(id, Replay(j.log).value.flow, Replay(after).value.flow, was, phase, j.ageMs)
    {
      JudgementReachesOne(j, after, accepts, signals, wire, was, phase, id);
    }
  }

  lemma JudgementReachesOne(j: Judgement, after: Log, accepts: iset<nat>, signals: map<string, SignalRecord>,
                            wire: map<string, Verdict>, was: PassivePhase, phase: PassivePhase, id: string)
    requires Accepts(j.log) && Accepts(after) && IsPassive(j.out) && (was == phase ==> j.out == [])
    requires Attempted(j.log, after, OneByOne(j.out), |j.out|, false, accepts, j.first)
    requires forall a, b :: 0 <= a < b < |j.out| ==> j.out[a].signalId != j.out[b].signalId
    requires forall r :: r in j.out ==> Announces(r, signals, wire)
    requires HeldIn(signals) == Replay(j.log).value.flow.held
    requires id in signals && id !in IdsOf(j.out) ==> Matches(id, wire, Replay(j.log).value.flow)
    requires was != phase && id in signals ==>
      id in wire && wire[id] == VerdictIn(phase, signals[id].held, j.ageMs)
    ensures id in signals ==> Matches(id, wire, Replay(after).value.flow)
    ensures JudgesOne(id, Replay(j.log).value.flow, Replay(after).value.flow, was, phase, j.ageMs)
  {
    PassiveKeepsTheRest(j.log, after, j.out, |j.out|, accepts, j.first);
    HeldIsShown(j.log);
    PassiveReaches(j.log, after, j.out, accepts, j.first, id);
    JudgedOne(id, Replay(j.log).value.flow, Replay(after).value.flow, j.out,
              j.first + FirstAbout(id, j.out) in accepts, signals, wire, was, phase, j.ageMs);
  }

  lemma UpdatesComeFromSomewhere(updates: seq<Update>, holdings: set<Reading>)
    requires NonEmpty(updates) && Within(updates, holdings)
    ensures updates != [] ==> holdings != {}
  {
    if updates != [] {
      var first: Update := updates[0];
      assert first in updates && first[0] in first;
    }
  }

  /** What some readings show of a signal does not depend on what was shown before, and they show nothing
      of signals they do not name. */
  lemma {:induction false} ShowsAgree(a: map<string, Verdict>, b: map<string, Verdict>, readings: seq<Reading>,
                                      id: string)
    ensures id in IdsOf(readings) ==>
              id in Shows(a, readings) && id in Shows(b, readings) && Shows(a, readings)[id] == Shows(b, readings)[id]
    ensures id !in IdsOf(readings) ==>
              && (id in Shows(a, readings) <==> id in a) && (id in a ==> Shows(a, readings)[id] == a[id])
              && (id in Shows(b, readings) <==> id in b) && (id in b ==> Shows(b, readings)[id] == b[id])
  {
    if readings != [] {
      var n := |readings| - 1;
      ShowsAgree(a, b, readings[..n], id);
      IdsOfSnoc(readings, n);
      assert readings[..n + 1] == readings;
    }
  }

  lemma StampedIsData(readings: seq<Reading>, stamp: string)
    ensures IsData(readings) <==> IsData(Stamped(readings, stamp))
  {
    var s := Stamped(readings, stamp);
    assert forall i :: 0 <= i < |s| ==> s[i] in s && readings[i] in readings;
  }

  lemma StampedTravels(readings: seq<Reading>, stamp: string, table: Policies)
    ensures AllTravel(readings, table) ==> AllTravel(Stamped(readings, stamp), table)
  {
    var s := Stamped(readings, stamp);
    if AllTravel(readings, table) {
      forall r | r in s && r.signalId in table ensures Travels(r, table[r.signalId]) {
        var i :| 0 <= i < |s| && s[i] == r;
        assert readings[i] in readings;
      }
    }
  }
}
