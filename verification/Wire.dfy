/** What one device task puts on the wire and does to its link, as a log, and the monitor that judges it.

    The monitor knows nothing of the device task's shaper, watchdog or loops: from the log alone it computes what
    the fleet sees, and it refuses any entry the device-task protocol forbids. A log it accepts is a safe
    run. */
module Wire {
  import opened Common
  import opened Readings
  import opened Shaping
  import opened Staleness

  datatype Entry =
    | ConnectTried
    | ConnectFailed
    | SessionOpened
    | SessionClosed
    | Stopping                                                                   // a deliberate stop begins
    | Polled(readings: seq<Reading>)                                             // drained by a tick, to be shaped
    | Snapshot(readings: seq<Reading>)                                           // read live, to be republished
    | Handed(readings: seq<Reading>, shaped: bool, reached: bool)                // one publish attempt
    | Rebaselined                                                                // held values are forgotten
    | PauseEvent
    | ResumeEvent
    | AlarmRaised
    | AlarmCleared
    | ReconnectTaken(reply: nat)
    | Answered(reply: nat, success: bool)

  type Log = History<Entry>

  /** What the log says of the link and of who waits for it. */
  datatype Link = Link(
    up: bool,                        // a session is open
    connecting: bool,                // a connect attempt is in flight
    stopping: bool,
    paused: bool,
    alarm: Option<bool>,             // the last alarm call: raised or cleared
    owed: Option<nat>,               // a reconnect reply not yet answered
    settled: Option<bool>,           // the connect outcome that reply must now be answered with
    tried: nat,                      // connect attempts so far
    ended: seq<Log>)                 // each ended session: the log up to its close

  /** What the log says of the data of the current session, and of what the fleet sees. */
  datatype Flow = Flow(
    recent: set<Reading>,            // read since the session opened and since the last resume
    shaped: seq<Update>,             // handed to the wire by the shaper, in order
    polled: seq<Reading>,            // drained for shaping, in order
    interrupted: bool,               // a pause happened
    held: map<string, Reading>,      // the newest data that reached the wire since the last re-baseline, per signal
    shown: map<string, Verdict>,     // what the fleet saw last, per signal, whatever the session
    lost: set<string>)               // the newest verdict on the signal failed to publish

  datatype Monitor = Monitor(link: Link, flow: Flow)

  const IDLE := Monitor(Link(false, false, false, false, None, None, None, 0, []),
      Flow({}, [], [], false, map[], map[], {}))

  function IdsOf(readings: seq<Reading>): set<string> {
    set r | r in readings :: r.signalId
  }

  /** The newest reading of each signal, after some readings arrive. */
  function Delivers(held: map<string, Reading>, readings: seq<Reading>): map<string, Reading> {
    if readings == [] then held
    else
      var last := readings[|readings| - 1];
      Delivers(held, readings[..|readings| - 1])[last.signalId := last]
  }

  /** Data the agent delivered, as opposed to the watchdog's own output. */
  predicate IsData(readings: seq<Reading>) {
    forall r :: r in readings ==> !IsSynthetic(r)
  }

  predicate IsPassive(readings: seq<Reading>) {
    forall r :: r in readings ==> IsSynthetic(r)
  }

  /** Whether the protocol permits an entry, as far as the link goes. */
  predicate Permits(l: Link, e: Entry) {
    match e
    case ConnectTried => !l.up && !l.connecting && !l.stopping && l.settled.None?
    case ConnectFailed => l.connecting
    case SessionOpened => l.connecting
    case SessionClosed => l.up
    case Stopping => l.up && !l.stopping
    case Polled(_) => l.up && !l.paused && l.settled.None?
    case Snapshot(_) => l.up && !l.paused && l.settled.None?
    case Handed(readings, shaped, _) =>
      l.up && l.settled.None? && readings != [] && ((IsData(readings) && !l.paused) || (IsPassive(readings) && !shaped))
    case Rebaselined => l.up
    case PauseEvent => !l.paused && l.settled.None?
    case ResumeEvent => l.paused && l.settled.None?
    case AlarmRaised => !l.up && !l.connecting && !l.stopping && l.alarm == Some(false)
    case AlarmCleared => l.up && l.alarm != Some(false)
    case ReconnectTaken(_) => l.owed.None? && l.settled.None?
    case Answered(reply, success) => l.owed == Some(reply) && l.settled == Some(success)
  }

  /** Data may only be published when it was read recently enough. */
  predicate Current(f: Flow, e: Entry) {
    e.Handed? && IsData(e.readings) ==> forall r :: r in e.readings ==> r in f.recent
  }

  function ObserveLink(l: Link, e: Entry, past: Log): Link {
    match e
    case ConnectTried => l.(connecting := true, tried := l.tried + 1)
    case ConnectFailed => l.(connecting := false, settled := if l.owed.Some? then Some(false) else None)
    case SessionOpened => l.(connecting := false, settled := if l.owed.Some? then Some(true) else None, up := true)
    case SessionClosed => l.(up := false, ended := l.ended + [past])
    case Stopping => l.(stopping := true)
    case PauseEvent => l.(paused := true)
    case ResumeEvent => l.(paused := false)
    case AlarmRaised => l.(alarm := Some(true))
    case AlarmCleared => l.(alarm := Some(false))
    case ReconnectTaken(reply) => l.(owed := Some(reply))
    case Answered(_, _) => l.(owed := None, settled := None)
    case _ => l
  }

  function Show(f: Flow, readings: seq<Reading>, reached: bool): Flow {
    if reached then
      f.(shown := Shows(f.shown, readings), lost := f.lost - IdsOf(readings),
         held := if IsData(readings) then Delivers(f.held, readings) else f.held)
    else if IsData(readings) then f
    else f.(lost := f.lost + IdsOf(readings))
  }

  function ObserveFlow(f: Flow, e: Entry): Flow {
    match e
    case SessionOpened => f.(recent := {}, shaped := [], polled := [], interrupted := false, held := map[], lost := {})
    case Polled(readings) => f.(recent := f.recent + (set r | r in readings), polled := f.polled + readings)
    case Snapshot(readings) => f.(recent := f.recent + set r | r in readings)
    case Handed(readings, shaped, reached) =>
      var after := Show(f, readings, reached);
      if shaped then after.(shaped := f.shaped + [readings]) else after
    case Rebaselined => f.(held := map[])
    case PauseEvent => f.(interrupted := true)
    case ResumeEvent => f.(recent := {})
    case _ => f
  }

  /** What the monitor makes of a log; nothing once it refused an entry. */
  function Replay(log: Log): Option<Monitor> {
    match log
    case Start => Some(IDLE)
    case Then(past, e) =>
      var before := Replay(past);
      if before.Some? && Permits(before.value.link, e) && Current(before.value.flow, e) then
        Some(Monitor(ObserveLink(before.value.link, e, past), ObserveFlow(before.value.flow, e)))
      else None
  }

  predicate Accepts(log: Log) {
    Replay(log).Some?
  }

  // ---------------------------------------------------------------------------------------------
  // What acceptance means
  // ---------------------------------------------------------------------------------------------

  lemma {:induction false} AcceptedBefore(past: Log, log: Log)
    requires Accepts(log) && Earlier(past, log)
    ensures Accepts(past)
  {
    if past != log.past {
      AcceptedBefore(past, log.past);
    }
  }

  lemma IdsOfSnoc(readings: seq<Reading>, n: nat)
    requires n < |readings|
    ensures IdsOf(readings[..n + 1]) == IdsOf(readings[..n]) + {readings[n].signalId}
  {
    assert readings[..n + 1] == readings[..n] + [readings[n]];
    assert forall r :: r in readings[..n + 1] <==> r in readings[..n] || r == readings[n];
  }

  /** Some readings show, and deliver, the signals they are about. */
  lemma {:induction false} WhatReadingsTouch(shown: map<string, Verdict>, held: map<string, Reading>,
                                             readings: seq<Reading>)
    ensures Shows(shown, readings).Keys == shown.Keys + IdsOf(readings)
    ensures Delivers(held, readings).Keys == held.Keys + IdsOf(readings)
  {
    if readings != [] {
      var n := |readings| - 1;
      WhatReadingsTouch(shown, held, readings[..n]);
      assert readings[..n + 1] == readings;
      IdsOfSnoc(readings, n);
    }
  }

  /** What is held is shown. */
  lemma {:induction false} HeldIsShown(log: Log)
    requires Accepts(log)
    ensures Replay(log).value.flow.held.Keys <= Replay(log).value.flow.shown.Keys
  {
    if log.Then? {
      HeldIsShown(log.past);
      if log.event.Handed? {
        var flow := Replay(log.past).value.flow;
        WhatReadingsTouch(flow.shown, flow.held, log.event.readings);
      }
    }
  }

  /** The newest pause or resume of a log, if any, is a pause. */
  predicate LastWasPause(log: Log) {
    match log
    case Start => false
    case Then(_, PauseEvent) => true
    case Then(_, ResumeEvent) => false
    case Then(past, _) => LastWasPause(past)
  }

  /** Read live or drained, with no resume and no new session since. */
  predicate ReadSince(log: Log, r: Reading) {
    match log
    case Start => false
    case Then(_, ResumeEvent) => false
    case Then(_, SessionOpened) => false
    case Then(past, Polled(readings)) => r in readings || ReadSince(past, r)
    case Then(past, Snapshot(readings)) => r in readings || ReadSince(past, r)
    case Then(past, _) => ReadSince(past, r)
  }

  lemma {:induction false} MonitorTracksPause(log: Log)
    requires Accepts(log)
    ensures Replay(log).value.link.paused == LastWasPause(log)
  {
    if log.Then? {
      MonitorTracksPause(log.past);
    }
  }

  lemma {:induction false} MonitorTracksReads(log: Log, r: Reading)
    requires Accepts(log)
    ensures r in Replay(log).value.flow.recent <==> ReadSince(log, r)
  {
    if log.Then? {
      MonitorTracksReads(log.past, r);
    }
  }

  /** Pause safety: in an accepted run no delivered reading is published while paused, and every delivered
      reading published was read at or after the last resume and within the current session. */
  lemma PauseSafety(at: Log, log: Log, r: Reading)
    requires Accepts(log) && (at == log || Earlier(at, log))
    requires at.Then? && at.event.Handed? && IsData(at.event.readings) && r in at.event.readings
    ensures !LastWasPause(at.past)
    ensures ReadSince(at.past, r)
  {
    if at != log {
      AcceptedBefore(at, log);
    }
    MonitorTracksPause(at.past);
    MonitorTracksReads(at.past, r);
  }

  /** The newest alarm call of a log. */
  function LastAlarm(log: Log): Option<bool> {
    match log
    case Start => None
    case Then(_, AlarmRaised) => Some(true)
    case Then(_, AlarmCleared) => Some(false)
    case Then(past, _) => LastAlarm(past)
  }

  lemma {:induction false} MonitorTracksAlarms(log: Log)
    requires Accepts(log)
    ensures Replay(log).value.link.alarm == LastAlarm(log)
  {
    if log.Then? {
      MonitorTracksAlarms(log.past);
    }
  }

  /** Whether a deliberate stop is under way or done. */
  predicate Stopped(log: Log) {
    log.Then? && (log.event.Stopping? || Stopped(log.past))
  }

  lemma {:induction false} MonitorTracksStops(log: Log)
    requires Accepts(log)
    ensures Replay(log).value.link.stopping == Stopped(log)
  {
    if log.Then? {
      MonitorTracksStops(log.past);
    }
  }

  /** The alarm calls of an accepted run alternate, clear first, and a deliberate stop never raises. */
  lemma AlarmsAlternate(at: Log, log: Log)
    requires Accepts(log) && (at == log || Earlier(at, log)) && at.Then?
    ensures at.event.AlarmRaised? ==> LastAlarm(at.past) == Some(false) && !Stopped(at.past)
    ensures at.event.AlarmCleared? ==> LastAlarm(at.past) != Some(false)
  {
    if at != log {
      AcceptedBefore(at, log);
    }
    MonitorTracksAlarms(at.past);
    MonitorTracksStops(at.past);
  }

  /** A session is open: the newest opening or close is an opening. */
  predicate InSession(log: Log) {
    log.Then? && (log.event.SessionOpened? || (!log.event.SessionClosed? && InSession(log.past)))
  }

  lemma {:induction false} MonitorTracksTheSession(log: Log)
    requires Accepts(log)
    ensures Replay(log).value.link.up == InSession(log)
  {
    if log.Then? {
      MonitorTracksTheSession(log.past);
    }
  }

  /** What happens only in an open session: reads, publishes, re-baselines, a close, the all-clear, and the
      beginning of a deliberate stop, which comes once. The alarm is raised only outside one, and a connect begins
      only there. */
  lemma OnlyInASession(at: Log, log: Log)
    requires Accepts(log) && (at == log || Earlier(at, log)) && at.Then?
    ensures at.event.Polled? || at.event.Snapshot? || at.event.Handed? || at.event.Rebaselined? ==> InSession(at.past)
    ensures at.event.SessionClosed? || at.event.AlarmCleared? ==> InSession(at.past)
    ensures at.event.Stopping? ==> InSession(at.past) && !Stopped(at.past)
    ensures at.event.AlarmRaised? || at.event.ConnectTried? ==> !InSession(at.past)
  {
    if at != log {
      AcceptedBefore(at, log);
    }
    MonitorTracksTheSession(at.past);
    MonitorTracksStops(at.past);
  }

  /** The shaped updates handed to the wire since the session opened, in order. */
  function ShapedSince(log: Log): seq<Update> {
    match log
    case Start => []
    case Then(_, SessionOpened) => []
    case Then(past, Handed(readings, true, _)) => ShapedSince(past) + [readings]
    case Then(past, _) => ShapedSince(past)
  }

  /** What its ticks drained to be shaped, in order. */
  function DrainedSince(log: Log): seq<Reading> {
    match log
    case Start => []
    case Then(_, SessionOpened) => []
    case Then(past, Polled(readings)) => DrainedSince(past) + readings
    case Then(past, _) => DrainedSince(past)
  }

  /** Whether it was paused. */
  predicate PausedSince(log: Log) {
    match log
    case Start => false
    case Then(_, SessionOpened) => false
    case Then(_, PauseEvent) => true
    case Then(past, _) => PausedSince(past)
  }

  /** What the monitor keeps of a session's data is what the log says. */
  lemma {:induction false} MonitorTracksData(log: Log)
    requires Accepts(log)
    ensures var flow := Replay(log).value.flow;
            && flow.shaped == ShapedSince(log) && flow.polled == DrainedSince(log)
            && (flow.interrupted <==> PausedSince(log))
  {
    if log.Then? {
      MonitorTracksData(log.past);
    }
  }

  /** The log up to each close of a session, in order. */
  function Sessions(log: Log): seq<Log> {
    match log
    case Start => []
    case Then(past, SessionClosed) => Sessions(past) + [past]
    case Then(past, _) => Sessions(past)
  }

  lemma {:induction false} MonitorTracksSessions(log: Log)
    requires Accepts(log)
    ensures Replay(log).value.link.ended == Sessions(log)
  {
    if log.Then? {
      MonitorTracksSessions(log.past);
      assert Sessions(log) == if log.event.SessionClosed? then Sessions(log.past) + [log.past] else Sessions(log.past);
    }
  }

  function Count(log: Log, e: Entry): nat {
    match log
    case Start => 0
    case Then(past, last) => Count(past, e) + if last == e then 1 else 0
  }

  /** Every connect attempt succeeded, failed, or is the one in flight; sessions open and close in turn. */
  lemma {:induction false} AttemptsAddUp(log: Log)
    requires Accepts(log)
    ensures var m := Replay(log).value.link;
            && m.tried == Count(log, ConnectTried)
            && m.tried == Count(log, SessionOpened) + Count(log, ConnectFailed) + (if m.connecting then 1 else 0)
            && Count(log, SessionOpened) == Count(log, SessionClosed) + (if m.up then 1 else 0)
            && !(m.up && m.connecting)
  {
    if log.Then? {
      AttemptsAddUp(log.past);
    }
  }

  /** The reconnect reply taken and not yet answered. */
  function Outstanding(log: Log): Option<nat> {
    match log
    case Start => None
    case Then(_, ReconnectTaken(reply)) => Some(reply)
    case Then(_, Answered(_, _)) => None
    case Then(past, _) => Outstanding(past)
  }

  /** The connect outcome reached since the last attempt began, the last reply was answered and the last
      reconnect was asked for. */
  function Outcome(log: Log): Option<bool> {
    match log
    case Start => None
    case Then(_, ConnectFailed) => Some(false)
    case Then(_, SessionOpened) => Some(true)
    case Then(_, Answered(_, _)) => None
    case Then(_, ReconnectTaken(_)) => None
    case Then(_, ConnectTried) => None
    case Then(past, _) => Outcome(past)
  }

  lemma {:induction false} MonitorTracksReplies(log: Log)
    requires Accepts(log)
    ensures var m := Replay(log).value.link;
            && m.owed == Outstanding(log)
            && m.settled == (if m.owed.Some? then Outcome(log) else None)
            && (m.connecting ==> Outcome(log).None?)
  {
    if log.Then? {
      MonitorTracksReplies(log.past);
    }
  }

  /** A pending reconnect is never overwritten, and every answer goes to the pending one with the outcome of
      the connect attempt that followed it; no further attempt starts before that. */
  lemma ReconnectsAreAnswered(at: Log, log: Log)
    requires Accepts(log) && (at == log || Earlier(at, log)) && at.Then?
    ensures at.event.ReconnectTaken? ==> Outstanding(at.past).None?
    ensures at.event.Answered? ==>
      Outstanding(at.past) == Some(at.event.reply) && Outcome(at.past) == Some(at.event.success)
    ensures at.event.ConnectTried? ==> Outstanding(at.past).None? || Outcome(at.past).None?
  {
    if at != log {
      AcceptedBefore(at, log);
    }
    MonitorTracksReplies(at.past);
  }
}
