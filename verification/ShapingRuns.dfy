/** What the shaping engine keeps over every run: conservation, the deadband's exact reach, window
    timing, routing, and independence between signals. Every statement quantifies over all histories
    of events; `Shaper.Valid` carries each of them to the engine's own state and releases. */
module ShapingRuns {
  import opened Common
  import opened Readings
  import opened Shaping

  // ---------------------------------------------------------------------------------------------
  // Conservation and order
  // ---------------------------------------------------------------------------------------------

  datatype Fate = Published | Superseded | Discarded

  datatype Row = Row(reading: Reading, fate: Fate)

  /** The books of one signal: what became of each accepted reading, and what still waits. */
  datatype Books = Books(settled: seq<Row>, waiting: seq<Reading>)

  function Marked(readings: seq<Reading>, fate: Fate): seq<Row> {
    seq(|readings|, i requires 0 <= i < |readings| => Row(readings[i], fate))
  }

  function ReadingsIn(rows: seq<Row>): seq<Reading> {
    seq(|rows|, i requires 0 <= i < |rows| => rows[i].reading)
  }

  function PublishedIn(rows: seq<Row>): seq<Reading> {
    if rows == [] then []
    else
      var last := rows[|rows| - 1];
      PublishedIn(rows[..|rows| - 1]) + if last.fate == Published then [last.reading] else []
  }

  lemma {:induction false} PublishedAppend(rows: seq<Row>, readings: seq<Reading>, fate: Fate)
    ensures PublishedIn(rows + Marked(readings, fate)) == PublishedIn(rows) + if fate == Published then readings else []
  {
    if readings == [] {
      assert rows + Marked(readings, fate) == rows;
    } else {
      var front := readings[..|readings| - 1];
      PublishedAppend(rows, front, fate);
      assert (rows + Marked(readings, fate))[..|rows| + |front|] == rows + Marked(front, fate);
      assert readings == front + [readings[|readings| - 1]];
      assert PublishedIn(rows) + front + [readings[|front|]] == PublishedIn(rows) + readings;
    }
  }

  /** What one event settles, with what fate, and what waits afterwards. */
  datatype Motion = Motion(settles: seq<Reading>, fate: Fate, waiting: seq<Reading>)

  function Move(waiting: seq<Reading>, l: Lane, id: string, e: Event): Motion {
    match e
    case ClearBuffers => Motion(waiting, Discarded, [])
    case Offer(reading, _) =>
      if reading.signalId != id then Motion([], Published, waiting)
      else (
        match DispositionOf(l, reading)
        case Dropped => Motion([], Published, waiting)
        case Immediate => Motion([reading], Published, waiting)
        case QualityFlush => Motion(waiting + [reading], Published, [])
        case Buffered =>
          if l.policy.Some? && l.policy.value.latestOnly then Motion(waiting, Superseded, [reading])
          else Motion([], Published, waiting + [reading]))
    case _ => if Closes(l, id, e) then Motion(waiting, Published, []) else Motion([], Published, waiting)
  }

  function Keep(id: string, h: Trace): Books {
    match h
    case Start => Books([], [])
    case Then(past, e) =>
      var before := Keep(id, past);
      var m := Move(before.waiting, RunLane(id, past).lane, id, e);
      Books(before.settled + Marked(m.settles, m.fate), m.waiting)
  }

  /** The readings of one signal the deadband let in, in arrival order. */
  function Accepted(id: string, h: Trace): seq<Reading> {
    match h
    case Start => []
    case Then(past, e) =>
      Accepted(id, past)
      + if e.Offer? && e.reading.signalId == id && DispositionIn(past, e.reading) != Dropped then [e.reading] else []
  }

  /** One event moves the books as it moves the lane. */
  lemma MoveFollowsTheLane(l: Lane, id: string, e: Event)
    requires WindowOk(l, id)
    ensures var m, s := Move(Pending(l), l, id, e), StepLane(l, id, e);
            && m.waiting == Pending(s.lane)
            && Flatten(s.out) == (if m.fate == Published then m.settles else [])
            && m.settles + m.waiting
               == Pending(l) + if e.Offer? && e.reading.signalId == id && DispositionOf(l, e.reading) != Dropped
                               then [e.reading] else []
  {
    var s := StepLane(l, id, e);
    if s.out != [] {
      assert s.out[..0] == [] && s.out == [s.out[0]];
      assert Flatten(s.out) == Flatten([]) + s.out[0];
    }
  }

  lemma PostToBooks(b: Books, m: Motion, more: seq<Reading>)
    requires m.settles + m.waiting == b.waiting + more
    ensures var after := Books(b.settled + Marked(m.settles, m.fate), m.waiting);
            && ReadingsIn(after.settled) + after.waiting == ReadingsIn(b.settled) + b.waiting + more
            && ReadingsIn(after.settled) == ReadingsIn(b.settled) + m.settles
            && PublishedIn(after.settled) == PublishedIn(b.settled) + if m.fate == Published then m.settles else []
  {
    PublishedAppend(b.settled, m.settles, m.fate);
    ReadingsAppend(b.settled, m.settles, m.fate);
    Regroup(ReadingsIn(b.settled), m.settles, m.waiting, b.waiting, more);
  }

  lemma ReadingsAppend(rows: seq<Row>, readings: seq<Reading>, fate: Fate)
    ensures ReadingsIn(rows + Marked(readings, fate)) == ReadingsIn(rows) + readings
  {
  }

  lemma Regroup(head: seq<Reading>, a: seq<Reading>, b: seq<Reading>, c: seq<Reading>, d: seq<Reading>)
    requires a + b == c + d
    ensures head + a + b == head + c + d
  {
    assert head + a + b == head + (a + b) && head + c + d == head + (c + d);
  }

  /** Every accepted reading is on the books once, in arrival order; the published ones are exactly what
      was released, in that order; the waiting ones are exactly the open window. */
  lemma {:induction false} EveryReadingIsAccountedFor(id: string, h: Trace)
    ensures ReadingsIn(Keep(id, h).settled) + Keep(id, h).waiting == Accepted(id, h)
    ensures PublishedIn(Keep(id, h).settled) == Flatten(RunLane(id, h).out)
    ensures Keep(id, h).waiting == Pending(RunLane(id, h).lane)
  {
    if h.Then? {
      EveryReadingIsAccountedFor(id, h.past);
      BooksStep(id, h.past, h.event);
    }
  }

  lemma BooksStep(id: string, h: Trace, e: Event)
    requires Keep(id, h).waiting == Pending(RunLane(id, h).lane)
    requires ReadingsIn(Keep(id, h).settled) + Keep(id, h).waiting == Accepted(id, h)
    requires PublishedIn(Keep(id, h).settled) == Flatten(RunLane(id, h).out)
    ensures ReadingsIn(Keep(id, Then(h, e)).settled) + Keep(id, Then(h, e)).waiting == Accepted(id, Then(h, e))
    ensures PublishedIn(Keep(id, Then(h, e)).settled) == Flatten(RunLane(id, Then(h, e)).out)
    ensures Keep(id, Then(h, e)).waiting == Pending(RunLane(id, Then(h, e)).lane)
  {
    var run, before := RunLane(id, h), Keep(id, h);
    var step := StepLane(run.lane, id, e);
    var m := Move(before.waiting, run.lane, id, e);
    var more := if e.Offer? && e.reading.signalId == id && DispositionOf(run.lane, e.reading) != Dropped
                then [e.reading] else [];
    assert && m.waiting == Pending(step.lane)
           && Flatten(step.out) == (if m.fate == Published then m.settles else [])
           && m.settles + m.waiting == before.waiting + more by
    {
      WindowDiscipline(id, h);
      MoveFollowsTheLane(run.lane, id, e);
    }
    PostToBooks(before, m, more);
    FlattenConcat(run.out, step.out);
    assert Accepted(id, Then(h, e)) == Accepted(id, h) + more;
    assert Keep(id, Then(h, e)) == Books(before.settled + Marked(m.settles, m.fate), m.waiting);
    assert RunLane(id, Then(h, e)) == LaneRun(step.lane, run.out + step.out);
  }

  /** No table of the history makes the signal latest-only. */
  predicate AlwaysOnChange(id: string, h: Trace) {
    h.Then? ==>
      && AlwaysOnChange(id, h.past)
      && (h.event.SetPolicies? && id in h.event.table ==> !h.event.table[id].latestOnly)
  }

  predicate NeverCleared(h: Trace) {
    h.Then? ==> NeverCleared(h.past) && !h.event.ClearBuffers?
  }

  lemma OnlyPublishing(b: Books, l: Lane, id: string, e: Event)
    requires PublishedIn(b.settled) == ReadingsIn(b.settled)
    requires !e.ClearBuffers? && (l.policy.Some? ==> !l.policy.value.latestOnly)
    ensures var m := Move(b.waiting, l, id, e);
            var rows := b.settled + Marked(m.settles, m.fate);
            PublishedIn(rows) == ReadingsIn(rows)
  {
    var m := Move(b.waiting, l, id, e);
    PublishedAppend(b.settled, m.settles, m.fate);
    ReadingsAppend(b.settled, m.settles, m.fate);
  }

  lemma {:induction false} OnChangePolicy(id: string, h: Trace)
    requires AlwaysOnChange(id, h)
    ensures var p := RunLane(id, h).lane.policy; p.Some? ==> !p.value.latestOnly
  {
    if h.Then? {
      OnChangePolicy(id, h.past);
    }
  }

  lemma {:induction false} OnlyThePublishedLeave(id: string, h: Trace)
    requires AlwaysOnChange(id, h) && NeverCleared(h)
    ensures PublishedIn(Keep(id, h).settled) == ReadingsIn(Keep(id, h).settled)
  {
    if h.Then? {
      OnlyThePublishedLeave(id, h.past);
      OnChangePolicy(id, h.past);
      var before, lane := Keep(id, h.past), RunLane(id, h.past).lane;
      var m := Move(before.waiting, lane, id, h.event);
      OnlyPublishing(before, lane, id, h.event);
      assert Keep(id, h).settled == before.settled + Marked(m.settles, m.fate);
    }
  }

  /** The accepted readings of a signal less the segments that clears discarded: what waited when one came. */
  function Survivors(id: string, h: Trace): seq<Reading> {
    match h
    case Start => []
    case Then(past, ClearBuffers) =>
      var before, waiting := Survivors(id, past), |Pending(RunLane(id, past).lane)|;
      if waiting <= |before| then before[..|before| - waiting] else []
    case Then(past, e) =>
      Survivors(id, past)
      + if e.Offer? && e.reading.signalId == id && DispositionIn(past, e.reading) != Dropped then [e.reading] else []
  }

  lemma {:induction false} AllSurviveWithoutClears(id: string, h: Trace)
    requires NeverCleared(h)
    ensures Survivors(id, h) == Accepted(id, h)
  {
    if h.Then? {
      AllSurviveWithoutClears(id, h.past);
    }
  }

  /** What one event adds to what an on-change signal released and still holds. */
  lemma OneMoreSurvives(l: Lane, id: string, e: Event)
    requires WindowOk(l, id) && !e.ClearBuffers? && (l.policy.Some? ==> !l.policy.value.latestOnly)
    ensures var s := StepLane(l, id, e);
            Flatten(s.out) + Pending(s.lane)
            == Pending(l) + if e.Offer? && e.reading.signalId == id && DispositionOf(l, e.reading) != Dropped
                            then [e.reading] else []
  {
    MoveFollowsTheLane(l, id, e);
  }

  lemma OneMoreCleared(past: LaneRun, survivors: seq<Reading>)
    requires Flatten(past.out) + Pending(past.lane) == survivors
    ensures |Pending(past.lane)| <= |survivors|
    ensures survivors[..|survivors| - |Pending(past.lane)|] == Flatten(past.out)
  {
  }

  lemma SurvivorsStep(id: string, past: Trace, e: Event)
    requires Flatten(RunLane(id, past).out) + Pending(RunLane(id, past).lane) == Survivors(id, past)
    requires var p := RunLane(id, past).lane.policy; p.Some? ==> !p.value.latestOnly
    ensures var run := RunLane(id, Then(past, e)); Flatten(run.out) + Pending(run.lane) == Survivors(id, Then(past, e))
  {
    var before := RunLane(id, past);
    var step := StepLane(before.lane, id, e);
    if e.ClearBuffers? {
      OneMoreCleared(before, Survivors(id, past));
      assert before.out + [] == before.out;
    } else {
      var more := if e.Offer? && e.reading.signalId == id && DispositionOf(before.lane, e.reading) != Dropped
                  then [e.reading] else [];
      WindowDiscipline(id, past);
      OneMoreSurvives(before.lane, id, e);
      FlattenConcat(before.out, step.out);
      Regroup(Flatten(before.out), Flatten(step.out), Pending(step.lane), Pending(before.lane), more);
    }
  }

  lemma {:induction false} NeverSuperseded(id: string, h: Trace)
    requires AlwaysOnChange(id, h)
    ensures forall row :: row in Keep(id, h).settled ==> row.fate != Superseded
  {
    if h.Then? {
      NeverSuperseded(id, h.past);
      OnChangePolicy(id, h.past);
      var before := Keep(id, h.past);
      var m := Move(before.waiting, RunLane(id, h.past).lane, id, h.event);
      assert Keep(id, h).settled == before.settled + Marked(m.settles, m.fate);
      assert m.fate != Superseded;
    }
  }

  /** An on-change signal loses exactly what pauses discard, repeats nothing and reorders nothing, across any number
      of policy swaps and clears: what was released followed by what waits is what was accepted, less the segments
      that waited when a clear came. Nothing is ever superseded. */
  lemma {:induction false} NoLossNoOvertaking(id: string, h: Trace)
    requires AlwaysOnChange(id, h)
    ensures Flatten(RunLane(id, h).out) + Pending(RunLane(id, h).lane) == Survivors(id, h)
    ensures NeverCleared(h) ==> Survivors(id, h) == Accepted(id, h)
    ensures forall row :: row in Keep(id, h).settled ==> row.fate != Superseded
  {
    if h.Then? {
      NoLossNoOvertaking(id, h.past);
      OnChangePolicy(id, h.past);
      SurvivorsStep(id, h.past, h.event);
    }
    if NeverCleared(h) {
      AllSurviveWithoutClears(id, h);
    }
    NeverSuperseded(id, h);
  }

  // ---------------------------------------------------------------------------------------------
  // The deadband
  // ---------------------------------------------------------------------------------------------

  /** The readings of one signal accepted under a policy since the deadband was last re-armed. */
  function AcceptedSinceRearm(id: string, h: Trace): seq<Reading> {
    match h
    case Start => []
    case Then(past, e) =>
      if e.ResetDeadband? then []
      else if TakenIn(RunLane(id, past).lane, id, e) then AcceptedSinceRearm(id, past) + [e.reading]
      else AcceptedSinceRearm(id, past)
  }

  /** The event offers the signal a reading that its policy accepts. */
  predicate TakenIn(l: Lane, id: string, e: Event) {
    e.Offer? && e.reading.signalId == id && l.policy.Some? && DispositionOf(l, e.reading) != Dropped
  }

  /** The last number among some readings. */
  function LastNumber(readings: seq<Reading>): Option<real> {
    if readings == [] then None
    else
      var last := readings[|readings| - 1];
      if last.Numeric().Some? then last.Numeric() else LastNumber(readings[..|readings| - 1])
  }

  function EntryFor(accepted: seq<Reading>): Option<EntryState> {
    if accepted == [] then None
    else Some(EntryState(LastNumber(accepted), accepted[|accepted| - 1].Verdict()))
  }

  lemma EntryForSnoc(accepted: seq<Reading>, reading: Reading)
    ensures EntryFor(accepted + [reading]) == Some(Noted(EntryFor(accepted), reading))
  {
    var longer := accepted + [reading];
    assert longer[..|accepted|] == accepted && longer[|longer| - 1] == reading;
    assert LastNumber(longer) == if reading.Numeric().Some? then reading.Numeric() else LastNumber(accepted);
  }

  lemma EntryStep(l: Lane, id: string, e: Event)
    ensures StepLane(l, id, e).lane.entry
            == if e.ResetDeadband? then None
               else if TakenIn(l, id, e) then Some(Noted(l.entry, e.reading))
               else l.entry
  {
  }

  lemma {:induction false} EntryIsTheLastAccepted(id: string, h: Trace)
    ensures RunLane(id, h).lane.entry == EntryFor(AcceptedSinceRearm(id, h))
  {
    if h.Then? {
      EntryIsTheLastAccepted(id, h.past);
      EntryStep(RunLane(id, h.past).lane, id, h.event);
      if h.event.Offer? {
        EntryForSnoc(AcceptedSinceRearm(id, h.past), h.event.reading);
      }
    }
  }

  predicate IsNumber(reading: Reading) {
    reading.value.Some? && reading.value.value.Num?
  }

  /** The last number among some readings stands at `k`. */
  predicate LastNumberAt(readings: seq<Reading>, k: int) {
    0 <= k < |readings| && IsNumber(readings[k]) && forall j :: k < j < |readings| ==> !IsNumber(readings[j])
  }

  lemma {:induction false} LastNumberStands(readings: seq<Reading>)
    ensures LastNumber(readings).Some? <==> exists k :: LastNumberAt(readings, k)
    ensures forall k :: LastNumberAt(readings, k) ==> LastNumber(readings) == Some(readings[k].value.value.number)
  {
    if readings != [] {
      var n := |readings| - 1;
      LastNumberStands(readings[..n]);
      if IsNumber(readings[n]) {
        assert LastNumberAt(readings, n);
      } else {
        forall k ensures LastNumberAt(readings, k) <==> LastNumberAt(readings[..n], k) {
          if LastNumberAt(readings[..n], k) {
            assert forall j :: k < j < n ==> !IsNumber(readings[..n][j]);
          }
          if LastNumberAt(readings, k) {
            assert k != n;
          }
        }
      }
    }
  }

  /** The value is a number less than `d` from the last number among some readings. */
  ghost predicate InsideTheBand(reading: Reading, readings: seq<Reading>, d: real) {
    && IsNumber(reading)
    && exists k :: LastNumberAt(readings, k)
                   && -d < reading.value.value.number - readings[k].value.value.number < d
  }

  /** Exactly when a reading is suppressed: the policy in force has a deadband, something was accepted
      under a policy since the last re-arm, quality and raw reason are those of the last such reading, and the value is
      a number less than the deadband from the last such number, up or down. */
  lemma SuppressedExactlyWhen(h: Trace, reading: Reading)
    ensures var id := reading.signalId;
            var policy := RunLane(id, h).lane.policy;
            var rs := AcceptedSinceRearm(id, h);
            DispositionIn(h, reading) == Dropped <==>
              && policy.Some? && policy.value.deadband.Some?
              && rs != [] && reading.quality == rs[|rs| - 1].quality && reading.qualityRaw == rs[|rs| - 1].qualityRaw
              && InsideTheBand(reading, rs, policy.value.deadband.value)
  {
    EntryIsTheLastAccepted(reading.signalId, h);
    LastNumberStands(AcceptedSinceRearm(reading.signalId, h));
  }

  /** A number at least the deadband above or below the last accepted one is never suppressed. */
  lemma FarReadingsPass(h: Trace, reading: Reading, k: nat)
    requires var id := reading.signalId;
             var policy, rs := RunLane(id, h).lane.policy, AcceptedSinceRearm(id, h);
             && policy.Some? && policy.value.deadband.Some? && LastNumberAt(rs, k) && IsNumber(reading)
             && var d, v, last := policy.value.deadband.value, reading.value.value.number, rs[k].value.value.number;
                v >= last + d || v <= last - d
    ensures DispositionIn(h, reading) != Dropped
  {
    SuppressedExactlyWhen(h, reading);
    var rs := AcceptedSinceRearm(reading.signalId, h);
    forall j ensures LastNumberAt(rs, j) ==> j == k {
      if LastNumberAt(rs, j) {
        assert !(j < k) && !(k < j);
      }
    }
  }

  /** The last reading offered for a signal, when a policy was in force for it. */
  function LastOfferedUnderPolicy(id: string, h: Trace): Option<Reading> {
    match h
    case Start => None
    case Then(past, Offer(reading, _)) =>
      if reading.signalId != id then LastOfferedUnderPolicy(id, past)
      else if RunLane(id, past).lane.policy.Some? then Some(reading) else None
    case Then(past, _) => LastOfferedUnderPolicy(id, past)
  }

  lemma {:induction false} EntryHasTheLastOfferedVerdict(id: string, h: Trace)
    ensures var l, q := RunLane(id, h).lane, LastOfferedUnderPolicy(id, h);
            l.entry.Some? && q.Some? ==> l.entry.value.lastQuality == q.value.Verdict()
  {
    if h.Then? {
      EntryHasTheLastOfferedVerdict(id, h.past);
    }
  }

  /** A change of quality or raw reason since the previously offered reading always passes. */
  lemma VerdictChangePasses(h: Trace, reading: Reading)
    requires LastOfferedUnderPolicy(reading.signalId, h).Some?
    requires LastOfferedUnderPolicy(reading.signalId, h).value.Verdict() != reading.Verdict()
    ensures DispositionIn(h, reading) != Dropped
  {
    EntryHasTheLastOfferedVerdict(reading.signalId, h);
  }

  lemma {:induction false} OpenWindowMeansGoodEntry(id: string, h: Trace)
    ensures var l := RunLane(id, h).lane;
            l.buffer.Some? && l.entry.Some? ==> l.entry.value.lastQuality.0 == Good
  {
    if h.Then? {
      OpenWindowMeansGoodEntry(id, h.past);
      WindowDiscipline(id, h.past);
    }
  }

  /** Quality never waits: after a reading that is not GOOD, suppressed or not, no window of its signal is
      open. */
  lemma QualityNeverWaits(h: Trace, reading: Reading, now: nat)
    requires reading.quality != Good
    ensures RunLane(reading.signalId, Then(h, Event.Offer(reading, now))).lane.buffer.None?
  {
    OpenWindowMeansGoodEntry(reading.signalId, h);
    WindowDiscipline(reading.signalId, h);
  }

  // ---------------------------------------------------------------------------------------------
  // Where an offered reading goes
  // ---------------------------------------------------------------------------------------------

  /** A reading that is let in waits, last in its window, when it is GOOD and its policy batches; a latest-only window
      then holds nothing else. Any other that is let in leaves at once, in one update with whatever waited before it,
      and nothing waits any more. One that is suppressed, like one of another signal, changes nothing. */
  lemma OfferedReadingGoes(h: Trace, reading: Reading, now: nat)
    ensures var id := reading.signalId;
            var before, after := RunLane(id, h), RunLane(id, Then(h, Event.Offer(reading, now)));
            && after.lane.policy == before.lane.policy
            && if DispositionIn(h, reading) == Dropped then after == before
               else if before.lane.policy.Some? && before.lane.policy.value.batchMs > 0 && reading.quality == Good then
                 && after.out == before.out
                 && Pending(after.lane)
                    == (if before.lane.policy.value.latestOnly then [] else Pending(before.lane)) + [reading]
               else after.out == before.out + [Pending(before.lane) + [reading]] && after.lane.buffer.None?
    ensures forall id :: id != reading.signalId ==>
      RunLane(id, Then(h, Event.Offer(reading, now))) == RunLane(id, h)
  {
    WindowDiscipline(reading.signalId, h);
    assert [] + [reading] == [reading];
  }

  /** A new table takes over at once. What waits under a policy it keeps goes on waiting; what waits under one it
      changes or drops leaves in one update. What the deadband remembers stays. */
  lemma SwappedTableTakesOver(id: string, h: Trace, table: Policies)
    ensures var before, after := RunLane(id, h), RunLane(id, Then(h, Event.SetPolicies(table)));
            && (after.lane.policy.Some? <==> id in table) && (id in table ==> after.lane.policy == Some(table[id]))
            && after.lane.entry == before.lane.entry
            && if after.lane.policy == before.lane.policy || before.lane.buffer.None? then
                 after.out == before.out && after.lane.buffer == before.lane.buffer
               else after.out == before.out + [Pending(before.lane)] && after.lane.buffer.None?
  {
  }

  // ---------------------------------------------------------------------------------------------
  // Window timing
  // ---------------------------------------------------------------------------------------------

  function Clock(h: Trace): nat {
    match h
    case Start => 0
    case Then(_, Offer(_, now)) => now
    case Then(_, Due(now)) => now
    case Then(past, _) => Clock(past)
  }

  /** The clock never runs backwards. */
  predicate Monotone(h: Trace) {
    h.Then? ==> Monotone(h.past) && Clock(h.past) <= Clock(h)
  }

  /** When each reading of the open window arrived. */
  function Arrivals(id: string, h: Trace): seq<nat> {
    match h
    case Start => []
    case Then(past, e) => ArrivalsStep(Arrivals(id, past), RunLane(id, past).lane, id, e)
  }

  /** The deadline of an open window is at most one batch period after each of these arrivals, none of
      which lies in the future. */
  ghost predicate Timely(l: Lane, arrivals: seq<nat>, clock: nat) {
    && |arrivals| == |Pending(l)|
    && (l.buffer.Some? ==>
          && l.policy.Some?
          && l.buffer.value.deadline <= clock + l.policy.value.batchMs
          && forall a :: a in arrivals ==> a <= clock && l.buffer.value.deadline <= a + l.policy.value.batchMs)
  }

  /** When each reading of the window arrived, one event later. */
  function ArrivalsStep(arrivals: seq<nat>, l: Lane, id: string, e: Event): seq<nat> {
    var after := StepLane(l, id, e).lane;
    if after.buffer.None? then []
    else if e.Offer? && e.reading.signalId == id && DispositionOf(l, e.reading) == Buffered then
      (if after.policy.Some? && after.policy.value.latestOnly then [] else arrivals) + [e.now]
    else arrivals
  }

  lemma TimelyStep(l: Lane, arrivals: seq<nat>, clock: nat, later: nat, id: string, e: Event)
    requires WindowOk(l, id) && Timely(l, arrivals, clock) && clock <= later
    requires e.Offer? ==> e.now == later
    ensures Timely(StepLane(l, id, e).lane, ArrivalsStep(arrivals, l, id, e), later)
  {
  }

  /** A window's deadline is at most one batch period after the arrival of every reading in it. */
  lemma {:induction false} NoReadingWaitsLonger(id: string, h: Trace)
    requires Monotone(h)
    ensures Timely(RunLane(id, h).lane, Arrivals(id, h), Clock(h))
  {
    if h.Then? {
      NoReadingWaitsLonger(id, h.past);
      WindowDiscipline(id, h.past);
      TimelyStep(RunLane(id, h.past).lane, Arrivals(id, h.past), Clock(h.past), Clock(h), id, h.event);
    }
  }

  /** When the open window was opened: by the event that found none. */
  function OpenedAt(id: string, h: Trace): Option<nat> {
    match h
    case Start => None
    case Then(past, e) =>
      if RunLane(id, h).lane.buffer.None? then None
      else if RunLane(id, past).lane.buffer.Some? then OpenedAt(id, past)
      else if e.Offer? then Some(e.now)
      else None
  }

  /** A window is due exactly one batch period after it was opened, whatever came into it since. */
  lemma {:induction false} DueOnePeriodAfterOpening(id: string, h: Trace)
    ensures var l := RunLane(id, h).lane;
            l.buffer.Some? ==>
              && l.policy.Some? && OpenedAt(id, h).Some?
              && l.buffer.value.deadline == OpenedAt(id, h).value + l.policy.value.batchMs
  {
    if h.Then? {
      DueOnePeriodAfterOpening(id, h.past);
      WindowDiscipline(id, h.past);
    }
  }

  /** The timer releases a window exactly when its period is over: neither earlier nor later. */
  lemma TimerReleasesExactlyWhenDue(id: string, h: Trace, now: nat)
    requires RunLane(id, h).lane.buffer.Some?
    ensures OpenedAt(id, h).Some? && RunLane(id, h).lane.policy.Some?
    ensures var before, after := RunLane(id, h), RunLane(id, Then(h, Event.Due(now)));
            if OpenedAt(id, h).value + before.lane.policy.value.batchMs <= now then
              after.out == before.out + [Pending(before.lane)] && after.lane == before.lane.(buffer := None)
            else after == before
  {
    DueOnePeriodAfterOpening(id, h);
  }

  /** After the timer fires at `now`, everything still waiting arrived less than its batch period ago. */
  lemma TimerLeavesOnlyRecentReadings(id: string, h: Trace, now: nat)
    requires Monotone(Then(h, Event.Due(now)))
    ensures var after := Then(h, Event.Due(now));
            var l := RunLane(id, after).lane;
            l.buffer.Some? ==>
              && l.buffer.value.deadline > now
              && l.policy.Some?
              && forall a :: a in Arrivals(id, after) ==> now < a + l.policy.value.batchMs
  {
    NoReadingWaitsLonger(id, Then(h, Event.Due(now)));
  }

  /** What a released update may look like: at most two readings when the signal was always latest-only. */
  predicate AlwaysLatestOnly(id: string, h: Trace) {
    h.Then? ==>
      && AlwaysLatestOnly(id, h.past)
      && (h.event.SetPolicies? && id in h.event.table ==> h.event.table[id].latestOnly)
  }

  lemma {:induction false} LatestOnlyUpdatesAreShort(id: string, h: Trace)
    requires AlwaysLatestOnly(id, h)
    ensures forall u: Update :: u in RunLane(id, h).out ==> |u| <= 2 && (|u| == 2 ==> u[1].quality != Good)
    ensures var p := RunLane(id, h).lane.policy; p.Some? ==> p.value.latestOnly
  {
    if h.Then? {
      LatestOnlyUpdatesAreShort(id, h.past);
      WindowDiscipline(id, h.past);
    }
  }

  // ---------------------------------------------------------------------------------------------
  // Routing
  // ---------------------------------------------------------------------------------------------

  predicate OnRoute(reading: Reading, policy: PublishPolicy) {
    reading.channel == policy.route.channel && reading.componentPath == policy.route.componentPath
  }

  /** What the session keeps of every reading it hands over: a GOOD one is on its policy's route. */
  predicate Travels(reading: Reading, policy: PublishPolicy) {
    reading.quality == Good ==> OnRoute(reading, policy)
  }

  ghost predicate AllTravel(readings: seq<Reading>, table: Policies) {
    forall r :: r in readings && r.signalId in table ==> Travels(r, table[r.signalId])
  }

  /** Every reading offered under a policy travels as that policy says. */
  predicate Routed(h: Trace) {
    h.Then? ==>
      && Routed(h.past)
      && (h.event.Offer? ==>
            var policy := RunLane(h.event.reading.signalId, h.past).lane.policy;
            policy.Some? ==> Travels(h.event.reading, policy.value))
  }

  ghost predicate SameRoute(u: Update) {
    forall i, j :: 0 <= i < |u| && 0 <= j < |u| ==>
      u[i].channel == u[j].channel && u[i].componentPath == u[j].componentPath
  }

  ghost predicate WindowOnRoute(l: Lane) {
    forall r :: r in Pending(l) ==> l.policy.Some? && OnRoute(r, l.policy.value)
  }

  /** An offer closes a window that holds something with a reading off the policy's route. */
  predicate Mixes(l: Lane, id: string, e: Event) {
    && e.Offer? && e.reading.signalId == id && DispositionOf(l, e.reading) == QualityFlush
    && Pending(l) != [] && !OnRoute(e.reading, l.policy.value)
  }

  /** Some offer of a history did. */
  predicate MixesIn(id: string, h: Trace) {
    h.Then? && (MixesIn(id, h.past) || Mixes(RunLane(id, h.past).lane, id, h.event))
  }

  lemma WindowStaysOnRoute(l: Lane, id: string, e: Event)
    requires WindowOk(l, id) && WindowOnRoute(l)
    requires e.Offer? && e.reading.signalId == id && l.policy.Some? ==> Travels(e.reading, l.policy.value)
    ensures WindowOnRoute(StepLane(l, id, e).lane)
  {
    var s := StepLane(l, id, e);
    assert forall r :: r in Pending(s.lane) ==> r in Pending(l) || (e.Offer? && r == e.reading && r.quality == Good);
  }

  /** A window collected on its policy's route is mixed by the reading that closes it if and only if that reading
      is off the route. */
  lemma MixedByTheLast(waiting: seq<Reading>, reading: Reading, policy: PublishPolicy)
    requires forall r :: r in waiting ==> OnRoute(r, policy)
    ensures SameRoute(waiting + [reading]) <==> waiting == [] || OnRoute(reading, policy)
  {
    var u := waiting + [reading];
    if waiting != [] {
      assert waiting[0] in waiting;
      if SameRoute(u) {
        assert u[0].channel == u[|u| - 1].channel && u[0].componentPath == u[|u| - 1].componentPath;
      }
      assert forall i :: 0 <= i < |u| ==> u[i] in waiting || u[i] == reading;
    }
  }

  lemma MixedExactlyByTheStep(l: Lane, id: string, e: Event)
    requires WindowOk(l, id) && WindowOnRoute(l)
    ensures (forall u :: u in StepLane(l, id, e).out ==> SameRoute(u)) <==> !Mixes(l, id, e)
  {
    var out := StepLane(l, id, e).out;
    if e.Offer? && e.reading.signalId == id && DispositionOf(l, e.reading) == QualityFlush {
      MixedByTheLast(Pending(l), e.reading, l.policy.value);
      assert out == [Pending(l) + [e.reading]] && Pending(l) + [e.reading] in out;
    } else {
      forall u | u in out ensures SameRoute(u) {
        assert forall i :: 0 <= i < |u| ==> u[i] in Pending(l) || (e.Offer? && u == [e.reading]);
      }
    }
  }

  /** One update, one route, exactly: over every history in which the GOOD readings are on their policies' routes,
      no released update mixes two routes if and only if no offer closed a window that held something with a
      reading off its policy's route. */
  lemma {:induction false} MixedExactlyWhenOffRoute(id: string, h: Trace)
    requires Routed(h)
    ensures (forall u :: u in RunLane(id, h).out ==> SameRoute(u)) <==> !MixesIn(id, h)
    ensures WindowOnRoute(RunLane(id, h).lane)
  {
    if h.Then? {
      MixedExactlyWhenOffRoute(id, h.past);
      WindowDiscipline(id, h.past);
      var before := RunLane(id, h.past);
      WindowStaysOnRoute(before.lane, id, h.event);
      MixedExactlyByTheStep(before.lane, id, h.event);
      assert RunLane(id, h).out == before.out + StepLane(before.lane, id, h.event).out;
    }
  }

  /** A reading as a described signal sends it: on the route of a policy with a component path; under one without,
      nothing but bad news. */
  predicate Described(reading: Reading, policy: PublishPolicy) {
    if policy.route.componentPath.Some? then OnRoute(reading, policy) else reading.quality != Good
  }

  ghost predicate DescribedUnder(readings: seq<Reading>, table: Policies) {
    forall r :: r in readings && r.signalId in table ==> Described(r, table[r.signalId])
  }

  predicate AllDescribed(h: Trace) {
    h.Then? ==>
      && AllDescribed(h.past)
      && (h.event.Offer? ==>
            var policy := RunLane(h.event.reading.signalId, h.past).lane.policy;
            policy.Some? ==> Described(h.event.reading, policy.value))
  }

  lemma {:induction false} DescribedNeverMix(id: string, h: Trace)
    requires AllDescribed(h)
    ensures Routed(h) && !MixesIn(id, h)
    ensures var l := RunLane(id, h).lane; l.buffer.Some? && l.policy.Some? ==> l.policy.value.route.componentPath.Some?
  {
    if h.Then? {
      DescribedNeverMix(id, h.past);
      WindowDiscipline(id, h.past);
    }
  }

  /** One update, one route: over every history of described signals no update mixes readings of two routing
      generations, across any number of policy swaps. */
  lemma OneUpdateOneRoute(id: string, h: Trace)
    requires AllDescribed(h)
    ensures forall u :: u in RunLane(id, h).out ==> SameRoute(u)
    ensures WindowOnRoute(RunLane(id, h).lane)
  {
    DescribedNeverMix(id, h);
    MixedExactlyWhenOffRoute(id, h);
  }

  // ---------------------------------------------------------------------------------------------
  // Independence of signals
  // ---------------------------------------------------------------------------------------------

  /** What a history says to one signal: only its policy, only its readings. */
  function Project(id: string, h: Trace): Trace {
    match h
    case Start => Start
    case Then(past, SetPolicies(table)) =>
      Then(Project(id, past), Event.SetPolicies(map k | k in table && k == id :: table[k]))
    case Then(past, Offer(reading, now)) =>
      if reading.signalId == id then Then(Project(id, past), h.event) else Project(id, past)
    case Then(past, e) => Then(Project(id, past), e)
  }

  lemma {:induction false} ProjectionIsEnough(id: string, h: Trace)
    ensures RunLane(id, Project(id, h)) == RunLane(id, h)
  {
    if h.Then? {
      ProjectionIsEnough(id, h.past);
      var run := RunLane(id, h.past);
      assert run.out + [] == run.out;
    }
  }

  lemma {:induction false} OthersStaySilent(id: string, other: string, h: Trace)
    requires id != other
    ensures RunLane(other, Project(id, h)) == LaneRun(Lane(None, None, None), [])
  {
    if h.Then? {
      OthersStaySilent(id, other, h.past);
    }
  }

  lemma {:induction false} OfOnlyOne(id: string, updates: seq<Update>)
    requires forall u :: u in updates ==> u != []
    requires forall other :: other != id ==> Of(other, updates) == []
    ensures Of(id, updates) == updates
  {
    if updates != [] {
      var n := |updates| - 1;
      assert updates[n] in updates;
      assert Of(updates[n][0].signalId, updates) != [];
      forall other | other != id ensures Of(other, updates[..n]) == [] {
        assert Of(other, updates) == [];
      }
      assert forall u :: u in updates[..n] ==> u in updates;
      OfOnlyOne(id, updates[..n]);
      assert updates == updates[..n] + [updates[n]];
    }
  }

  /** Signals do not interfere: what the engine releases for one signal is everything that an engine
      holding only that signal's policy and readings releases. */
  lemma SignalsDoNotInterfere(engine: Shaper, alone: Shaper, id: string)
    requires engine.Valid() && alone.Valid()
    requires alone.history == Project(id, engine.history)
    ensures Of(id, engine.released) == alone.released
    ensures engine.LaneOf(id) == alone.LaneOf(id)
  {
    ProjectionIsEnough(id, engine.history);
    assert Released(id, engine.released, engine.history) && Released(id, alone.released, alone.history);
    assert Holds(id, engine.LaneOf(id), engine.history) && Holds(id, alone.LaneOf(id), alone.history);
    forall other | other != id ensures Of(other, alone.released) == [] {
      OthersStaySilent(id, other, engine.history);
      assert Released(other, alone.released, alone.history);
    }
    OfOnlyOne(id, alone.released);
  }

  /** The order windows leave in is a function of the windows, not of the order the map yields them:
      two releases of the same windows in (deadline, id) order are the same sequence. */
  lemma ReleaseOrderIsUnique(buffers: map<string, Buffer>, a: seq<Update>, b: seq<Update>)
    requires InDeadlineOrder(buffers, a) && InDeadlineOrder(buffers, b)
    requires forall u: Update :: u in a || u in b ==>
      u != [] && u[0].signalId in buffers && u == buffers[u[0].signalId].readings
    requires forall u :: u in a <==> u in b
    ensures a == b
  {
    var slot := (u: Update) requires u != [] && u[0].signalId in buffers =>
      Slot(buffers[u[0].signalId].deadline, u[0].signalId);
    var s := seq(|a|, i requires 0 <= i < |a| && a[i] in a => slot(a[i]));
    var t := seq(|b|, i requires 0 <= i < |b| && b[i] in b => slot(b[i]));
    forall x ensures x in s <==> x in t {
      if x in s {
        var i :| 0 <= i < |s| && s[i] == x;
        assert a[i] in b;
        var j :| 0 <= j < |b| && b[j] == a[i];
        assert t[j] == x;
      }
      if x in t {
        var j :| 0 <= j < |t| && t[j] == x;
        assert b[j] in a;
        var i :| 0 <= i < |a| && a[i] == b[j];
        assert s[i] == x;
      }
    }
    AscendingIsUnique(s, t);
    forall i | 0 <= i < |a| ensures a[i] == b[i] {
      assert s[i] == t[i];
      assert a[i] in a && b[i] in b;
    }
  }

  /** The readings offered, in order. */
  function Offered(h: Trace): seq<Reading> {
    match h
    case Start => []
    case Then(past, Offer(reading, _)) => Offered(past) + [reading]
    case Then(past, _) => Offered(past)
  }

  /** Every offered reading has one disposition, so the counters partition the offers. */
  function Offers(h: Trace): nat {
    match h
    case Start => 0
    case Then(past, e) => Offers(past) + if e.Offer? then 1 else 0
  }

  lemma {:induction false} DispositionsPartitionTheOffers(h: Trace)
    ensures Offers(h) == CountOf(Immediate, h) + CountOf(Dropped, h) + CountOf(QualityFlush, h) + CountOf(Buffered, h)
  {
    if h.Then? {
      DispositionsPartitionTheOffers(h.past);
    }
  }
}
