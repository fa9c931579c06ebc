/** The publish-shaping engine (src/shaping.rs): per-signal batch windows, latest-only windows and a
    deadband on entry.

    `StepLane` says what one event does to ONE signal's slice of the engine. `Shaper` is the engine
    itself, over maps that hold every signal at once; its invariant says that after any history each
    signal's slice and releases are what that signal's lane alone computes. */
module Shaping {
  import opened Common
  import opened Readings

  /** What one publish attempt of the shaper carries: its readings as samples, oldest first. */
  type Update = seq<Reading>

  datatype SignalRoute = SignalRoute(channel: Option<string>, componentPath: Option<string>, name: Option<string>)

  datatype PublishPolicy = PublishPolicy(batchMs: nat, latestOnly: bool, deadband: Option<real>, route: SignalRoute)
  {
    predicate IsTrivial() {
      batchMs == 0 && deadband.None?
    }
  }

  type Policies = map<string, PublishPolicy>

  /** One signal's open window. */
  datatype Buffer = Buffer(readings: seq<Reading>, deadline: nat)

  /** What the deadband remembers of a signal: a number to measure from, and the verdict it goes with. */
  datatype EntryState = EntryState(lastValue: Option<real>, lastQuality: (Quality, Option<string>))

  datatype ShapingCounters = ShapingCounters(published: nat, coalesced: nat, deadbandDropped: nat)
  {
    function Plus(more: ShapingCounters): ShapingCounters {
      ShapingCounters(published + more.published, coalesced + more.coalesced, deadbandDropped + more.deadbandDropped)
    }
  }

  const ZERO_COUNTERS := ShapingCounters(0, 0, 0)

  /** Everything that can be asked of the engine. */
  datatype Event =
    | SetPolicies(table: Policies)
    | Offer(reading: Reading, now: nat)
    | Due(now: nat)
    | FlushAll
    | ClearBuffers
    | ResetDeadband

  type Trace = History<Event>

  // ---------------------------------------------------------------------------------------------
  // One signal
  // ---------------------------------------------------------------------------------------------

  /** One signal's slice of the engine. */
  datatype Lane = Lane(policy: Option<PublishPolicy>, buffer: Option<Buffer>, entry: Option<EntryState>)

  datatype LaneRun = LaneRun(lane: Lane, out: seq<Update>)

  /** What the engine decides about one offered reading. */
  datatype Disposition =
    | Immediate    // published alone
    | Dropped      // suppressed by the deadband
    | QualityFlush // published with the window it closes
    | Buffered     // kept in the window

  function Abs(x: real): real {
    if x < 0.0 then -x else x
  }

  /** Whether the deadband suppresses a reading, given the signal's entry state. */
  predicate Suppresses(entry: Option<EntryState>, reading: Reading, deadband: real) {
    && entry.Some?
    && reading.Verdict() == entry.value.lastQuality
    && reading.Numeric().Some?
    && entry.value.lastValue.Some?
    && Abs(reading.Numeric().value - entry.value.lastValue.value) < deadband
  }

  /** The entry state after a reading is accepted; one without a number keeps the number there was. */
  function Noted(entry: Option<EntryState>, reading: Reading): EntryState {
    var anchor := if entry.Some? then entry.value.lastValue else None;
    EntryState(if reading.Numeric().Some? then reading.Numeric() else anchor, reading.Verdict())
  }

  function DispositionOf(l: Lane, reading: Reading): Disposition {
    if l.policy.None? then Immediate
    else if l.policy.value.deadband.Some? && Suppresses(l.entry, reading, l.policy.value.deadband.value) then Dropped
    else if l.policy.value.batchMs == 0 then Immediate
    else if reading.quality != Good then QualityFlush
    else Buffered
  }

  function Pending(l: Lane): seq<Reading> {
    if l.buffer.Some? then l.buffer.value.readings else []
  }

  /** The window after one more reading is buffered in it. */
  function Widened(l: Lane, reading: Reading, now: nat): Buffer
    requires l.policy.Some?
  {
    var deadline := if l.buffer.Some? then l.buffer.value.deadline else now + l.policy.value.batchMs;
    Buffer((if l.policy.value.latestOnly then [] else Pending(l)) + [reading], deadline)
  }

  /** Whether an event closes this signal's window and releases what it holds. */
  predicate Closes(l: Lane, id: string, e: Event) {
    && l.buffer.Some?
    && match e
       case SetPolicies(table) => l.policy != Get(table, id)
       case Due(now) => l.buffer.value.deadline <= now
       case FlushAll => true
       case _ => false
  }

  /** What one event does to one signal: its new slice, and what it releases. */
  function StepLane(l: Lane, id: string, e: Event): LaneRun {
    var settled := if Closes(l, id, e) then LaneRun(l.(buffer := None), [Pending(l)]) else LaneRun(l, []);
    match e
    case SetPolicies(table) => settled.(lane := settled.lane.(policy := Get(table, id)))
    case Due(_) => settled
    case FlushAll => settled
    case ClearBuffers => LaneRun(l.(buffer := None), [])
    case ResetDeadband => LaneRun(l.(entry := None), [])
    case Offer(reading, now) =>
      if reading.signalId != id then LaneRun(l, [])
      else
        var accepted := if l.policy.None? then l else l.(entry := Some(Noted(l.entry, reading)));
        match DispositionOf(l, reading)
        case Immediate => LaneRun(accepted, [[reading]])
        case Dropped => LaneRun(l, [])
        case QualityFlush => LaneRun(accepted.(buffer := None), [Pending(l) + [reading]])
        case Buffered => LaneRun(accepted.(buffer := Some(Widened(l, reading, now))), [])
  }

  /** One signal's slice, and everything it released, after a whole history. */
  function RunLane(id: string, h: Trace): LaneRun {
    match h
    case Start => LaneRun(Lane(None, None, None), [])
    case Then(past, e) =>
      var before := RunLane(id, past);
      var step := StepLane(before.lane, id, e);
      LaneRun(step.lane, before.out + step.out)
  }

  function DispositionIn(h: Trace, reading: Reading): Disposition {
    DispositionOf(RunLane(reading.signalId, h).lane, reading)
  }

  /** How many offers of a history met one disposition. */
  function CountOf(d: Disposition, h: Trace): nat {
    match h
    case Start => 0
    case Then(past, e) =>
      CountOf(d, past) + if e.Offer? && DispositionIn(past, e.reading) == d then 1 else 0
  }

  /** The updates of one signal among many, in order. */
  function Of(id: string, updates: seq<Update>): seq<Update> {
    if updates == [] then []
    else
      var last := updates[|updates| - 1];
      Of(id, updates[..|updates| - 1]) + (if last != [] && last[0].signalId == id then [last] else [])
  }

  lemma OfSnoc(id: string, updates: seq<Update>, last: Update)
    ensures Of(id, updates + [last]) == Of(id, updates) + (if last != [] && last[0].signalId == id then [last] else [])
  {
    assert (updates + [last])[..|updates|] == updates;
  }

  lemma {:induction false} OfConcat(id: string, a: seq<Update>, b: seq<Update>)
    ensures Of(id, a + b) == Of(id, a) + Of(id, b)
  {
    if b == [] {
      assert a + b == a;
    } else {
      var front, last := b[..|b| - 1], b[|b| - 1];
      OfConcat(id, a, front);
      assert a + b == (a + front) + [last];
      OfSnoc(id, a + front, last);
    }
  }

  // ---------------------------------------------------------------------------------------------
  // What holds of one signal after every history
  // ---------------------------------------------------------------------------------------------

  /** A window is never empty, belongs to a signal whose current policy batches, and holds only GOOD
      readings of that signal; a latest-only window holds one. */
  ghost predicate WindowOk(l: Lane, id: string) {
    l.buffer.Some? ==>
      && l.policy.Some? && l.policy.value.batchMs > 0
      && l.buffer.value.readings != []
      && (forall r :: r in l.buffer.value.readings ==> r.signalId == id && r.quality == Good)
      && (l.policy.value.latestOnly ==> |l.buffer.value.readings| == 1)
  }

  /** Only the last reading of an update may be other than GOOD. */
  ghost predicate UpdateOk(u: Update, id: string) {
    && u != []
    && (forall r :: r in u ==> r.signalId == id)
    && (forall i :: 0 <= i < |u| - 1 ==> u[i].quality == Good)
  }

  lemma {:induction false} WindowDiscipline(id: string, h: Trace)
    ensures WindowOk(RunLane(id, h).lane, id)
    ensures forall u :: u in RunLane(id, h).out ==> UpdateOk(u, id)
  {
    if h.Then? {
      WindowDiscipline(id, h.past);
    }
  }

  // ---------------------------------------------------------------------------------------------
  // The engine
  // ---------------------------------------------------------------------------------------------

  /** Every reading of these updates is one of these. */
  ghost predicate Within(updates: seq<Update>, readings: set<Reading>) {
    forall u, r :: u in updates && r in u ==> r in readings
  }

  ghost predicate NonEmpty(updates: seq<Update>) {
    forall u :: u in updates ==> u != []
  }

  /** A signal's slice is what its lane computes. */
  ghost predicate Holds(id: string, l: Lane, h: Trace) {
    l == RunLane(id, h).lane
  }

  /** A signal's updates, among everything released, are what its lane releases. */
  ghost predicate Released(id: string, updates: seq<Update>, h: Trace) {
    Of(id, updates) == RunLane(id, h).out
  }

  /** One event took a signal's slice where its lane goes, releasing what its lane releases. */
  ghost predicate Steps(id: string, l: Lane, out: seq<Update>, h: Trace, e: Event) {
    LaneRun(l, Of(id, out)) == StepLane(RunLane(id, h).lane, id, e)
  }

  class Shaper {
    var policies: Policies
    var buffers: map<string, Buffer>
    var entries: map<string, EntryState>
    var counters: ShapingCounters

    /** Everything asked of the engine so far. */
    ghost var history: Trace
    /** Everything it released so far, across signals. */
    ghost var released: seq<Update>
    /** What `TakeCounters` handed out so far. */
    ghost var drained: ShapingCounters

    function LaneOf(id: string): Lane
      reads this`policies, this`buffers, this`entries
    {
      Lane(Get(policies, id), Get(buffers, id), Get(entries, id))
    }

    /** Each signal sees an engine of its own, and nothing is released that no signal released. */
    ghost predicate Valid()
      reads this
    {
      && (forall id :: Holds(id, LaneOf(id), history))
      && (forall id :: Released(id, released, history))
      && NonEmpty(released)
      && CountersOk(history, |released|)
    }

    ghost predicate CountersOk(h: Trace, updates: nat)
      reads this`drained, this`counters
    {
      && drained.published + counters.published == updates
      && drained.coalesced + counters.coalesced == CountOf(Buffered, h)
      && drained.deadbandDropped + counters.deadbandDropped == CountOf(Dropped, h)
    }

    /** The readings that wait in the open windows. */
    ghost function Holdings(): set<Reading>
      reads this`buffers
    {
      set id, r | id in buffers && r in buffers[id].readings :: r
    }

    ghost predicate WindowsOk()
      reads this
    {
      forall id :: id in buffers ==> WindowOk(LaneOf(id), id)
    }

    ghost predicate NoEmptyWindow()
      reads this`buffers
    {
      forall id :: id in buffers ==> buffers[id].readings != []
    }

    lemma WindowsAreOk()
      requires Valid()
      ensures WindowsOk() && NoEmptyWindow()
    {
      forall id | id in buffers ensures WindowOk(LaneOf(id), id) {
        assert Holds(id, LaneOf(id), history);
        WindowDiscipline(id, history);
      }
    }

    constructor ()
      ensures Valid()
      ensures history == Start && released == [] && drained == ZERO_COUNTERS
      ensures buffers == map[]
    {
      policies, buffers, entries, counters := map[], map[], map[], ZERO_COUNTERS;
      history, released, drained := Start, [], ZERO_COUNTERS;
      new;
      assert forall id :: LaneOf(id) == Lane(None, None, None);
    }

    /** Close one window, if it is open. */
    method FlushSignal(id: string) returns (update: Option<Update>)
      requires NoEmptyWindow()
      modifies this`buffers, this`counters
      ensures buffers == old(buffers) - {id}
      ensures update == if id in old(buffers) then Some(old(buffers)[id].readings) else None
      ensures counters == old(counters).(published := old(counters).published + if update.Some? then 1 else 0)
    {
      if id !in buffers {
        return None;
      }
      var buffer := buffers[id];
      buffers := buffers - {id};
      if buffer.readings == [] {
        return None;
      }
      counters := counters.(published := counters.published + 1);
      update := Some(buffer.readings);
    }

    /** Close the listed windows, in the order listed. */
    method FlushEach(ids: seq<string>) returns (out: seq<Update>)
      requires NoEmptyWindow()
      requires forall i :: 0 <= i < |ids| ==> ids[i] in buffers
      requires forall i, j :: 0 <= i < j < |ids| ==> ids[i] != ids[j]
      modifies this`buffers, this`counters
      ensures buffers == old(buffers) - set id | id in ids
      ensures |out| == |ids|
      ensures forall i :: 0 <= i < |out| ==> out[i] == old(buffers)[ids[i]].readings
      ensures counters == old(counters).(published := old(counters).published + |out|)
      ensures Holdings() <= old(Holdings()) && Within(out, old(Holdings()))
    {
      out := [];
      for n := 0 to |ids|
        invariant buffers == old(buffers) - set id | id in ids[..n]
        invariant NoEmptyWindow()
        invariant |out| == n
        invariant forall i :: 0 <= i < n ==> out[i] == old(buffers)[ids[i]].readings
        invariant counters == old(counters).(published := old(counters).published + n)
      {
        var update := FlushSignal(ids[n]);
        assert ids[..n + 1] == ids[..n] + [ids[n]];
        out := out + [update.value];
      }
      assert ids[..|ids|] == ids;
    }

    /** The signals with an open window whose policy a table changes or drops, in whatever order the map
        yields them. */
    method Stale(table: Policies) returns (stale: seq<string>)
      ensures forall id :: id in stale <==> id in buffers && Get(policies, id) != Get(table, id)
      ensures forall i, j :: 0 <= i < j < |stale| ==> stale[i] != stale[j]
    {
      stale := [];
      var rest := buffers.Keys;
      while rest != {}
        invariant rest <= buffers.Keys
        invariant forall id :: id in stale <==> id in buffers && id !in rest && Get(policies, id) != Get(table, id)
        invariant forall i, j :: 0 <= i < j < |stale| ==> stale[i] != stale[j]
        decreases rest
      {
        var id :| id in rest;
        rest := rest - {id};
        if Get(policies, id) != Get(table, id) {
          stale := stale + [id];
        }
      }
    }

    /** Install a policy table: a window is released now, under the policy that collected it, unless that policy stays
        in force. */
    method SetPolicies(table: Policies) returns (flushed: seq<Update>)
      requires Valid()
      modifies this
      ensures Valid()
      ensures history == Then(old(history), Event.SetPolicies(table))
      ensures released == old(released) + flushed && drained == old(drained)
      ensures policies == table
      ensures Holdings() <= old(Holdings()) && Within(flushed, old(Holdings()))
      ensures NonEmpty(flushed)
      ensures buffers == (map id | id in old(buffers) && Get(old(policies), id) == Get(table, id) :: old(buffers)[id])
      ensures entries == old(entries)
    {
      WindowsAreOk();
      var stale := Stale(table);
      flushed := FlushEach(stale);
      WindowsLeft(old(buffers), stale, policies, table);
      policies := table;
      forall id ensures Closing(id, old(buffers), stale, Event.SetPolicies(table), history) {
        assert Holds(id, old(LaneOf(id)), history);
      }
      Close(Event.SetPolicies(table), old(buffers), flushed, stale);
    }

    /** The ghost bookkeeping that ends every operation: when each signal's slice and releases moved as
        its lane says, the engine's invariant holds for the longer history. */
    ghost method Record(e: Event, out: seq<Update>)
      requires forall id :: Released(id, released, history)
      requires NonEmpty(released)
      requires forall id :: Steps(id, LaneOf(id), out, history, e)
      requires NonEmpty(out)
      requires CountersOk(Then(history, e), |released| + |out|)
      modifies this`history, this`released
      ensures Valid() && history == Then(old(history), e) && released == old(released) + out
    {
      ghost var past := history;
      forall id ensures Released(id, released + out, Then(past, e)) && Holds(id, LaneOf(id), Then(past, e)) {
        assert Released(id, released, past) && Steps(id, LaneOf(id), out, past, e);
        OfConcat(id, released, out);
      }
      history, released := Then(history, e), released + out;
    }

    /** `Record` for the operations that only close windows. */
    ghost method Close(e: Event, open: map<string, Buffer>, out: seq<Update>, ids: seq<string>)
      requires e.SetPolicies? || e.Due? || e.FlushAll?
      requires forall id :: Released(id, released, history)
      requires NonEmpty(released)
      requires CountersOk(Then(history, e), |released| + |out|)
      requires |out| == |ids|
      requires forall i, j :: 0 <= i < j < |ids| ==> ids[i] != ids[j]
      requires buffers == open - set id | id in ids
      requires forall id :: Closing(id, open, ids, e, history)
      requires forall i :: 0 <= i < |ids| ==> ids[i] in open && out[i] == open[ids[i]].readings
      modifies this`history, this`released
      ensures Valid() && history == Then(old(history), e) && released == old(released) + out
    {
      ghost var past := history;
      forall i | 0 <= i < |ids| ensures out[i] != [] && out[i][0].signalId == ids[i] {
        assert Closing(ids[i], open, ids, e, past);
        WindowDiscipline(ids[i], past);
        assert out[i][0] in out[i];
      }
      forall id ensures Steps(id, LaneOf(id), out, past, e) {
        assert Closing(id, open, ids, e, past);
        OfClosed(id, open, out, ids);
      }
      Record(e, out);
    }

    /** A signal before its listed windows close: its slice, and whether the event closes it. */
    ghost predicate Closing(id: string, open: map<string, Buffer>, ids: seq<string>, e: Event, h: Trace)
      reads this`policies, this`entries
    {
      var before := RunLane(id, h).lane;
      && before.buffer == Get(open, id)
      && before.entry == Get(entries, id)
      && (if e.SetPolicies? then policies == e.table else before.policy == Get(policies, id))
      && (id in ids <==> Closes(before, id, e))
    }

    /** Decide one reading: publish it, drop it, close the window with it, or keep it. */
    method Admit(reading: Reading, now: nat) returns (out: seq<Update>)
      requires WindowsOk()
      modifies this`buffers, this`entries, this`counters
      ensures LaneRun(LaneOf(reading.signalId), out) ==
              StepLane(old(LaneOf(reading.signalId)), reading.signalId, Event.Offer(reading, now))
      ensures forall id :: id != reading.signalId ==> LaneOf(id) == old(LaneOf(id))
      ensures |out| <= 1 && forall u: Update :: u in out ==> u != [] && u[0].signalId == reading.signalId
      ensures counters.published == old(counters).published + |out|
      ensures var d := DispositionOf(old(LaneOf(reading.signalId)), reading);
              && counters.coalesced == old(counters).coalesced + (if d == Buffered then 1 else 0)
              && counters.deadbandDropped == old(counters).deadbandDropped + (if d == Dropped then 1 else 0)
      ensures Holdings() <= old(Holdings()) + {reading} && Within(out, old(Holdings()) + {reading})
    {
      var id := reading.signalId;
      assert id in buffers ==> WindowOk(LaneOf(id), id);
      if id !in policies {
        counters := counters.(published := counters.published + 1);
        return [[reading]];
      }
      var policy := policies[id];
      if policy.deadband.Some? && Suppresses(Get(entries, id), reading, policy.deadband.value) {
        counters := counters.(deadbandDropped := counters.deadbandDropped + 1);
        return [];
      }
      out := Accept(reading, now);
    }

    /** Let a reading in under its policy: note it, then publish it, close its window with it or widen that. */
    method Accept(reading: Reading, now: nat) returns (out: seq<Update>)
      requires reading.signalId in policies
      requires reading.signalId in buffers ==> WindowOk(LaneOf(reading.signalId), reading.signalId)
      requires DispositionOf(LaneOf(reading.signalId), reading) != Dropped
      modifies this`buffers, this`entries, this`counters
      ensures LaneRun(LaneOf(reading.signalId), out) ==
              StepLane(old(LaneOf(reading.signalId)), reading.signalId, Event.Offer(reading, now))
      ensures forall id :: id != reading.signalId ==> LaneOf(id) == old(LaneOf(id))
      ensures |out| <= 1 && forall u: Update :: u in out ==> u != [] && u[0].signalId == reading.signalId
      ensures counters == old(counters).(
        published := old(counters).published + |out|,
        coalesced := old(counters).coalesced
                     + if DispositionOf(old(LaneOf(reading.signalId)), reading) == Buffered then 1 else 0)
      ensures Holdings() <= old(Holdings()) + {reading} && Within(out, old(Holdings()) + {reading})
    {
      var id, policy := reading.signalId, policies[reading.signalId];
      entries := entries[id := Noted(Get(entries, id), reading)];
      if policy.batchMs == 0 {
        counters := counters.(published := counters.published + 1);
        return [[reading]];
      }
      if reading.quality != Good {
        var readings := if id in buffers then buffers[id].readings else [];
        buffers := buffers - {id};
        counters := counters.(published := counters.published + 1);
        return [readings + [reading]];
      }
      var buffer := if id in buffers then buffers[id] else Buffer([], now + policy.batchMs);
      if policy.latestOnly {
        buffer := buffer.(readings := []);
      }
      buffers := buffers[id := buffer.(readings := buffer.readings + [reading])];
      counters := counters.(coalesced := counters.coalesced + 1);
      out := [];
    }

    /** Offer one reading; the result is what to publish now. */
    method Offer(reading: Reading, now: nat) returns (out: seq<Update>)
      requires Valid()
      modifies this
      ensures Valid()
      ensures history == Then(old(history), Event.Offer(reading, now))
      ensures released == old(released) + out && drained == old(drained)
      ensures policies == old(policies)
      ensures Holdings() <= old(Holdings()) + {reading} && Within(out, old(Holdings()) + {reading})
      ensures NonEmpty(out)
    {
      WindowsAreOk();
      out := Admit(reading, now);
      forall id ensures id != reading.signalId ==> Holds(id, LaneOf(id), history) {
        assert Holds(id, old(LaneOf(id)), history);
      }
      assert Holds(reading.signalId, old(LaneOf(reading.signalId)), history);
      RecordOffer(reading, now, out);
    }

    /** `Record` for one offered reading. */
    ghost method RecordOffer(reading: Reading, now: nat, out: seq<Update>)
      requires forall id :: Released(id, released, history)
      requires NonEmpty(released)
      requires CountersOk(Then(history, Event.Offer(reading, now)), |released| + |out|)
      requires forall id :: id != reading.signalId ==> Holds(id, LaneOf(id), history)
      requires LaneRun(LaneOf(reading.signalId), out) ==
               StepLane(RunLane(reading.signalId, history).lane, reading.signalId, Event.Offer(reading, now))
      requires |out| <= 1 && forall u: Update :: u in out ==> u != [] && u[0].signalId == reading.signalId
      modifies this`history, this`released
      ensures Valid() && history == Then(old(history), Event.Offer(reading, now)) && released == old(released) + out
    {
      var e := Event.Offer(reading, now);
      forall id ensures Steps(id, LaneOf(id), out, history, e) {
        if out != [] { OfSnoc(id, [], out[0]); assert [] + [out[0]] == out; }
        if id != reading.signalId { assert Holds(id, LaneOf(id), history); }
      }
      Record(e, out);
    }

    /** The earliest expiry among the open windows. */
    method NextDeadline() returns (deadline: Option<nat>)
      ensures deadline.None? <==> buffers == map[]
      ensures deadline.Some? ==> exists id :: id in buffers && buffers[id].deadline == deadline.value
      ensures deadline.Some? ==> forall id :: id in buffers ==> deadline.value <= buffers[id].deadline
    {
      deadline := None;
      var rest := buffers.Keys;
      while rest != {}
        invariant rest <= buffers.Keys
        invariant deadline.None? <==> rest == buffers.Keys
        invariant deadline.Some? ==> exists id :: id in buffers && buffers[id].deadline == deadline.value
        invariant deadline.Some? ==>
          forall id :: id in buffers && id !in rest ==> deadline.value <= buffers[id].deadline
        decreases rest
      {
        var id :| id in rest;
        rest := rest - {id};
        if deadline.None? || buffers[id].deadline < deadline.value {
          deadline := Some(buffers[id].deadline);
        }
      }
    }

    /** The windows an instant closes, in the order they are released: deadline, then signal id. */
    method Expired(all: bool, now: nat) returns (ids: seq<string>)
      ensures forall id :: id in ids <==> id in buffers && (all || buffers[id].deadline <= now)
      ensures forall i, j :: 0 <= i < j < |ids| ==> ids[i] != ids[j]
      ensures forall i, j :: 0 <= i < j < |ids| ==>
        Before(Slot(buffers[ids[i]].deadline, ids[i]), Slot(buffers[ids[j]].deadline, ids[j]))
    {
      var slots: seq<Slot> := [];
      var rest := buffers.Keys;
      while rest != {}
        invariant rest <= buffers.Keys
        invariant forall s: Slot :: s in slots <==>
          s.id in buffers && s.id !in rest && s.deadline == buffers[s.id].deadline && (all || s.deadline <= now)
        invariant forall i, j :: 0 <= i < j < |slots| ==> slots[i] != slots[j]
        decreases rest
      {
        var id :| id in rest;
        rest := rest - {id};
        if all || buffers[id].deadline <= now {
          slots := slots + [Slot(buffers[id].deadline, id)];
        }
      }
      var sorted := Sort(slots);
      forall i | 0 <= i < |sorted|
        ensures sorted[i].id in buffers && sorted[i].deadline == buffers[sorted[i].id].deadline
      {
        assert sorted[i] in sorted;
      }
      BeforeIsStrictOrder();
      ids := seq(|sorted|, i requires 0 <= i < |sorted| => sorted[i].id);
      forall id ensures id in ids <==> id in buffers && (all || buffers[id].deadline <= now) {
        if id in buffers && (all || buffers[id].deadline <= now) {
          assert Slot(buffers[id].deadline, id) in sorted;
          var i :| 0 <= i < |sorted| && sorted[i] == Slot(buffers[id].deadline, id);
          assert ids[i] == id;
        }
        if id in ids {
          var i :| 0 <= i < |ids| && ids[i] == id;
          assert sorted[i] in sorted;
        }
      }
    }

    /** Close every window an instant closes. */
    method CloseWindows(all: bool, now: nat) returns (out: seq<Update>, ghost ids: seq<string>)
      requires WindowsOk() && NoEmptyWindow()
      modifies this`buffers, this`counters
      ensures forall id :: id in ids <==> id in old(buffers) && (all || old(buffers)[id].deadline <= now)
      ensures forall i, j :: 0 <= i < j < |ids| ==> ids[i] != ids[j]
      ensures buffers == old(buffers) - set id | id in ids
      ensures |out| == |ids|
      ensures forall i :: 0 <= i < |out| ==> ids[i] in old(buffers) && out[i] == old(buffers)[ids[i]].readings
      ensures counters == old(counters).(published := old(counters).published + |out|)
      ensures InDeadlineOrder(old(buffers), out)
      ensures Holdings() <= old(Holdings()) && Within(out, old(Holdings()))
    {
      var order := Expired(all, now);
      ids := order;
      out := FlushEach(order);
      forall id | id in old(buffers)
        ensures old(buffers)[id].readings != [] && forall r :: r in old(buffers)[id].readings ==> r.signalId == id
      {
        assert WindowOk(old(LaneOf(id)), id);
      }
      OrderedRelease(old(buffers), ids, out);
    }

    /** Release every window whose deadline has passed. */
    method Due(now: nat) returns (out: seq<Update>)
      requires Valid()
      modifies this
      ensures Valid()
      ensures history == Then(old(history), Event.Due(now))
      ensures released == old(released) + out && drained == old(drained)
      ensures InDeadlineOrder(old(buffers), out)
      ensures Holdings() <= old(Holdings()) && Within(out, old(Holdings()))
      ensures buffers == (map id | id in old(buffers) && now < old(buffers)[id].deadline :: old(buffers)[id])
      ensures policies == old(policies) && entries == old(entries)
    {
      WindowsAreOk();
      ghost var ids;
      out, ids := CloseWindows(false, now);
      forall id ensures Closing(id, old(buffers), ids, Event.Due(now), history) {
        assert Holds(id, old(LaneOf(id)), history);
      }
      Close(Event.Due(now), old(buffers), out, ids);
    }

    /** Release all windows: the session is about to end. */
    method FlushAll() returns (out: seq<Update>)
      requires Valid()
      modifies this
      ensures Valid()
      ensures history == Then(old(history), Event.FlushAll)
      ensures released == old(released) + out && drained == old(drained)
      ensures InDeadlineOrder(old(buffers), out)
      ensures Holdings() <= old(Holdings()) && Within(out, old(Holdings()))
      ensures buffers == map[] && policies == old(policies) && entries == old(entries)
    {
      WindowsAreOk();
      ghost var ids;
      out, ids := CloseWindows(true, 0);
      forall id ensures Closing(id, old(buffers), ids, Event.FlushAll, history) {
        assert Holds(id, old(LaneOf(id)), history);
      }
      Close(Event.FlushAll, old(buffers), out, ids);
    }

    /** How many readings wait. */
    method CountHeld() returns (held: nat)
      ensures held == ReadingsHeld(buffers)
    {
      held := 0;
      var rest := buffers;
      while rest != map[]
        invariant rest.Keys <= buffers.Keys && forall id :: id in rest ==> rest[id] == buffers[id]
        invariant held + ReadingsHeld(rest) == ReadingsHeld(buffers)
        decreases |rest|
      {
        var id :| id in rest;
        HeldMinus(rest, id);
        held := held + |rest[id].readings|;
        rest := rest - {id};
      }
    }

    /** A pause: drop all windows and say how many readings went with them. */
    method Clear() returns (discarded: nat)
      requires Valid()
      modifies this
      ensures Valid()
      ensures history == Then(old(history), ClearBuffers)
      ensures released == old(released) && drained == old(drained)
      ensures buffers == map[] && policies == old(policies) && entries == old(entries)
      ensures discarded == ReadingsHeld(old(buffers))
    {
      discarded := CountHeld();
      buffers := map[];
      forall id ensures Steps(id, LaneOf(id), [], history, ClearBuffers) {
        assert Holds(id, old(LaneOf(id)), history);
      }
      Record(ClearBuffers, []);
    }

    /** Forget the entry state, so that nothing is measured against what came before. */
    method Rearm()
      requires Valid()
      modifies this
      ensures Valid()
      ensures history == Then(old(history), ResetDeadband)
      ensures released == old(released) && drained == old(drained)
      ensures buffers == old(buffers) && policies == old(policies) && entries == map[]
    {
      entries := map[];
      forall id ensures Steps(id, LaneOf(id), [], history, ResetDeadband) {
        assert Holds(id, old(LaneOf(id)), history);
      }
      Record(ResetDeadband, []);
    }

    /** Drain the counters; nothing when nothing moved. */
    method TakeCounters() returns (taken: Option<ShapingCounters>)
      requires Valid()
      modifies this`counters, this`drained
      ensures Valid() && counters == ZERO_COUNTERS
      ensures drained == if taken.Some? then old(drained).Plus(taken.value) else old(drained)
      ensures taken.None? <==> old(counters) == ZERO_COUNTERS
    {
      taken := if counters == ZERO_COUNTERS then None else Some(counters);
      drained := drained.Plus(counters);
      counters := ZERO_COUNTERS;
    }
  }

  lemma WindowsLeft(open: map<string, Buffer>, stale: seq<string>, before: Policies, after: Policies)
    requires forall id :: id in stale <==> id in open && Get(before, id) != Get(after, id)
    ensures open - (set id | id in stale) == (map id | id in open && Get(before, id) == Get(after, id) :: open[id])
  {
  }

  /** How many readings the open windows hold together. */
  ghost function ReadingsHeld(buffers: map<string, Buffer>): nat
    decreases |buffers|
  {
    if buffers == map[] then 0
    else
      var id :| id in buffers;
      |buffers[id].readings| + ReadingsHeld(buffers - {id})
  }

  lemma {:induction false} HeldMinus(buffers: map<string, Buffer>, id: string)
    requires id in buffers
    ensures ReadingsHeld(buffers) == |buffers[id].readings| + ReadingsHeld(buffers - {id})
    decreases |buffers|
  {
    var first :| first in buffers
                 && ReadingsHeld(buffers) == |buffers[first].readings| + ReadingsHeld(buffers - {first});
    if first != id {
      HeldMinus(buffers - {first}, id);
      HeldMinus(buffers - {id}, first);
      assert buffers - {first} - {id} == buffers - {id} - {first};
    }
  }

  /** Updates leave in the order of their deadlines, and at one deadline in that of their signal ids. */
  ghost predicate InDeadlineOrder(buffers: map<string, Buffer>, out: seq<Update>) {
    && (forall i :: 0 <= i < |out| ==> out[i] != [] && out[i][0].signalId in buffers)
    && (forall i, j :: 0 <= i < j < |out| ==>
          var a, b := out[i][0].signalId, out[j][0].signalId;
          || buffers[a].deadline < buffers[b].deadline
          || (buffers[a].deadline == buffers[b].deadline && StringLess(a, b)))
  }

  lemma OrderedRelease(buffers: map<string, Buffer>, ids: seq<string>, out: seq<Update>)
    requires |ids| == |out|
    requires forall i :: 0 <= i < |ids| ==> ids[i] in buffers && out[i] == buffers[ids[i]].readings
    requires forall id :: id in buffers ==>
      buffers[id].readings != [] && forall r :: r in buffers[id].readings ==> r.signalId == id
    requires forall i, j :: 0 <= i < j < |ids| ==>
      Before(Slot(buffers[ids[i]].deadline, ids[i]), Slot(buffers[ids[j]].deadline, ids[j]))
    ensures InDeadlineOrder(buffers, out)
  {
    forall i | 0 <= i < |out| ensures out[i] != [] && out[i][0].signalId == ids[i] {
      assert out[i][0] in buffers[ids[i]].readings;
    }
  }

  /** Closing a list of windows releases exactly one update for each listed signal. */
  lemma {:induction false} OfClosed(id: string, buffers: map<string, Buffer>, out: seq<Update>, ids: seq<string>)
    requires |out| == |ids|
    requires forall i, j :: 0 <= i < j < |ids| ==> ids[i] != ids[j]
    requires forall i :: 0 <= i < |ids| ==> ids[i] in buffers && out[i] == buffers[ids[i]].readings
    requires forall i :: 0 <= i < |ids| ==> out[i] != [] && out[i][0].signalId == ids[i]
    ensures Of(id, out) == if id in ids then [buffers[id].readings] else []
  {
    if ids != [] {
      var n := |ids| - 1;
      var before := out[..n];
      OfClosed(id, buffers, before, ids[..n]);
      assert ids == ids[..n] + [ids[n]] && out == before + [out[n]];
      OfSnoc(id, before, out[n]);
      assert id == ids[n] ==> id !in ids[..n];
    }
  }
}
