/** The session of one device instance with its agent (src/device.rs): observations folded into condition ledgers
    and mapped to readings in two passes, condition events, and the publish policies of what it serves. */
module Session {
  import opened Common
  import opened Readings
  import opened Conditions
  import opened Shaping
  import opened Staleness
  import opened ShapingRuns

  const QUALITY_OK := "MTC_OK"
  const QUALITY_UNAVAILABLE := "UNAVAILABLE"
  const QUALITY_NO_SUCH_DATAITEM := "MTC_NO_SUCH_DATAITEM"

  /** At most one condition event per data item in this many milliseconds. */
  const CONDITION_EVENT_INTERVAL: nat := 60_000

  datatype Category = Sample | Event | ConditionItem

  datatype DataItem = DataItem(name: Option<string>, category: Category, componentPath: string)

  /** The probe model, as far as mapping reads it. */
  type ProbeModel = map<string, DataItem>

  datatype PublishCfg = PublishCfg(interval: bool, batchMs: nat, deadband: Option<real>)

  datatype SignalConfig = SignalConfig(
    id: string,
    name: Option<string>,
    channel: Option<string>,
    dataItemId: string,
    conditionBinding: Option<seq<string>>,
    publish: Option<PublishCfg>)
  {
    function Bindings(): seq<string> {
      if conditionBinding.Some? then conditionBinding.value else []
    }

    function PublishPolicy(): PublishCfg {
      if publish.Some? then publish.value else PublishCfg(false, 0, None)
    }
  }

  /** What one data item aggregated to right after an observation was folded in. */
  datatype ConditionSnapshot = ConditionSnapshot(state: CondState, nativeCode: Option<string>, active: nat)

  datatype Notice = Notice(dataItemId: string, previous: Option<CondState>, nativeCode: Option<string>,
                           conditionId: Option<string>, activeConditions: nat, timestamp: string)

  function StateName(s: CondState): string {
    match s
    case Normal => "NORMAL"
    case Warning => "WARNING"
    case Fault => "FAULT"
    case Unavailable => "UNAVAILABLE"
  }

  function WithCode(prefix: string, code: Option<string>): string {
    if code.Some? && code.value != "" then prefix + ":" + code.value else prefix
  }

  /** The quality a condition state implies, and the reason an operator reads. */
  function ConditionQuality(state: CondState, code: Option<string>): (Quality, string) {
    match state
    case Normal => (Good, QUALITY_OK + ":NORMAL")
    case Warning => (Uncertain, WithCode("MTC_CONDITION:WARNING", code))
    case Fault => (Bad, WithCode("MTC_CONDITION:FAULT", code))
    case Unavailable => (Bad, QUALITY_UNAVAILABLE)
  }

  // ---------------------------------------------------------------------------------------------
  // One observation, one signal
  // ---------------------------------------------------------------------------------------------

  type Ledgers = map<string, Ledger>

  /** The worst of the bound data items that were ever observed; among equals the last bound. */
  ghost function WorstBound(bindings: seq<string>, ledgers: Ledgers): Option<(CondState, Option<string>)> {
    if bindings == [] then None
    else
      var worst, last := WorstBound(bindings[..|bindings| - 1], ledgers), bindings[|bindings| - 1];
      if last !in ledgers then worst
      else
        var here := AggregateOf(ledgers[last]);
        if worst.None? || StateSeverity(here.0) >= StateSeverity(worst.value.0) then Some(here) else worst
  }

  ghost function SnapshotOf(l: Ledger): ConditionSnapshot {
    ConditionSnapshot(AggregateOf(l).0, AggregateOf(l).1, |l.active|)
  }

  /** A snapshot made of nothing but the observation at hand. */
  function OwnSnapshot(obs: Observation): ConditionSnapshot {
    var state := if IsCondition(obs) then obs.ConditionState().value else Unavailable;
    ConditionSnapshot(state, obs.TextExtra("nativeCode"), if state in {Warning, Fault} then 1 else 0)
  }

  /** The value, quality and reason of an observation on its own. */
  function OwnTruth(obs: Observation, condition: Option<ConditionSnapshot>): (Option<Json>, Quality, string) {
    match obs.value
    case NoValue => (None, Bad, QUALITY_UNAVAILABLE)
    case Scalar(v) => (Some(v), Good, QUALITY_OK)
    case Condition(_) =>
      var agg := if condition.Some? then condition.value else OwnSnapshot(obs);
      if agg.state == Unavailable then (None, Bad, QUALITY_UNAVAILABLE)
      else
        var q := ConditionQuality(agg.state, agg.nativeCode);
        (Some(Text(StateName(agg.state))), q.0, q.1)
  }

  /** The bound quality is taken only where it is strictly worse than the own one. */
  function Degraded(own: (Quality, string), bound: Option<(CondState, Option<string>)>): (Quality, string) {
    if own.0 == Bad || bound.None? then own
    else
      var b := ConditionQuality(bound.value.0, bound.value.1);
      if Severity(b.0) > Severity(own.0) then b else own
  }

  function ExtrasOf(obs: Observation, condition: Option<ConditionSnapshot>): Extras {
    var base := AddAll(map["sequence" := Num(obs.sequence as real)], obs.extras);
    if !IsCondition(obs) then base
    else base["activeConditions" := Num((if condition.Some? then condition.value else OwnSnapshot(obs)).active as real)]
  }

  function AddAll(m: Extras, extras: seq<(string, Json)>): Extras
    decreases extras
  {
    if extras == [] then m else AddAll(m[extras[0].0 := extras[0].1], extras[1..])
  }

  function ItemName(obs: Observation, model: ProbeModel): Option<string> {
    if obs.dataItemId in model then model[obs.dataItemId].name else None
  }

  function PathOf(dataItemId: string, model: ProbeModel): Option<string> {
    if dataItemId in model then Some(model[dataItemId].componentPath) else None
  }

  function BuildReading(obs: Observation, sig: SignalConfig, model: ProbeModel, condition: Option<ConditionSnapshot>,
                        bound: Option<(CondState, Option<string>)>): Reading
  {
    var own := OwnTruth(obs, condition);
    var q := Degraded((own.1, own.2), bound);
    Reading(sig.id,
            if sig.name.Some? then sig.name else if obs.name.Some? then obs.name else ItemName(obs, model),
            own.0, q.0, Some(q.1),
            None, if obs.timestamp != "" then Some(obs.timestamp) else None, obs.received,
            Some(ExtrasOf(obs, condition)), sig.channel, PathOf(obs.dataItemId, model))
  }

  ghost function ReadingFrom(obs: Observation, sig: SignalConfig, model: ProbeModel, ledgers: Ledgers,
                             condition: Option<ConditionSnapshot>): Reading
  {
    BuildReading(obs, sig, model, condition, WorstBound(sig.Bindings(), ledgers))
  }

  /** Binding never improves a quality: a reading is exactly as bad as the worst of its own quality and
      the quality of every bound data item that was observed. */
  ghost function WorstSeverity(own: Quality, bindings: seq<string>, ledgers: Ledgers): nat {
    if bindings == [] then Severity(own)
    else
      var rest, last := WorstSeverity(own, bindings[..|bindings| - 1], ledgers), bindings[|bindings| - 1];
      if last !in ledgers then rest
      else
        var a := AggregateOf(ledgers[last]);
        var here := Severity(ConditionQuality(a.0, a.1).0);
        if here > rest then here else rest
  }

  lemma {:induction false} BindingTakesTheWorst(own: (Quality, string), bindings: seq<string>, ledgers: Ledgers)
    ensures Severity(Degraded(own, WorstBound(bindings, ledgers)).0) == WorstSeverity(own.0, bindings, ledgers)
    ensures Severity(Degraded(own, WorstBound(bindings, ledgers)).0) == Severity(own.0) ==>
              Degraded(own, WorstBound(bindings, ledgers)) == own
  {
    if bindings != [] {
      BindingTakesTheWorst(own, bindings[..|bindings| - 1], ledgers);
    }
  }

  // ---------------------------------------------------------------------------------------------
  // Ledgers and events after everything seen
  // ---------------------------------------------------------------------------------------------

  function LedgerIn(ledgers: Ledgers, id: string): Ledger {
    if id in ledgers then ledgers[id] else EMPTY_LEDGER
  }

  function FoldInto(ledgers: Ledgers, obs: Observation): Ledgers {
    if !IsCondition(obs) then ledgers
    else ledgers[obs.dataItemId := Fold(LedgerIn(ledgers, obs.dataItemId), obs)]
  }

  datatype Sighting = Sighting(obs: Observation, now: nat)

  type Sightings = History<Sighting>

  function LedgersAfter(seen: Sightings): Ledgers {
    match seen
    case Start => map[]
    case Then(past, s) => FoldInto(LedgersAfter(past), s.obs)
  }

  /** The condition observations of one data item. */
  function ConditionsOf(id: string, seen: Sightings): seq<Observation> {
    match seen
    case Start => []
    case Then(past, s) => ConditionsOf(id, past) + if IsCondition(s.obs) && s.obs.dataItemId == id then [s.obs] else []
  }

  /** Every ledger is the fold of its own data item's whole history. */
  lemma {:induction false} LedgerIsItsHistory(id: string, seen: Sightings)
    ensures LedgerIn(LedgersAfter(seen), id) == FoldAll(EMPTY_LEDGER, ConditionsOf(id, seen))
    ensures id in LedgersAfter(seen) <==> ConditionsOf(id, seen) != []
  {
    if seen.Then? {
      LedgerIsItsHistory(id, seen.past);
      var past := ConditionsOf(id, seen.past);
      assert past + [] == past;
      FoldAllSnoc(EMPTY_LEDGER, past, seen.event.obs);
    }
  }

  ghost function StateAfter(id: string, seen: Sightings): CondState {
    AggregateOf(LedgerIn(LedgersAfter(seen), id)).0
  }

  /** Whether the last observation raises a condition event. */
  ghost predicate Raises(seen: Sightings)
    decreases seen, 0
  {
    && seen.Then? && IsCondition(seen.event.obs)
    && var id := seen.event.obs.dataItemId;
       && StateAfter(id, seen) == Fault
       && StateAfter(id, seen.past) != Fault
       && Allows(LastEvent(id, seen.past), seen.event.now)
  }

  /** When a data item last raised one. */
  ghost function LastEvent(id: string, seen: Sightings): Option<nat>
    decreases seen, 1
  {
    if seen.Start? then None
    else if seen.event.obs.dataItemId == id && Raises(seen) then Some(seen.event.now)
    else LastEvent(id, seen.past)
  }

  /** The limiter: a clock that stands still or runs backwards never allows. */
  predicate Allows(last: Option<nat>, now: nat) {
    last.None? || last.value + CONDITION_EVENT_INTERVAL <= now
  }

  ghost function NoticeFor(seen: Sightings): Notice
    requires seen.Then?
  {
    var obs, before := seen.event.obs, LedgersAfter(seen.past);
    Notice(obs.dataItemId,
           if obs.dataItemId in before then Some(StateAfter(obs.dataItemId, seen.past)) else None,
           obs.TextExtra("nativeCode"), obs.TextExtra("conditionId"),
           |LedgerIn(LedgersAfter(seen), obs.dataItemId).active|, obs.timestamp)
  }

  ghost function NoticesAfter(seen: Sightings): seq<Notice> {
    if seen.Start? then []
    else if Raises(seen) then NoticesAfter(seen.past) + [NoticeFor(seen)]
    else NoticesAfter(seen.past)
  }

  lemma {:induction false} LastEventCovers(event: Sightings, seen: Sightings)
    requires Raises(event) && (event == seen || Earlier(event, seen))
    ensures var last := LastEvent(event.event.obs.dataItemId, seen); last.Some? && event.event.now <= last.value
  {
    if event != seen {
      LastEventCovers(event, seen.past);
    }
  }

  /** Two events of one data item, over any run of batches and whatever the clock does, are at least the
      interval apart, and in between the data item left the Fault state. */
  lemma EventsAreSpaced(first: Sightings, second: Sightings)
    requires Raises(first) && Raises(second) && Earlier(first, second)
    requires first.event.obs.dataItemId == second.event.obs.dataItemId
    ensures first.event.now + CONDITION_EVENT_INTERVAL <= second.event.now
    ensures exists between :: Earlier(first, between) && Earlier(between, second)
                              && StateAfter(first.event.obs.dataItemId, between) != Fault
  {
    LastEventCovers(first, second.past);
    assert Earlier(first, second.past) && Earlier(second.past, second);
  }

  /** Any chain of n + 1 events of one data item spans at least n intervals. */
  lemma {:induction false} ManyEventsSpan(id: string, events: seq<Sightings>)
    requires events != [] && forall i :: 0 <= i < |events| ==> events[i].Then?
    requires forall i :: 0 <= i < |events| ==> Raises(events[i]) && events[i].event.obs.dataItemId == id
    requires forall i :: 0 < i < |events| ==> Earlier(events[i - 1], events[i])
    ensures events[0].event.now + CONDITION_EVENT_INTERVAL * (|events| - 1) <= events[|events| - 1].event.now
  {
    if |events| > 1 {
      var n := |events| - 1;
      ManyEventsSpan(id, events[..n]);
      EventsAreSpaced(events[n - 1], events[n]);
    }
  }

  /** The limiter starts empty in every session, so the spacing ends with it: the first Fault of a session raises
      an event whatever its clock and whatever an earlier session raised. */
  lemma FirstFaultRaises(obs: Observation, now: nat)
    requires obs.ConditionState() == Some(Fault)
    ensures Raises(Then(Start, Sighting(obs, now)))
  {
    var key := ActivationKey(obs);
    var l := Fold(EMPTY_LEDGER, obs);
    var after := Then(Start, Sighting(obs, now));
    assert LedgerIn(LedgersAfter(after), obs.dataItemId) == l;
    assert l.active == map[key := ActivationOf(obs)];
    assert Leads(l.active, key);
    assert Aggregates(l, Fault, ActivationOf(obs).nativeCode);
    AggregateIsAFunction(l, Fault, ActivationOf(obs).nativeCode, AggregateOf(l).0, AggregateOf(l).1);
    assert AggregateOf(EMPTY_LEDGER).0 == Normal;
  }

  // ---------------------------------------------------------------------------------------------
  // The two passes
  // ---------------------------------------------------------------------------------------------

  /** What an observation publishes as its condition: its data item's aggregate over everything seen up to
      and including it. */
  ghost function SnapshotAt(seen: Sightings): Option<ConditionSnapshot>
    requires seen.Then?
  {
    var obs := seen.event.obs;
    if IsCondition(obs) then Some(SnapshotOf(LedgerIn(LedgersAfter(seen), obs.dataItemId))) else None
  }

  /** A history continued by a batch. */
  function Extend(past: Sightings, batch: seq<Observation>, now: nat): Sightings
    decreases batch
  {
    if batch == [] then past else Extend(Then(past, Sighting(batch[0], now)), batch[1..], now)
  }

  /** The first pass: what each observation's data item aggregates to as the batch goes by. */
  ghost function SnapshotsOf(past: Sightings, batch: seq<Observation>, now: nat): (r: seq<Option<ConditionSnapshot>>)
    ensures |r| == |batch|
    decreases batch
  {
    if batch == [] then []
    else
      var next := Then(past, Sighting(batch[0], now));
      [SnapshotAt(next)] + SnapshotsOf(next, batch[1..], now)
  }

  /** The readings of one observation, for every served signal bound to its data item. */
  ghost function ReadingsOf(obs: Observation, served: seq<SignalConfig>, model: ProbeModel, ledgers: Ledgers,
                            condition: Option<ConditionSnapshot>): seq<Reading>
  {
    if served == [] then []
    else
      (if served[0].dataItemId == obs.dataItemId then [ReadingFrom(obs, served[0], model, ledgers, condition)] else [])
      + ReadingsOf(obs, served[1..], model, ledgers, condition)
  }

  /** The second pass: every observation against one set of ledgers and its own snapshot. */
  ghost function MappedWith(batch: seq<Observation>, snapshots: seq<Option<ConditionSnapshot>>,
                            served: seq<SignalConfig>, model: ProbeModel, ledgers: Ledgers): seq<Reading>
    requires |batch| == |snapshots|
  {
    if batch == [] then []
    else
      ReadingsOf(batch[0], served, model, ledgers, snapshots[0])
      + MappedWith(batch[1..], snapshots[1..], served, model, ledgers)
  }

  /** A batch, mapped: each condition sample carries the history up to itself, each bound value the ledgers
      as the whole batch leaves them. */
  ghost function Mapped(past: Sightings, batch: seq<Observation>, now: nat, served: seq<SignalConfig>,
                        model: ProbeModel, ledgers: Ledgers): seq<Reading>
  {
    MappedWith(batch, SnapshotsOf(past, batch, now), served, model, ledgers)
  }

  class MtcSession {
    var model: ProbeModel
    var served: seq<SignalConfig>
    /** The explicit signals the model does not describe. */
    var unbound: seq<string>
    var conditions: map<string, ConditionLedger>
    var lastConditionEvent: map<string, nat>
    var notices: seq<Notice>

    /** Every observation folded in so far, and when. */
    ghost var seen: Sightings
    /** The notices already handed out. */
    ghost var taken: seq<Notice>

    ghost predicate Valid()
      reads this, conditions.Values
    {
      Holds(LedgersAfter(seen)) && Announced(seen)
    }

    /** The ledger objects are distinct and stand where some ledger values say. */
    ghost predicate Holds(ledgers: Ledgers)
      reads this`conditions, conditions.Values
    {
      && conditions.Keys == ledgers.Keys
      && (forall a, b :: a in conditions && b in conditions && a != b ==> conditions[a] != conditions[b])
      && (forall id :: id in conditions ==> conditions[id].State() == ledgers[id])
    }

    /** The limiter and the notices are what a history raises. */
    ghost predicate Announced(seen: Sightings)
      reads this`lastConditionEvent, this`notices, this`taken
    {
      && (forall id :: Remembers(id, lastConditionEvent, seen))
      && taken + notices == NoticesAfter(seen)
    }

    constructor (model: ProbeModel, explicit: seq<SignalConfig>, served: seq<SignalConfig>)
      ensures Valid()
      ensures this.model == model && this.served == served && this.unbound == UnboundIds(explicit, model)
      ensures seen == Start && taken == []
    {
      this.model, this.served := model, served;
      conditions, lastConditionEvent, notices := map[], map[], [];
      seen, taken := Start, [];
      unbound := [];
      new;
      for n := 0 to |explicit|
        invariant Valid() && this.model == model && this.served == served && seen == Start && taken == []
        invariant unbound == UnboundIds(explicit[..n], model)
      {
        assert explicit[..n + 1][..n] == explicit[..n];
        if explicit[n].dataItemId !in model {
          unbound := unbound + [explicit[n].id];
        }
      }
      assert explicit[..|explicit|] == explicit;
    }

    /** Drain the notices. */
    method TakeNotices() returns (out: seq<Notice>)
      requires Valid()
      modifies this`notices, this`taken
      ensures Valid() && notices == []
      ensures out == old(notices) && taken == old(taken) + out
    {
      out := notices;
      taken := taken + notices;
      notices := [];
      assert taken + [] == taken;
    }

    /** Whether a data item may raise an event now; remembers that it did. */
    method AllowConditionEvent(dataItemId: string, now: nat) returns (allowed: bool)
      modifies this`lastConditionEvent
      ensures allowed == Allows(Get(old(lastConditionEvent), dataItemId), now)
      ensures lastConditionEvent == if allowed then old(lastConditionEvent)[dataItemId := now]
          else old(lastConditionEvent)
    {
      if && dataItemId in lastConditionEvent
         && SaturatingSub(now, lastConditionEvent[dataItemId]) < CONDITION_EVENT_INTERVAL
      {
        return false;
      }
      lastConditionEvent := lastConditionEvent[dataItemId := now];
      allowed := true;
    }

    /** Fold one condition observation into its data item's ledger, creating it if need be. */
    method FoldLedger(obs: Observation, ghost ledgers: Ledgers)
      returns (known: bool, previous: CondState, snapshot: ConditionSnapshot)
      requires IsCondition(obs) && Holds(ledgers)
      modifies this`conditions, conditions.Values
      ensures Holds(FoldInto(ledgers, obs)) && fresh(conditions.Values - old(conditions.Values))
      ensures known == (obs.dataItemId in ledgers)
      ensures previous == AggregateOf(LedgerIn(ledgers, obs.dataItemId)).0
      ensures snapshot == SnapshotOf(FoldInto(ledgers, obs)[obs.dataItemId])
    {
      var id := obs.dataItemId;
      known := id in conditions;
      if !known {
        var empty := new ConditionLedger();
        conditions := conditions[id := empty];
      }
      var ledger := conditions[id];
      assert ledger.State() == LedgerIn(ledgers, id);
      var was, code := ledger.Aggregate();
      previous := was;
      ledger.Apply(obs);
      var state, nativeCode := ledger.Aggregate();
      snapshot := ConditionSnapshot(state, nativeCode, |ledger.active|);
    }

    /** Raise an event when the aggregate has just become Fault and the limiter allows it. */
    method Announce(obs: Observation, now: nat, known: bool, previous: CondState, snapshot: ConditionSnapshot)
      requires Announced(seen) && IsCondition(obs)
      requires known == (obs.dataItemId in LedgersAfter(seen)) && previous == StateAfter(obs.dataItemId, seen)
      requires snapshot == SnapshotOf(LedgerIn(LedgersAfter(Then(seen, Sighting(obs, now))), obs.dataItemId))
      modifies this`lastConditionEvent, this`notices
      ensures Announced(Then(seen, Sighting(obs, now)))
    {
      assert Remembers(obs.dataItemId, lastConditionEvent, seen);
      if snapshot.state == Fault && previous != Fault {
        var allowed := AllowConditionEvent(obs.dataItemId, now);
        if allowed {
          notices := notices + [Notice(obs.dataItemId, if known then Some(previous) else None,
                                       obs.TextExtra("nativeCode"), obs.TextExtra("conditionId"),
                                       snapshot.active, obs.timestamp)];
        }
      }
      forall id ensures Remembers(id, lastConditionEvent, Then(seen, Sighting(obs, now))) {
        assert Remembers(id, old(lastConditionEvent), seen);
      }
    }

    /** Fold one observation in, and say what its data item now aggregates to. */
    method FoldOne(obs: Observation, now: nat) returns (snapshot: Option<ConditionSnapshot>)
      requires Valid()
      modifies this`conditions, this`lastConditionEvent, this`notices, this`seen, conditions.Values
      ensures Valid() && fresh(conditions.Values - old(conditions.Values))
      ensures seen == Then(old(seen), Sighting(obs, now))
      ensures snapshot == SnapshotAt(seen)
    {
      if obs.ConditionState().Some? {
        var known, previous, after := FoldLedger(obs, LedgersAfter(seen));
        Announce(obs, now, known, previous, after);
        snapshot := Some(after);
      } else {
        snapshot := None;
        forall id ensures Remembers(id, lastConditionEvent, Then(seen, Sighting(obs, now))) {
          assert Remembers(id, lastConditionEvent, seen);
        }
      }
      seen := Then(seen, Sighting(obs, now));
    }

    /** Look up each bound data item's aggregate, and keep the worst. */
    method WorstBoundCondition(sig: SignalConfig, ghost ledgers: Ledgers)
      returns (worst: Option<(CondState, Option<string>)>)
      requires Holds(ledgers)
      ensures worst == WorstBound(sig.Bindings(), ledgers)
    {
      var bindings := sig.Bindings();
      worst := None;
      for n := 0 to |bindings|
        invariant worst == WorstBound(bindings[..n], ledgers)
      {
        assert bindings[..n + 1][..n] == bindings[..n];
        if bindings[n] in conditions {
          var state, code := conditions[bindings[n]].Aggregate();
          if worst.None? || StateSeverity(state) >= StateSeverity(worst.value.0) {
            worst := Some((state, code));
          }
        }
      }
      assert bindings[..|bindings|] == bindings;
    }

    /** The first pass: fold every observation, keeping what each condition aggregated to at that point. */
    method FoldBatch(observations: seq<Observation>, now: nat) returns (snapshots: seq<Option<ConditionSnapshot>>)
      requires Valid()
      modifies this`conditions, this`lastConditionEvent, this`notices, this`seen, conditions.Values
      ensures Valid() && fresh(conditions.Values - old(conditions.Values))
      ensures seen == Extend(old(seen), observations, now)
      ensures snapshots == SnapshotsOf(old(seen), observations, now)
    {
      snapshots := [];
      for n := 0 to |observations|
        invariant Valid() && fresh(conditions.Values - old(conditions.Values))
        invariant Extend(seen, observations[n..], now) == Extend(old(seen), observations, now)
        invariant snapshots + SnapshotsOf(seen, observations[n..], now) == SnapshotsOf(old(seen), observations, now)
      {
        assert observations[n..][1..] == observations[n + 1..];
        var snapshot := FoldOne(observations[n], now);
        snapshots := snapshots + [snapshot];
      }
    }

    /** Turn a batch of observations into readings, in two passes: fold every transition first, then map
        everything against what the whole batch leaves of the ledgers. */
    method MapBatchAt(observations: seq<Observation>, now: nat) returns (out: seq<Reading>)
      requires Valid()
      modifies this`conditions, this`lastConditionEvent, this`notices, this`seen, conditions.Values
      ensures Valid() && fresh(conditions.Values - old(conditions.Values))
      ensures seen == Extend(old(seen), observations, now)
      ensures out == Mapped(old(seen), observations, now, served, model, LedgersAfter(seen))
    {
      var snapshots := FoldBatch(observations, now);
      ghost var ledgers := LedgersAfter(seen);
      out := [];
      for n := 0 to |observations|
        invariant out + MappedWith(observations[n..], snapshots[n..], served, model, ledgers)
                  == MappedWith(observations, snapshots, served, model, ledgers)
        modifies {}
      {
        assert observations[n..][1..] == observations[n + 1..] && snapshots[n..][1..] == snapshots[n + 1..];
        var more := MapOne(observations[n], snapshots[n], ledgers);
        out := out + more;
      }
    }

    /** What a read answers: the batch, mapped, and then the permanent BAD of every explicit signal the model does
        not describe. */
    method ReadSignals(observations: seq<Observation>, now: nat) returns (out: seq<Reading>)
      requires Valid()
      modifies this`conditions, this`lastConditionEvent, this`notices, this`seen, conditions.Values
      ensures Valid() && fresh(conditions.Values - old(conditions.Values))
      ensures seen == Extend(old(seen), observations, now)
      ensures out == Mapped(old(seen), observations, now, served, model, LedgersAfter(seen)) + UnboundReadings(unbound)
    {
      out := MapBatchAt(observations, now);
      out := out + UnboundReadings(unbound);
    }

    /** Map one observation onto every served signal bound to its data item. */
    method MapOne(obs: Observation, snapshot: Option<ConditionSnapshot>, ghost ledgers: Ledgers)
      returns (out: seq<Reading>)
      requires Holds(ledgers)
      ensures out == ReadingsOf(obs, served, model, ledgers, snapshot)
    {
      out := [];
      for n := 0 to |served|
        invariant out + ReadingsOf(obs, served[n..], model, ledgers, snapshot)
                  == ReadingsOf(obs, served, model, ledgers, snapshot)
      {
        ghost var rest := ReadingsOf(obs, served[n + 1..], model, ledgers, snapshot);
        assert served[n..][1..] == served[n + 1..];
        assert served[n].dataItemId != obs.dataItemId ==>
          ReadingsOf(obs, served[n..], model, ledgers, snapshot) == rest;
        if served[n].dataItemId == obs.dataItemId {
          var bound := WorstBoundCondition(served[n], ledgers);
          out := out + [BuildReading(obs, served[n], model, snapshot, bound)];
        }
      }
    }
  }

  ghost predicate Remembers(id: string, last: map<string, nat>, seen: Sightings) {
    Get(last, id) == LastEvent(id, seen)
  }

  function SaturatingSub(a: nat, b: nat): nat {
    if a < b then 0 else a - b
  }

  // ---------------------------------------------------------------------------------------------
  // Order independence of a batch
  // ---------------------------------------------------------------------------------------------

  lemma {:induction false} ExtendConcat(past: Sightings, a: seq<Observation>, b: seq<Observation>, now: nat)
    ensures Extend(past, a + b, now) == Extend(Extend(past, a, now), b, now)
    ensures SnapshotsOf(past, a + b, now) == SnapshotsOf(past, a, now) + SnapshotsOf(Extend(past, a, now), b, now)
    decreases a
  {
    if a == [] {
      assert a + b == b;
    } else {
      assert (a + b)[1..] == a[1..] + b;
      ExtendConcat(Then(past, Sighting(a[0], now)), a[1..], b, now);
    }
  }

  lemma {:induction false} MappedConcat(a: seq<Observation>, sa: seq<Option<ConditionSnapshot>>, b: seq<Observation>,
                                        sb: seq<Option<ConditionSnapshot>>, served: seq<SignalConfig>,
                                        model: ProbeModel, ledgers: Ledgers)
    requires |a| == |sa| && |b| == |sb|
    ensures MappedWith(a + b, sa + sb, served, model, ledgers)
            == MappedWith(a, sa, served, model, ledgers) + MappedWith(b, sb, served, model, ledgers)
  {
    if a == [] {
      assert a + b == b && sa + sb == sb;
    } else {
      assert (a + b)[1..] == a[1..] + b && (sa + sb)[1..] == sa[1..] + sb;
      MappedConcat(a[1..], sa[1..], b, sb, served, model, ledgers);
    }
  }

  /** Two histories the ledgers cannot tell apart stay so, and give a batch the same snapshots. */
  lemma {:induction false} LedgersDecide(one: Sightings, two: Sightings, batch: seq<Observation>, now: nat)
    requires LedgersAfter(one) == LedgersAfter(two)
    ensures LedgersAfter(Extend(one, batch, now)) == LedgersAfter(Extend(two, batch, now))
    ensures SnapshotsOf(one, batch, now) == SnapshotsOf(two, batch, now)
    decreases batch
  {
    if batch != [] {
      LedgersDecide(Then(one, Sighting(batch[0], now)), Then(two, Sighting(batch[0], now)), batch[1..], now);
    }
  }

  /** A value may stand anywhere in its batch: what it publishes, what everything else publishes and the
      ledgers left behind are those of the batch without it, with its own readings put in its place. */
  lemma ValuePositionDoesNotMatter(past: Sightings, a: seq<Observation>, v: Observation, b: seq<Observation>, now: nat,
                                   served: seq<SignalConfig>, model: ProbeModel, ledgers: Ledgers)
    requires !IsCondition(v)
    ensures LedgersAfter(Extend(past, a + [v] + b, now)) == LedgersAfter(Extend(past, a + b, now))
    ensures var mid := Extend(past, a, now);
            && Mapped(past, a + b, now, served, model, ledgers)
               == Mapped(past, a, now, served, model, ledgers) + Mapped(mid, b, now, served, model, ledgers)
            && Mapped(past, a + [v] + b, now, served, model, ledgers)
               == Mapped(past, a, now, served, model, ledgers)
                  + ReadingsOf(v, served, model, ledgers, None)
                  + Mapped(mid, b, now, served, model, ledgers)
  {
    var mid := Extend(past, a, now);
    var sa, sb := SnapshotsOf(past, a, now), SnapshotsOf(mid, b, now);
    ExtendConcat(past, a, b, now);
    MappedConcat(a, sa, b, sb, served, model, ledgers);
    ExtendConcat(past, a + [v], b, now);
    ExtendConcat(past, a, [v], now);
    assert Extend(mid, [v], now) == Then(mid, Sighting(v, now)) && SnapshotsOf(mid, [v], now) == [None];
    LedgersDecide(mid, Then(mid, Sighting(v, now)), b, now);
    MappedConcat(a + [v], sa + [None], b, sb, served, model, ledgers);
    MappedConcat(a, sa, [v], [None], served, model, ledgers);
    assert MappedWith([v], [None], served, model, ledgers) == ReadingsOf(v, served, model, ledgers, None);
  }

  /** The condition observations of one data item in a batch. */
  function Only(id: string, batch: seq<Observation>): seq<Observation> {
    if batch == [] then []
    else (if IsCondition(batch[0]) && batch[0].dataItemId == id then [batch[0]] else []) + Only(id, batch[1..])
  }

  lemma {:induction false} OnlyConcat(id: string, a: seq<Observation>, b: seq<Observation>)
    ensures Only(id, a + b) == Only(id, a) + Only(id, b)
  {
    if a == [] {
      assert a + b == b;
    } else {
      assert (a + b)[0] == a[0] && (a + b)[1..] == a[1..] + b;
      OnlyConcat(id, a[1..], b);
    }
  }

  lemma OnlyWithout(id: string, batch: seq<Observation>, i: nat)
    requires i < |batch|
    ensures multiset(Only(id, batch)) == multiset(Only(id, batch[..i] + batch[i + 1..]))
        + multiset(Only(id, [batch[i]]))
  {
    assert batch == batch[..i] + ([batch[i]] + batch[i + 1..]);
    OnlyConcat(id, batch[..i], batch[i + 1..]);
    OnlyConcat(id, batch[..i], [batch[i]] + batch[i + 1..]);
    OnlyConcat(id, [batch[i]], batch[i + 1..]);
  }

  /** Rearranging a batch rearranges what concerns one data item. */
  lemma {:induction false} OnlyRearranged(id: string, batch: seq<Observation>, other: seq<Observation>)
    requires multiset(batch) == multiset(other)
    ensures multiset(Only(id, batch)) == multiset(Only(id, other))
    decreases |other|
  {
    if other == [] {
      assert |multiset(batch)| == |batch| == 0;
    } else {
      var n := |other| - 1;
      var i := FoundIn(batch, other, n);
      TakeOutOfBoth(batch, i, other, n);
      OnlyWithout(id, batch, i);
      OnlyWithout(id, other, n);
      OnlyRearranged(id, batch[..i] + batch[i + 1..], other[..n] + other[n + 1..]);
    }
  }

  lemma {:induction false} FoldAllFront(l: Ledger, first: Observation, rest: seq<Observation>)
    ensures FoldAll(l, [first] + rest) == FoldAll(Fold(l, first), rest)
  {
    if rest == [] {
      assert [first] + rest == [first] && [first][..0] == [];
      assert FoldAll(l, [first]) == Fold(FoldAll(l, []), first);
    } else {
      var n := |rest| - 1;
      FoldAllFront(l, first, rest[..n]);
      assert ([first] + rest)[..n + 1] == [first] + rest[..n];
    }
  }

  lemma {:induction false} BatchFoldsPerItem(id: string, past: Sightings, batch: seq<Observation>, now: nat)
    ensures LedgerIn(LedgersAfter(Extend(past, batch, now)), id)
            == FoldAll(LedgerIn(LedgersAfter(past), id), Only(id, batch))
    ensures id in LedgersAfter(Extend(past, batch, now)) <==> id in LedgersAfter(past) || Only(id, batch) != []
    decreases batch
  {
    if batch != [] {
      var next := Then(past, Sighting(batch[0], now));
      BatchFoldsPerItem(id, next, batch[1..], now);
      if IsCondition(batch[0]) && batch[0].dataItemId == id {
        FoldAllFront(LedgerIn(LedgersAfter(past), id), batch[0], Only(id, batch[1..]));
      } else {
        assert [] + Only(id, batch[1..]) == Only(id, batch[1..]);
      }
    }
  }

  /** A batch whose transitions are pairwise compatible on every data item leaves the same ledgers however the
      agent ordered it; by `Mapped`, every bound value in it then publishes the same quality. */
  lemma BatchOrderDoesNotMatter(past: Sightings, batch: seq<Observation>, other: seq<Observation>, now: nat)
    requires multiset(batch) == multiset(other)
    requires forall id :: Pairwise(Only(id, batch))
    ensures LedgersAfter(Extend(past, batch, now)) == LedgersAfter(Extend(past, other, now))
  {
    var a, b := LedgersAfter(Extend(past, batch, now)), LedgersAfter(Extend(past, other, now));
    forall id ensures id in a <==> id in b ensures LedgerIn(a, id) == LedgerIn(b, id) {
      BatchFoldsPerItem(id, past, batch, now);
      BatchFoldsPerItem(id, past, other, now);
      OnlyRearranged(id, batch, other);
      OrderDoesNotMatter(LedgerIn(LedgersAfter(past), id), Only(id, batch), Only(id, other));
      assert |Only(id, batch)| == |multiset(Only(id, batch))| && |Only(id, other)| == |multiset(Only(id, other))|;
    }
    forall id | id in a ensures a[id] == b[id] {
      assert LedgerIn(a, id) == LedgerIn(b, id);
    }
  }

  // ---------------------------------------------------------------------------------------------
  // Signals the model does not describe
  // ---------------------------------------------------------------------------------------------

  /** The explicit signals whose data item the model does not have. */
  function UnboundIds(signals: seq<SignalConfig>, model: ProbeModel): seq<string> {
    if signals == [] then []
    else
      var last := signals[|signals| - 1];
      UnboundIds(signals[..|signals| - 1], model) + if last.dataItemId in model then [] else [last.id]
  }

  /** Their permanent BAD: no value and no route. */
  function UnboundReadings(ids: seq<string>): (r: seq<Reading>)
    ensures |r| == |ids| && forall i :: 0 <= i < |r| ==> r[i] == BadReading(ids[i], QUALITY_NO_SUCH_DATAITEM)
  {
    seq(|ids|, i requires 0 <= i < |ids| => BadReading(ids[i], QUALITY_NO_SUCH_DATAITEM))
  }

  // ---------------------------------------------------------------------------------------------
  // What the shaping engine and the watchdog rely on
  // ---------------------------------------------------------------------------------------------

  /** The policy a served signal compiles to: a deadband only on SAMPLE items, and the signal's route. */
  function PolicyOf(sig: SignalConfig, model: ProbeModel): Shaping.PublishPolicy {
    var p := sig.PublishPolicy();
    var isSample := sig.dataItemId in model && model[sig.dataItemId].category == Sample;
    Shaping.PublishPolicy(p.batchMs, p.interval, if isSample then p.deadband else None,
                          SignalRoute(sig.channel, PathOf(sig.dataItemId, model), sig.name))
  }

  /** Among the first `n` served signals, no later one of the same id has a policy that is not trivial. */
  ghost predicate Governs(i: int, n: nat, served: seq<SignalConfig>, model: ProbeModel)
    requires n <= |served|
  {
    && 0 <= i < n && !PolicyOf(served[i], model).IsTrivial()
    && forall j :: i < j < n && served[j].id == served[i].id ==> PolicyOf(served[j], model).IsTrivial()
  }

  /** A table compiled from the first `n` served signals: an id has the policy of the last signal of that id whose
      policy is not trivial, and none when there is no such signal. */
  ghost predicate CompiledFrom(table: Policies, n: nat, served: seq<SignalConfig>, model: ProbeModel)
    requires n <= |served|
  {
    && (forall id :: id in table ==> exists i :: Governs(i, n, served, model) && served[i].id == id)
    && (forall i :: Governs(i, n, served, model) ==>
          served[i].id in table && table[served[i].id] == PolicyOf(served[i], model))
  }

  ghost predicate Compiles(table: Policies, served: seq<SignalConfig>, model: ProbeModel) {
    CompiledFrom(table, |served|, served, model)
  }

  /** One more served signal governs its own id, unless its policy is trivial, and leaves the other ids alone. */
  lemma GovernsNext(i: int, n: nat, served: seq<SignalConfig>, model: ProbeModel)
    requires n < |served|
    ensures Governs(i, n + 1, served, model)
            <==> if PolicyOf(served[n], model).IsTrivial() then Governs(i, n, served, model)
                 else i == n || (Governs(i, n, served, model) && served[i].id != served[n].id)
  {
  }

  lemma OneMoreServed(table: Policies, n: nat, served: seq<SignalConfig>, model: ProbeModel)
    requires n < |served| && CompiledFrom(table, n, served, model)
    ensures var policy := PolicyOf(served[n], model);
            CompiledFrom(if policy.IsTrivial() then table else table[served[n].id := policy], n + 1, served, model)
  {
    var policy := PolicyOf(served[n], model);
    var next := if policy.IsTrivial() then table else table[served[n].id := policy];
    forall i | Governs(i, n + 1, served, model)
      ensures served[i].id in next && next[served[i].id] == PolicyOf(served[i], model)
    {
      GovernsNext(i, n, served, model);
    }
    forall id | id in next ensures exists i :: Governs(i, n + 1, served, model) && served[i].id == id {
      if !policy.IsTrivial() && id == served[n].id {
        GovernsNext(n, n, served, model);
      } else {
        var i :| Governs(i, n, served, model) && served[i].id == id;
        GovernsNext(i, n, served, model);
      }
    }
  }

  method ShapingPolicies(served: seq<SignalConfig>, model: ProbeModel) returns (table: Policies)
    ensures Compiles(table, served, model)
  {
    table := map[];
    for n := 0 to |served|
      invariant CompiledFrom(table, n, served, model)
    {
      OneMoreServed(table, n, served, model);
      var policy := PolicyOf(served[n], model);
      if !policy.IsTrivial() {
        table := table[served[n].id := policy];
      }
    }
  }

  /** Every mapped reading comes from an observation of the batch and a served signal of its data item. */
  lemma {:induction false} MappedFrom(batch: seq<Observation>, snapshots: seq<Option<ConditionSnapshot>>,
                                      served: seq<SignalConfig>, model: ProbeModel, ledgers: Ledgers, r: Reading)
    returns (obs: Observation, sig: SignalConfig, condition: Option<ConditionSnapshot>)
    requires |batch| == |snapshots| && r in MappedWith(batch, snapshots, served, model, ledgers)
    ensures obs in batch
    ensures sig in served && sig.dataItemId == obs.dataItemId && r == ReadingFrom(obs, sig, model, ledgers, condition)
    decreases batch
  {
    if r in ReadingsOf(batch[0], served, model, ledgers, snapshots[0]) {
      obs, condition := batch[0], snapshots[0];
      sig := ReadFrom(obs, served, model, ledgers, condition, r);
    } else {
      obs, sig, condition := MappedFrom(batch[1..], snapshots[1..], served, model, ledgers, r);
    }
  }

  lemma {:induction false} ReadFrom(obs: Observation, served: seq<SignalConfig>, model: ProbeModel, ledgers: Ledgers,
                                    condition: Option<ConditionSnapshot>, r: Reading) returns (sig: SignalConfig)
    requires r in ReadingsOf(obs, served, model, ledgers, condition)
    ensures sig in served && sig.dataItemId == obs.dataItemId && r == ReadingFrom(obs, sig, model, ledgers, condition)
  {
    if served[0].dataItemId == obs.dataItemId && r == ReadingFrom(obs, served[0], model, ledgers, condition) {
      sig := served[0];
    } else {
      sig := ReadFrom(obs, served[1..], model, ledgers, condition, r);
    }
  }

  /** Every reading mapped from a batch is on the route that the table compiled from the same served signals names
      under its id, when the served ids are distinct. */
  lemma MappedReadingsAreOnRoute(batch: seq<Observation>, snapshots: seq<Option<ConditionSnapshot>>,
                                 served: seq<SignalConfig>, model: ProbeModel, ledgers: Ledgers, table: Policies,
                                 r: Reading)
    requires forall i, j :: 0 <= i < j < |served| ==> served[i].id != served[j].id
    requires |batch| == |snapshots| && Compiles(table, served, model)
    requires r in MappedWith(batch, snapshots, served, model, ledgers) && r.signalId in table
    ensures OnRoute(r, table[r.signalId])
  {
    var obs, sig, condition := MappedFrom(batch, snapshots, served, model, ledgers, r);
    var i :| Governs(i, |served|, served, model) && served[i].id == r.signalId;
    assert served[i] == sig;
  }

  /** What a read answers keeps its routes: every GOOD reading is on the route its table names, and whatever is off
      it is the permanent BAD of a signal the model does not describe. */
  lemma ReadsKeepTheirRoutes(past: Sightings, batch: seq<Observation>, now: nat, served: seq<SignalConfig>,
                             unbound: seq<string>, model: ProbeModel, ledgers: Ledgers, table: Policies, r: Reading)
    requires forall i, j :: 0 <= i < j < |served| ==> served[i].id != served[j].id
    requires Compiles(table, served, model) && r.signalId in table
    requires r in Mapped(past, batch, now, served, model, ledgers) + UnboundReadings(unbound)
    ensures Travels(r, table[r.signalId])
    ensures !OnRoute(r, table[r.signalId]) ==>
      r.signalId in unbound && r == BadReading(r.signalId, QUALITY_NO_SUCH_DATAITEM)
  {
    if r in Mapped(past, batch, now, served, model, ledgers) {
      MappedReadingsAreOnRoute(batch, SnapshotsOf(past, batch, now), served, model, ledgers, table, r);
    } else {
      var i :| 0 <= i < |unbound| && UnboundReadings(unbound)[i] == r;
    }
  }

  /** So a read made under the table of its own generation travels as that table says. */
  lemma ReadsTravel(past: Sightings, batch: seq<Observation>, now: nat, served: seq<SignalConfig>,
                    unbound: seq<string>, model: ProbeModel, ledgers: Ledgers, table: Policies)
    requires forall i, j :: 0 <= i < j < |served| ==> served[i].id != served[j].id
    requires Compiles(table, served, model)
    ensures AllTravel(Mapped(past, batch, now, served, model, ledgers) + UnboundReadings(unbound), table)
  {
    var read := Mapped(past, batch, now, served, model, ledgers) + UnboundReadings(unbound);
    forall r | r in read && r.signalId in table ensures Travels(r, table[r.signalId]) {
      ReadsKeepTheirRoutes(past, batch, now, served, unbound, model, ledgers, table, r);
    }
  }

  /** Every explicit signal is served, under its own id and data item. */
  ghost predicate Serves(served: seq<SignalConfig>, explicit: seq<SignalConfig>) {
    forall e :: e in explicit ==> exists s :: s in served && s.id == e.id && s.dataItemId == e.dataItemId
  }

  lemma {:induction false} UnboundFrom(explicit: seq<SignalConfig>, model: ProbeModel, id: string)
    returns (e: SignalConfig)
    requires id in UnboundIds(explicit, model)
    ensures e in explicit && e.id == id && e.dataItemId !in model
  {
    var n := |explicit| - 1;
    if id in UnboundIds(explicit[..n], model) {
      e := UnboundFrom(explicit[..n], model, id);
    } else {
      e := explicit[n];
    }
  }

  /** The permanent BAD of an explicit signal the model does not describe never joins a route: the policy of its id
      names none. */
  lemma MissingIsDescribed(explicit: seq<SignalConfig>, served: seq<SignalConfig>, model: ProbeModel, table: Policies,
                           r: Reading)
    requires forall i, j :: 0 <= i < j < |served| ==> served[i].id != served[j].id
    requires Compiles(table, served, model) && Serves(served, explicit)
    requires r in UnboundReadings(UnboundIds(explicit, model)) && r.signalId in table
    ensures Described(r, table[r.signalId])
  {
    var ids := UnboundIds(explicit, model);
    var k :| 0 <= k < |ids| && UnboundReadings(ids)[k] == r;
    var e := UnboundFrom(explicit, model, ids[k]);
    var s :| s in served && s.id == e.id && s.dataItemId == e.dataItemId;
    var i :| Governs(i, |served|, served, model) && served[i].id == r.signalId;
    assert served[i] == s;
  }

  /** When the model describes every observation of a read, whatever the read answers is described by the table
      compiled from the same served signals, the permanent BADs of missing data items included. */
  lemma ModelledReadsAreDescribed(past: Sightings, batch: seq<Observation>, now: nat, served: seq<SignalConfig>,
                                  explicit: seq<SignalConfig>, model: ProbeModel, ledgers: Ledgers, table: Policies)
    requires forall i, j :: 0 <= i < j < |served| ==> served[i].id != served[j].id
    requires Compiles(table, served, model) && Serves(served, explicit)
    requires forall obs :: obs in batch ==> obs.dataItemId in model
    ensures DescribedUnder(Mapped(past, batch, now, served, model, ledgers)
                           + UnboundReadings(UnboundIds(explicit, model)), table)
  {
    var mapped, missing := Mapped(past, batch, now, served, model, ledgers),
                           UnboundReadings(UnboundIds(explicit, model));
    forall r: Reading | r in mapped + missing && r.signalId in table ensures Described(r, table[r.signalId]) {
      if r in mapped {
        var snapshots := SnapshotsOf(past, batch, now);
        var obs, sig, condition := MappedFrom(batch, snapshots, served, model, ledgers, r);
        MappedReadingsAreOnRoute(batch, snapshots, served, model, ledgers, table, r);
      } else {
        MissingIsDescribed(explicit, served, model, table, r);
      }
    }
  }

  const UNMODELLED := SignalConfig("x", None, Some("plant/x"), "x1", None, Some(PublishCfg(false, 100, None)))
  const REPORTED := Observation("x1", 1, "t", Some("t"), Scalar(Num(1.0)), [], None)

  /** What one read of it answers: its value, and its permanent BAD. */
  lemma UnmodelledRead() returns (value: Reading, missing: Reading)
    ensures value.signalId == "x" && value.quality == Good && value.channel == Some("plant/x")
    ensures missing == BadReading("x", QUALITY_NO_SUCH_DATAITEM)
    ensures OnRoute(value, PolicyOf(UNMODELLED, map[])) && !OnRoute(missing, PolicyOf(UNMODELLED, map[]))
    ensures Mapped(Start, [REPORTED], 0, [UNMODELLED], map[], map[]) + UnboundReadings(UnboundIds([UNMODELLED], map[]))
            == [value, missing]
  {
    var model: ProbeModel := map[];
    value := ReadingFrom(REPORTED, UNMODELLED, model, map[], None);
    missing := BadReading("x", QUALITY_NO_SUCH_DATAITEM);
    assert WorstBound([], map[]) == None;
    assert SnapshotsOf(Start, [REPORTED], 0) == [None];
    assert ReadingsOf(REPORTED, [UNMODELLED], model, map[], None) == [value];
    assert MappedWith([REPORTED], [None], [UNMODELLED], model, map[]) == [value];
    assert UnboundIds([UNMODELLED], model) == ["x"];
  }

  /** A value buffered on its policy's route and then closed by bad news off it make one update on two routes. */
  lemma BufferedThenOffRoute(policy: Shaping.PublishPolicy, value: Reading, missing: Reading)
    requires policy.batchMs > 0 && !policy.latestOnly && policy.deadband.None?
    requires value.signalId == "x" && value.quality == Good && OnRoute(value, policy)
    requires missing.signalId == "x" && missing.quality == Bad && !OnRoute(missing, policy)
    ensures var h := Then(Then(Then(Start, Event.SetPolicies(map["x" := policy])), Event.Offer(value, 0)),
                          Event.Offer(missing, 0));
            Routed(h) && MixesIn("x", h) && exists u :: u in RunLane("x", h).out && !SameRoute(u)
  {
    var h0 := Then(Start, Event.SetPolicies(map["x" := policy]));
    var h1 := Then(h0, Event.Offer(value, 0));
    var h2 := Then(h1, Event.Offer(missing, 0));
    var l0 := Lane(Some(policy), None, None);
    var l1 := Lane(Some(policy), Some(Buffer([value], policy.batchMs)), Some(Noted(None, value)));
    assert RunLane("x", h0) == LaneRun(l0, []);
    assert DispositionOf(l0, value) == Buffered && Widened(l0, value, 0) == Buffer([value], policy.batchMs);
    assert StepLane(l0, "x", Event.Offer(value, 0)) == LaneRun(l1, []);
    assert RunLane("x", h1) == LaneRun(l1, []);
    assert DispositionOf(l1, missing) == QualityFlush && Pending(l1) == [value];
    assert Routed(h0) && Routed(h1);
    MixedExactlyWhenOffRoute("x", h2);
  }

  /** One update can mix two routes: a served signal whose data item the model does not have, but the agent
      reports all the same, publishes its value and its permanent BAD in one update. */
  lemma UnmodelledSignalMixesRoutes()
    ensures var model: ProbeModel := map[];
            var table := map["x" := PolicyOf(UNMODELLED, model)];
            var read := Mapped(Start, [REPORTED], 0, [UNMODELLED], model, map[])
                        + UnboundReadings(UnboundIds([UNMODELLED], model));
            && Compiles(table, [UNMODELLED], model) && |read| == 2
            && var h := Then(Then(Then(Start, Event.SetPolicies(table)), Event.Offer(read[0], 0)),
                             Event.Offer(read[1], 0));
               Routed(h) && MixesIn("x", h) && exists u :: u in RunLane("x", h).out && !SameRoute(u)
  {
    var value, missing := UnmodelledRead();
    assert Governs(0, 1, [UNMODELLED], map[]);
    BufferedThenOffRoute(PolicyOf(UNMODELLED, map[]), value, missing);
  }

  lemma {:induction false} AddAllKeys(m: Extras, extras: seq<(string, Json)>, key: string)
    ensures key in AddAll(m, extras) <==> key in m || exists i :: 0 <= i < |extras| && extras[i].0 == key
    decreases extras
  {
    if extras != [] {
      AddAllKeys(m[extras[0].0 := extras[0].1], extras[1..], key);
      if i :| 0 <= i < |extras| && extras[i].0 == key {
        assert i > 0 ==> extras[1..][i - 1].0 == key;
      }
      if i :| 0 <= i < |extras[1..]| && extras[1..][i].0 == key {
        assert extras[i + 1].0 == key;
      }
    }
  }

  /** What the agent delivered is never taken for the watchdog's own output, unless the agent itself sent
      the marker. */
  lemma DeliveredIsNotSynthetic(obs: Observation, sig: SignalConfig, model: ProbeModel, ledgers: Ledgers,
                                condition: Option<ConditionSnapshot>)
    ensures IsSynthetic(ReadingFrom(obs, sig, model, ledgers, condition))
            <==> exists i :: 0 <= i < |obs.extras| && obs.extras[i].0 == PASSIVE_EXTRA_KEY
  {
    AddAllKeys(map["sequence" := Num(obs.sequence as real)], obs.extras, PASSIVE_EXTRA_KEY);
  }
}
