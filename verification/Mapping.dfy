/** What a mapped reading says (src/device.rs), in the words of the agent's document and of the wire: its value,
    quality and reason, its stamps, extras and route, and which readings a batch is mapped to. */
module Mapping {
  import opened Common
  import opened Readings
  import opened Conditions
  import opened Session

  // ---------------------------------------------------------------------------------------------
  // Quality
  // ---------------------------------------------------------------------------------------------

  /** A bound data item was observed and amounts to this state. */
  ghost predicate BoundTo(bindings: seq<string>, ledgers: Ledgers, state: CondState) {
    exists i :: BoundAt(bindings, ledgers, state, i)
  }

  ghost predicate BoundAt(bindings: seq<string>, ledgers: Ledgers, state: CondState, i: int) {
    0 <= i < |bindings| && bindings[i] in ledgers && AggregateOf(ledgers[bindings[i]]).0 == state
  }

  /** The last bound data item in a state. */
  ghost predicate LastBoundAt(bindings: seq<string>, ledgers: Ledgers, state: CondState, i: int) {
    BoundAt(bindings, ledgers, state, i) && forall j :: i < j ==> !BoundAt(bindings, ledgers, state, j)
  }

  lemma OneBindingMore(bindings: seq<string>, ledgers: Ledgers, state: CondState, i: int)
    requires bindings != []
    ensures var n := |bindings| - 1;
            BoundAt(bindings, ledgers, state, i)
            <==> BoundAt(bindings[..n], ledgers, state, i) || (i == n && BoundAt(bindings, ledgers, state, n))
  {
  }

  /** No observed bound data item is worse than the worst, and the worst is the last bound one in its state. */
  lemma {:induction false} WorstIsWorst(bindings: seq<string>, ledgers: Ledgers)
    ensures var w := WorstBound(bindings, ledgers);
            && (forall state, i :: BoundAt(bindings, ledgers, state, i) ==>
                  w.Some? && StateSeverity(state) <= StateSeverity(w.value.0))
            && (w.Some? ==> exists i :: LastBoundAt(bindings, ledgers, w.value.0, i)
                                        && AggregateOf(ledgers[bindings[i]]).1 == w.value.1)
  {
    if bindings != [] {
      var n := |bindings| - 1;
      var worst, w := WorstBound(bindings[..n], ledgers), WorstBound(bindings, ledgers);
      WorstIsWorst(bindings[..n], ledgers);
      forall state, i ensures BoundAt(bindings, ledgers, state, i) ==>
                                w.Some? && StateSeverity(state) <= StateSeverity(w.value.0) {
        OneBindingMore(bindings, ledgers, state, i);
      }
      WorstIsLast(bindings, ledgers);
    }
  }

  lemma WorstIsLast(bindings: seq<string>, ledgers: Ledgers)
    requires bindings != []
    requires var worst := WorstBound(bindings[..|bindings| - 1], ledgers);
             worst.Some? ==> exists i :: LastBoundAt(bindings[..|bindings| - 1], ledgers, worst.value.0, i)
                                         && AggregateOf(ledgers[bindings[i]]).1 == worst.value.1
    ensures var w := WorstBound(bindings, ledgers);
            w.Some? ==> exists i :: LastBoundAt(bindings, ledgers, w.value.0, i)
                                    && AggregateOf(ledgers[bindings[i]]).1 == w.value.1
  {
    var n := |bindings| - 1;
    var worst, w := WorstBound(bindings[..n], ledgers), WorstBound(bindings, ledgers);
    if bindings[n] in ledgers && w == Some(AggregateOf(ledgers[bindings[n]])) {
      assert LastBoundAt(bindings, ledgers, w.value.0, n);
    } else if w.Some? {
      var i :| LastBoundAt(bindings[..n], ledgers, worst.value.0, i)
               && AggregateOf(ledgers[bindings[i]]).1 == worst.value.1;
      forall j ensures BoundAt(bindings, ledgers, w.value.0, j) <==> BoundAt(bindings[..n], ledgers, w.value.0, j) {
        OneBindingMore(bindings, ledgers, w.value.0, j);
      }
      assert LastBoundAt(bindings, ledgers, w.value.0, i);
    }
  }

  /** The worst bound state: a fault before an unavailable item, that before a warning, that before a normal one; and of
      several in that state, the last bound. */
  lemma WorstBoundSays(bindings: seq<string>, ledgers: Ledgers)
    ensures var w := WorstBound(bindings, ledgers);
            && (w.None? ==> forall i :: 0 <= i < |bindings| ==> bindings[i] !in ledgers)
            && (w.Some? ==>
                  && w.value.0 == (if BoundTo(bindings, ledgers, Fault) then Fault
                                   else if BoundTo(bindings, ledgers, Unavailable) then Unavailable
                                   else if BoundTo(bindings, ledgers, Warning) then Warning else Normal)
                  && exists i :: LastBoundAt(bindings, ledgers, w.value.0, i)
                                 && AggregateOf(ledgers[bindings[i]]).1 == w.value.1)
  {
    WorstIsWorst(bindings, ledgers);
    var w := WorstBound(bindings, ledgers);
    if w.None? {
      forall i | 0 <= i < |bindings| ensures bindings[i] !in ledgers {
        if bindings[i] in ledgers {
          assert BoundAt(bindings, ledgers, AggregateOf(ledgers[bindings[i]]).0, i);
        }
      }
    } else {
      assert BoundTo(bindings, ledgers, w.value.0);
    }
  }

  /** A native code as it is appended to a reason: nothing when there is none, or an empty one. */
  function Suffix(code: Option<string>): string {
    if code == None || code == Some("") then "" else ":" + code.value
  }

  /** The observation is a condition and amounts to this state. */
  predicate Amounts(condition: Option<ConditionSnapshot>, state: CondState) {
    condition.Some? && condition.value.state == state
  }

  /** How bad a reading is. BAD: no value was observed, or the condition, or a bound one, is a fault or unavailable.
      GOOD: none of these, and no warning either. UNCERTAIN: the rest. */
  lemma QualityExactlyWhen(obs: Observation, sig: SignalConfig, model: ProbeModel, ledgers: Ledgers,
                           condition: Option<ConditionSnapshot>)
    requires IsCondition(obs) <==> condition.Some?
    ensures var q, bindings := ReadingFrom(obs, sig, model, ledgers, condition).quality, sig.Bindings();
            var bad := || obs.value.NoValue? || Amounts(condition, Fault) || Amounts(condition, Unavailable)
                       || BoundTo(bindings, ledgers, Fault) || BoundTo(bindings, ledgers, Unavailable);
            var warned := Amounts(condition, Warning) || BoundTo(bindings, ledgers, Warning);
            q == if bad then Bad else if warned then Uncertain else Good
  {
    WorstBoundSays(sig.Bindings(), ledgers);
  }

  /** What it publishes as its value: the observed one; for a condition, the name of what it amounts to; and nothing
      when nothing was observed, or the condition is unavailable. */
  lemma ValueSays(obs: Observation, sig: SignalConfig, model: ProbeModel, ledgers: Ledgers,
                  condition: Option<ConditionSnapshot>)
    requires IsCondition(obs) <==> condition.Some?
    ensures ReadingFrom(obs, sig, model, ledgers, condition).value
            == match obs.value
               case NoValue => None
               case Scalar(v) => Some(v)
               case Condition(_) => (
                 match condition.value.state
                 case Normal => Some(Text("NORMAL"))
                 case Warning => Some(Text("WARNING"))
                 case Fault => Some(Text("FAULT"))
                 case Unavailable => None)
  {
  }

  /** The reason, when the reading is as bad as it is on its own account. */
  lemma OwnReasonSays(obs: Observation, sig: SignalConfig, model: ProbeModel, ledgers: Ledgers,
                      condition: Option<ConditionSnapshot>)
    requires IsCondition(obs) <==> condition.Some?
    ensures var r := ReadingFrom(obs, sig, model, ledgers, condition);
            && (obs.value.NoValue? || Amounts(condition, Unavailable) ==> r.qualityRaw == Some("UNAVAILABLE"))
            && (Amounts(condition, Fault) ==>
                  r.qualityRaw == Some("MTC_CONDITION:FAULT" + Suffix(condition.value.nativeCode)))
            && (r.quality == Uncertain && Amounts(condition, Warning) ==>
                  r.qualityRaw == Some("MTC_CONDITION:WARNING" + Suffix(condition.value.nativeCode)))
            && (r.quality == Good ==> r.qualityRaw == Some(if condition.Some? then "MTC_OK:NORMAL" else "MTC_OK"))
  {
    if condition.Some? {
      ConditionSays(condition.value.state, condition.value.nativeCode);
    }
    if WorstBound(sig.Bindings(), ledgers).Some? {
      var bound := WorstBound(sig.Bindings(), ledgers).value;
      ConditionSays(bound.0, bound.1);
    }
  }

  /** What a condition state implies, literally. */
  lemma ConditionSays(state: CondState, code: Option<string>)
    ensures ConditionQuality(state, code)
            == match state
               case Normal => (Good, "MTC_OK:NORMAL")
               case Warning => (Uncertain, "MTC_CONDITION:WARNING" + Suffix(code))
               case Fault => (Bad, "MTC_CONDITION:FAULT" + Suffix(code))
               case Unavailable => (Bad, "UNAVAILABLE")
  {
    assert QUALITY_OK + ":NORMAL" == "MTC_OK:NORMAL";
    WithCodeSays("MTC_CONDITION:FAULT", code);
    WithCodeSays("MTC_CONDITION:WARNING", code);
  }

  lemma WithCodeSays(prefix: string, code: Option<string>)
    ensures WithCode(prefix, code) == prefix + Suffix(code)
  {
    if code.Some? && code.value != "" {
      assert prefix + ":" + code.value == prefix + (":" + code.value);
    }
  }

  /** The reading is worse than on its own account. */
  ghost predicate MadeWorse(obs: Observation, quality: Quality, condition: Option<ConditionSnapshot>) {
    || (quality == Uncertain && (obs.value.Scalar? || Amounts(condition, Normal)))
    || (quality == Bad && (obs.value.Scalar? || Amounts(condition, Normal) || Amounts(condition, Warning)))
  }

  /** The reason, when a bound condition makes the reading worse: that of the last bound data item in the worst bound
      state, with its native code. */
  lemma BoundReasonSays(obs: Observation, sig: SignalConfig, model: ProbeModel, ledgers: Ledgers,
                        condition: Option<ConditionSnapshot>)
    requires IsCondition(obs) <==> condition.Some?
    requires MadeWorse(obs, ReadingFrom(obs, sig, model, ledgers, condition).quality, condition)
    ensures var r, bindings := ReadingFrom(obs, sig, model, ledgers, condition), sig.Bindings();
            if r.quality == Uncertain then
              exists i :: LastBoundAt(bindings, ledgers, Warning, i)
                          && r.qualityRaw == Some("MTC_CONDITION:WARNING" + Suffix(AggregateOf(ledgers[bindings[i]]).1))
            else if BoundTo(bindings, ledgers, Fault) then
              exists i :: LastBoundAt(bindings, ledgers, Fault, i)
                          && r.qualityRaw == Some("MTC_CONDITION:FAULT" + Suffix(AggregateOf(ledgers[bindings[i]]).1))
            else r.qualityRaw == Some("UNAVAILABLE")
  {
    var bindings := sig.Bindings();
    WorstBoundSays(bindings, ledgers);
    var w := WorstBound(bindings, ledgers).value;
    var i :| LastBoundAt(bindings, ledgers, w.0, i) && AggregateOf(ledgers[bindings[i]]).1 == w.1;
    ConditionSays(w.0, w.1);
  }

  // ---------------------------------------------------------------------------------------------
  // Everything else
  // ---------------------------------------------------------------------------------------------

  /** Identity, stamps and route: the signal's id and channel; its name, else the observation's, else the model's; the
      agent's stamp as the capture stamp, unless it is empty, and never a source stamp; and the model's path. */
  lemma RestSays(obs: Observation, sig: SignalConfig, model: ProbeModel, ledgers: Ledgers,
                 condition: Option<ConditionSnapshot>)
    ensures var r := ReadingFrom(obs, sig, model, ledgers, condition);
            && r.signalId == sig.id && r.channel == sig.channel
            && (sig.name.Some? ==> r.name == sig.name)
            && (sig.name.None? && obs.name.Some? ==> r.name == obs.name)
            && (sig.name.None? && obs.name.None? ==>
                  r.name == if obs.dataItemId in model then model[obs.dataItemId].name else None)
            && r.sourceTs == None && r.receivedTs == obs.received
            && r.captureTs == (if obs.timestamp == "" then None else Some(obs.timestamp))
            && r.componentPath == if obs.dataItemId in model then Some(model[obs.dataItemId].componentPath) else None
  {
  }

  /** The last entry under a key stands at `k`. */
  predicate LastUnder(extras: seq<(string, Json)>, key: string, k: int) {
    0 <= k < |extras| && extras[k].0 == key && forall j :: k < j < |extras| ==> extras[j].0 != key
  }

  lemma {:induction false} AddAllSnoc(m: Extras, extras: seq<(string, Json)>, last: (string, Json))
    ensures AddAll(m, extras + [last]) == AddAll(m, extras)[last.0 := last.1]
    decreases extras
  {
    if extras != [] {
      assert (extras + [last])[1..] == extras[1..] + [last];
      AddAllSnoc(m[extras[0].0 := extras[0].1], extras[1..], last);
    }
  }

  lemma {:induction false} LastEntryWins(m: Extras, extras: seq<(string, Json)>, key: string)
    ensures forall k :: LastUnder(extras, key, k) ==> Get(AddAll(m, extras), key) == Some(extras[k].1)
    ensures (forall k :: !LastUnder(extras, key, k)) ==> Get(AddAll(m, extras), key) == Get(m, key)
  {
    if extras != [] {
      var n := |extras| - 1;
      LastEntryWins(m, extras[..n], key);
      AddAllSnoc(m, extras[..n], extras[n]);
      assert extras == extras[..n] + [extras[n]];
      assert extras[n].0 == key ==> LastUnder(extras, key, n);
      forall k ensures LastUnder(extras, key, k)
                       <==> if extras[n].0 == key then k == n else LastUnder(extras[..n], key, k) {
        if LastUnder(extras[..n], key, k) && extras[n].0 != key {
          assert forall j :: k < j < n ==> extras[j] == extras[..n][j];
        }
        if LastUnder(extras, key, k) && k < n {
          assert forall j :: k < j < n ==> extras[..n][j] == extras[j];
        }
      }
    }
  }

  /** The extras: the number of activations, for a condition; else the agent's, the last of a key; and the sequence
      number, unless the agent's own take its key. */
  lemma ExtrasSay(obs: Observation, sig: SignalConfig, model: ProbeModel, ledgers: Ledgers,
                  condition: Option<ConditionSnapshot>, key: string, k: int)
    requires IsCondition(obs) <==> condition.Some?
    ensures ReadingFrom(obs, sig, model, ledgers, condition).extra.Some?
    ensures var extra := ReadingFrom(obs, sig, model, ledgers, condition).extra.value;
            if condition.Some? && key == "activeConditions" then
              Get(extra, key) == Some(Num(condition.value.active as real))
            else
              && (LastUnder(obs.extras, key, k) ==> Get(extra, key) == Some(obs.extras[k].1))
              && ((forall j :: !LastUnder(obs.extras, key, j)) ==>
                    Get(extra, key) == if key == "sequence" then Some(Num(obs.sequence as real)) else None)
  {
    LastEntryWins(map["sequence" := Num(obs.sequence as real)], obs.extras, key);
  }

  /** A caller without a ledger publishes a condition as the observation alone: its own state and native code, with one
      activation for an alarm and none otherwise. */
  lemma WithoutALedger(obs: Observation, sig: SignalConfig, model: ProbeModel, ledgers: Ledgers)
    requires obs.value.Condition?
    ensures var active := if obs.value.state in {Warning, Fault} then 1 else 0;
            ReadingFrom(obs, sig, model, ledgers, None)
            == ReadingFrom(obs, sig, model, ledgers,
                           Some(ConditionSnapshot(obs.value.state, obs.TextExtra("nativeCode"), active)))
  {
  }

  // ---------------------------------------------------------------------------------------------
  // Which readings
  // ---------------------------------------------------------------------------------------------

  /** The condition observations of one data item among some observations, in order. */
  function ConditionsIn(id: string, batch: seq<Observation>): seq<Observation> {
    if batch == [] then []
    else
      var last := batch[|batch| - 1];
      ConditionsIn(id, batch[..|batch| - 1]) + if last.value.Condition? && last.dataItemId == id then [last] else []
  }

  lemma {:induction false} ConditionsExtend(id: string, past: Sightings, batch: seq<Observation>, now: nat)
    ensures ConditionsOf(id, Extend(past, batch, now)) == ConditionsOf(id, past) + ConditionsIn(id, batch)
  {
    if batch == [] {
      assert ConditionsOf(id, past) + [] == ConditionsOf(id, past);
    } else {
      var n := |batch| - 1;
      ConditionsExtend(id, past, batch[..n], now);
      assert batch == batch[..n] + [batch[n]];
      ExtendConcat(past, batch[..n], [batch[n]], now);
      var more := if batch[n].value.Condition? && batch[n].dataItemId == id then [batch[n]] else [];
      var mid := Extend(past, batch[..n], now);
      assert Extend(mid, [batch[n]], now) == Then(mid, Sighting(batch[n], now));
      assert ConditionsOf(id, past) + ConditionsIn(id, batch[..n]) + more
             == ConditionsOf(id, past) + (ConditionsIn(id, batch[..n]) + more);
    }
  }

  /** A condition sample is published as what its data item amounts to right after it: after everything the session
      saw of the item before the batch, and then the batch up to and including the sample. Nothing else has a
      snapshot. */
  lemma SnapshotsSay(past: Sightings, batch: seq<Observation>, now: nat, i: nat)
    requires i < |batch|
    ensures var obs, id := batch[i], batch[i].dataItemId;
            var l := FoldAll(EMPTY_LEDGER, ConditionsOf(id, past) + ConditionsIn(id, batch[..i + 1]));
            SnapshotsOf(past, batch, now)[i]
            == if obs.value.Condition? then Some(ConditionSnapshot(AggregateOf(l).0, AggregateOf(l).1, |l.active|))
               else None
  {
    SnapshotAtIndex(past, batch, now, i);
    var id := batch[i].dataItemId;
    var seen := Extend(past, batch[..i + 1], now);
    assert batch[..i + 1] == batch[..i] + [batch[i]];
    ExtendConcat(past, batch[..i], [batch[i]], now);
    var mid := Extend(past, batch[..i], now);
    assert seen == Extend(mid, [batch[i]], now) == Then(mid, Sighting(batch[i], now));
    LedgerIsItsHistory(id, seen);
    ConditionsExtend(id, past, batch[..i + 1], now);
  }

  lemma {:induction false} SnapshotAtIndex(past: Sightings, batch: seq<Observation>, now: nat, i: nat)
    requires i < |batch|
    ensures var mid := Extend(past, batch[..i], now);
            SnapshotsOf(past, batch, now)[i] == SnapshotAt(Then(mid, Sighting(batch[i], now)))
    decreases batch
  {
    var next := Then(past, Sighting(batch[0], now));
    if i > 0 {
      SnapshotAtIndex(next, batch[1..], now, i - 1);
      assert batch[1..][..i - 1] == batch[..i][1..] && batch[1..][i - 1] == batch[i];
    }
  }

  lemma Grouped(a: seq<Reading>, b: seq<Reading>, c: seq<Reading>)
    ensures a + b + c == a + (b + c)
  {
  }

  /** An observation is mapped to one reading for each served signal of its data item, in served order: served
      signals one after the other, each on its own. */
  lemma {:induction false} OneReadingEach(obs: Observation, a: seq<SignalConfig>, b: seq<SignalConfig>,
                                          model: ProbeModel, ledgers: Ledgers, condition: Option<ConditionSnapshot>)
    ensures ReadingsOf(obs, a + b, model, ledgers, condition)
            == ReadingsOf(obs, a, model, ledgers, condition) + ReadingsOf(obs, b, model, ledgers, condition)
  {
    if a == [] {
      assert a + b == b;
    } else {
      assert (a + b)[1..] == a[1..] + b && (a + b)[0] == a[0];
      OneReadingEach(obs, a[1..], b, model, ledgers, condition);
      var own := if a[0].dataItemId == obs.dataItemId then [ReadingFrom(obs, a[0], model, ledgers, condition)] else [];
      Grouped(own, ReadingsOf(obs, a[1..], model, ledgers, condition), ReadingsOf(obs, b, model, ledgers, condition));
    }
  }

  lemma OneSignalOneReading(obs: Observation, sig: SignalConfig, model: ProbeModel, ledgers: Ledgers,
                            condition: Option<ConditionSnapshot>)
    ensures ReadingsOf(obs, [sig], model, ledgers, condition)
            == if sig.dataItemId == obs.dataItemId then [ReadingFrom(obs, sig, model, ledgers, condition)] else []
  {
    assert [sig][1..] == [];
  }

  /** A batch is mapped observation by observation, each to its own readings against one set of ledgers: two
      stretches of it one after the other, and a single observation to its readings. */
  lemma BatchIsMappedInOrder(past: Sightings, a: seq<Observation>, b: seq<Observation>, now: nat,
                             served: seq<SignalConfig>, model: ProbeModel, ledgers: Ledgers)
    ensures Mapped(past, a + b, now, served, model, ledgers)
            == Mapped(past, a, now, served, model, ledgers)
               + Mapped(Extend(past, a, now), b, now, served, model, ledgers)
    ensures |b| == 1 ==>
      Mapped(past, b, now, served, model, ledgers)
      == ReadingsOf(b[0], served, model, ledgers, SnapshotsOf(past, b, now)[0])
  {
    var sa, sb := SnapshotsOf(past, a, now), SnapshotsOf(Extend(past, a, now), b, now);
    ExtendConcat(past, a, b, now);
    MappedConcat(a, sa, b, sb, served, model, ledgers);
    if |b| == 1 {
      var own := ReadingsOf(b[0], served, model, ledgers, SnapshotsOf(past, b, now)[0]);
      assert b[1..] == [] && own + [] == own;
    }
  }

  lemma {:induction false} UnboundConcat(a: seq<SignalConfig>, b: seq<SignalConfig>, model: ProbeModel)
    ensures UnboundIds(a + b, model) == UnboundIds(a, model) + UnboundIds(b, model)
  {
    if b == [] {
      assert a + b == a && UnboundIds(a, model) + [] == UnboundIds(a, model);
    } else {
      var n := |b| - 1;
      UnboundConcat(a, b[..n], model);
      assert (a + b)[..|a| + n] == a + b[..n] && (a + b)[|a| + n] == b[n];
      var last := if b[n].dataItemId in model then [] else [b[n].id];
      assert UnboundIds(a, model) + UnboundIds(b[..n], model) + last
             == UnboundIds(a, model) + (UnboundIds(b[..n], model) + last);
    }
  }

  /** What is answered for explicit signals besides the batch, one after the other: nothing for one whose data item
      the model has, and for any other, on every read, a BAD reading of its id with the reason MTC_NO_SUCH_DATAITEM
      and nothing else, so without value, stamps and route. */
  lemma MissingSay(a: seq<SignalConfig>, sig: SignalConfig, model: ProbeModel)
    ensures UnboundReadings(UnboundIds(a + [sig], model))
            == UnboundReadings(UnboundIds(a, model))
               + if sig.dataItemId in model then []
                 else
                   [Reading(sig.id, None, None, Bad, Some("MTC_NO_SUCH_DATAITEM"), None, None, None, None, None, None)]
  {
    UnboundConcat(a, [sig], model);
    assert [sig][..0] == [] && UnboundIds([sig], model) == if sig.dataItemId in model then [] else [sig.id];
  }

  // ---------------------------------------------------------------------------------------------
  // Events and policies
  // ---------------------------------------------------------------------------------------------

  /** The limiter allows an event when every one before lies at least its interval back. */
  lemma AllowsExactlyWhen(id: string, seen: Sightings, now: nat)
    ensures Allows(LastEvent(id, seen), now) <==>
              forall event: Sightings :: (event == seen || Earlier(event, seen)) && RaisedFor(id, event) ==>
                event.event.now + 60_000 <= now
  {
    forall event: Sightings | (event == seen || Earlier(event, seen)) && RaisedFor(id, event)
      ensures LastEvent(id, seen).Some? && event.event.now <= LastEvent(id, seen).value
    {
      LastEventCovers(event, seen);
    }
    if LastEvent(id, seen).Some? {
      var last := LastEventIsOne(id, seen);
    }
  }

  /** Exactly when a condition event is raised: the data item has just become a fault, and every event it raised
      before in this session lies at least 60 seconds back. */
  lemma RaisesExactlyWhen(seen: Sightings)
    requires seen.Then?
    ensures var id := seen.event.obs.dataItemId;
            Raises(seen) <==>
              && seen.event.obs.value.Condition?
              && AggregateOf(FoldAll(EMPTY_LEDGER, ConditionsOf(id, seen))).0 == Fault
              && AggregateOf(FoldAll(EMPTY_LEDGER, ConditionsOf(id, seen.past))).0 != Fault
              && forall event: Sightings :: Earlier(event, seen) && RaisedFor(id, event) ==>
                   event.event.now + 60_000 <= seen.event.now
  {
    var id := seen.event.obs.dataItemId;
    StateIsItsHistory(id, seen);
    StateIsItsHistory(id, seen.past);
    AllowsExactlyWhen(id, seen.past, seen.event.now);
  }

  lemma StateIsItsHistory(id: string, seen: Sightings)
    ensures StateAfter(id, seen) == AggregateOf(FoldAll(EMPTY_LEDGER, ConditionsOf(id, seen))).0
  {
    LedgerIsItsHistory(id, seen);
  }

  ghost predicate RaisedFor(id: string, event: Sightings) {
    event.Then? && Raises(event) && event.event.obs.dataItemId == id
  }

  lemma {:induction false} LastEventIsOne(id: string, seen: Sightings) returns (event: Sightings)
    requires LastEvent(id, seen).Some?
    ensures (event == seen || Earlier(event, seen)) && RaisedFor(id, event)
    ensures LastEvent(id, seen) == Some(event.event.now)
  {
    if seen.event.obs.dataItemId == id && Raises(seen) {
      event := seen;
    } else {
      event := LastEventIsOne(id, seen.past);
    }
  }

  /** What the event says: the data item, its state before if it was ever observed, the native code and condition id
      of the observation, how many activations there are now, and the agent's stamp; and nothing else is announced. */
  lemma NoticesSay(seen: Sightings)
    requires seen.Then?
    ensures var obs := seen.event.obs;
            var before := ConditionsOf(obs.dataItemId, seen.past);
            NoticesAfter(seen)
            == NoticesAfter(seen.past)
               + if !Raises(seen) then []
                 else [Notice(obs.dataItemId,
                              if before == [] then None else Some(AggregateOf(FoldAll(EMPTY_LEDGER, before)).0),
                              obs.TextExtra("nativeCode"), obs.TextExtra("conditionId"),
                              |FoldAll(EMPTY_LEDGER, ConditionsOf(obs.dataItemId, seen)).active|, obs.timestamp)]
  {
    LedgerIsItsHistory(seen.event.obs.dataItemId, seen);
    LedgerIsItsHistory(seen.event.obs.dataItemId, seen.past);
  }

  /** The policy of a served signal: what its publish block says, immediate and on change without one; a deadband on
      SAMPLE items only; and the route its readings take. */
  lemma PolicySays(sig: SignalConfig, model: ProbeModel)
    ensures var p := PolicyOf(sig, model);
            && p.batchMs == (if sig.publish.Some? then sig.publish.value.batchMs else 0)
            && p.latestOnly == (sig.publish.Some? && sig.publish.value.interval)
            && (p.deadband.Some? ==>
                  sig.dataItemId in model && model[sig.dataItemId].category == Sample && sig.publish.Some?
                  && p.deadband == sig.publish.value.deadband)
            && (sig.dataItemId in model && model[sig.dataItemId].category == Sample && sig.publish.Some? ==>
                  p.deadband == sig.publish.value.deadband)
            && p.route.channel == sig.channel && p.route.name == sig.name
            && p.route.componentPath
               == (if sig.dataItemId in model then Some(model[sig.dataItemId].componentPath) else None)
    ensures PolicyOf(sig, model).IsTrivial()
            <==> PolicyOf(sig, model).batchMs == 0 && PolicyOf(sig, model).deadband == None
  {
  }
}
