/** Conditions (src/device.rs): many concurrent activations on one data item, folded into a ledger and
    aggregated to the worst of them. */
module Conditions {
  import opened Common
  import opened Readings

  datatype CondState = Normal | Warning | Fault | Unavailable

  /** How bad a condition state is. */
  function StateSeverity(s: CondState): nat {
    match s
    case Normal => 0
    case Warning => 1
    case Unavailable => 2
    case Fault => 3
  }

  datatype ObsValue = Scalar(json: Json) | NoValue | Condition(state: CondState)

  datatype Observation = Observation(
    dataItemId: string,
    sequence: nat,
    timestamp: string,
    received: Option<string>,
    value: ObsValue,
    extras: seq<(string, Json)>,
    name: Option<string>)
  {
    function ConditionState(): Option<CondState> {
      if value.Condition? then Some(value.state) else None
    }

    /** The text of one extra; the first entry under a key wins. */
    function TextExtra(key: string): Option<string> {
      FirstText(extras, key)
    }
  }

  function FirstText(extras: seq<(string, Json)>, key: string): Option<string> {
    if extras == [] then None
    else if extras[0].0 == key then (if extras[0].1.Text? then Some(extras[0].1.text) else None)
    else FirstText(extras[1..], key)
  }

  /** Which activation an observation is about: its condition id, else its native code, else the single
      anonymous slot. */
  function ActivationKey(obs: Observation): string {
    var id, code := obs.TextExtra("conditionId"), obs.TextExtra("nativeCode");
    if id.Some? && id.value != "" then id.value
    else if code.Some? then code.value
    else ""
  }

  datatype Activation = Activation(state: CondState, nativeCode: Option<string>, conditionId: Option<string>)

  function ActivationOf(obs: Observation): Activation
    requires obs.ConditionState().Some?
  {
    Activation(obs.ConditionState().value, obs.TextExtra("nativeCode"), obs.TextExtra("conditionId"))
  }

  /** What stands asserted on one condition data item, by key, and whether the agent called it unavailable. */
  datatype Ledger = Ledger(active: map<string, Activation>, unavailable: bool)

  const EMPTY_LEDGER := Ledger(map[], false)

  // ---------------------------------------------------------------------------------------------
  // What one observation means for a ledger
  // ---------------------------------------------------------------------------------------------

  predicate IsCondition(obs: Observation) {
    obs.ConditionState().Some?
  }

  /** Asserts the activation under a key. */
  predicate Asserts(obs: Observation, key: string) {
    IsCondition(obs) && obs.ConditionState().value in {Warning, Fault} && ActivationKey(obs) == key
  }

  /** Clears every activation: a NORMAL that names none, or UNAVAILABLE. */
  predicate Sweeps(obs: Observation) {
    IsCondition(obs) && (obs.ConditionState().value == Unavailable
                         || (obs.ConditionState().value == Normal && ActivationKey(obs) == ""))
  }

  /** Clears the activation under a key. */
  predicate Clears(obs: Observation, key: string) {
    Sweeps(obs) || (IsCondition(obs) && obs.ConditionState().value == Normal && ActivationKey(obs) == key)
  }

  function Fold(l: Ledger, obs: Observation): Ledger {
    match obs.ConditionState()
    case None => l
    case Some(Unavailable) => Ledger(map[], true)
    case Some(Normal) => Ledger(if ActivationKey(obs) == "" then map[] else l.active - {ActivationKey(obs)}, false)
    case Some(_) => Ledger(l.active[ActivationKey(obs) := ActivationOf(obs)], false)
  }

  function FoldAll(l: Ledger, history: seq<Observation>): Ledger {
    if history == [] then l
    else Fold(FoldAll(l, history[..|history| - 1]), history[|history| - 1])
  }

  lemma FoldAllSnoc(l: Ledger, history: seq<Observation>, obs: Observation)
    ensures FoldAll(l, history + [obs]) == Fold(FoldAll(l, history), obs)
  {
    assert (history + [obs])[..|history|] == history;
  }

  /** The activation that leads: the worst, and among equals the one with the greatest key. */
  ghost predicate Leads(active: map<string, Activation>, key: string) {
    && key in active
    && forall other :: other in active && other != key ==>
         || StateSeverity(active[other].state) < StateSeverity(active[key].state)
         || (StateSeverity(active[other].state) == StateSeverity(active[key].state) && StringLess(other, key))
  }

  /** What a ledger amounts to. */
  ghost predicate Aggregates(l: Ledger, state: CondState, nativeCode: Option<string>) {
    if l.active == map[] then (state, nativeCode) == (if l.unavailable then Unavailable else Normal, None)
    else exists key :: Leads(l.active, key) && (state, nativeCode) == (l.active[key].state, l.active[key].nativeCode)
  }

  lemma {:induction false} LeaderExists(active: map<string, Activation>)
    requires active != map[]
    ensures exists key :: Leads(active, key)
    decreases |active|
  {
    var key :| key in active;
    var rest := active - {key};
    if rest == map[] {
      assert active == map[key := active[key]];
      assert Leads(active, key);
    } else {
      LeaderExists(rest);
      var best :| Leads(rest, best);
      StringLessTotal(best, key);
      if StateSeverity(active[best].state) < StateSeverity(active[key].state)
         || (StateSeverity(active[best].state) == StateSeverity(active[key].state) && StringLess(best, key)) {
        forall other | other in active && other != key && other != best
                       && StringLess(other, best) && StringLess(best, key)
          ensures StringLess(other, key)
        {
          StringLessTransitive(other, best, key);
        }
        assert forall other :: other in active && other != key ==> other in rest;
        assert Leads(active, key);
      } else {
        assert forall other :: other in active && other != key ==> other in rest;
        assert Leads(active, best);
      }
    }
  }

  ghost function AggregateOf(l: Ledger): (r: (CondState, Option<string>))
    ensures Aggregates(l, r.0, r.1)
  {
    if l.active == map[] then (if l.unavailable then Unavailable else Normal, None)
    else
      LeaderExists(l.active);
      var key :| Leads(l.active, key);
      (l.active[key].state, l.active[key].nativeCode)
  }

  lemma AggregateIsAFunction(l: Ledger, s: CondState, c: Option<string>, s': CondState, c': Option<string>)
    requires Aggregates(l, s, c) && Aggregates(l, s', c')
    ensures (s, c) == (s', c')
  {
    if l.active != map[] {
      var k :| Leads(l.active, k) && (s, c) == (l.active[k].state, l.active[k].nativeCode);
      var k' :| Leads(l.active, k') && (s', c') == (l.active[k'].state, l.active[k'].nativeCode);
      StringLessTotal(k, k');
    }
  }

  // ---------------------------------------------------------------------------------------------
  // The ledger
  // ---------------------------------------------------------------------------------------------

  class ConditionLedger {
    var active: map<string, Activation>
    var unavailable: bool

    function State(): Ledger
      reads this
    {
      Ledger(active, unavailable)
    }

    constructor ()
      ensures State() == EMPTY_LEDGER
    {
      active, unavailable := map[], false;
    }

    /** Fold one observation in; one that is no condition is ignored. */
    method Apply(obs: Observation)
      modifies this
      ensures State() == Fold(old(State()), obs)
    {
      if obs.ConditionState().None? {
        return;
      }
      var key := ActivationKey(obs);
      match obs.ConditionState().value
      case Normal =>
        unavailable := false;
        if key == "" {
          active := map[];
        } else {
          active := active - {key};
        }
      case Unavailable =>
        active, unavailable := map[], true;
      case _ =>
        unavailable := false;
        active := active[key := ActivationOf(obs)];
    }

    /** The worst activation's state and code, scanning the activations in key order. */
    method Aggregate() returns (state: CondState, nativeCode: Option<string>)
      ensures (state, nativeCode) == AggregateOf(State())
    {
      if active == map[] {
        return if unavailable then Unavailable else Normal, None;
      }
      var keys := KeysInOrder(active.Keys);
      assert forall key :: key in active ==> key in keys;
      var worst := keys[0];
      for n := 1 to |keys|
        invariant worst in keys[..n]
        invariant forall i :: 0 <= i < n && keys[i] != worst ==>
          || StateSeverity(active[keys[i]].state) < StateSeverity(active[worst].state)
          || (StateSeverity(active[keys[i]].state) == StateSeverity(active[worst].state) && StringLess(keys[i], worst))
      {
        if StateSeverity(active[keys[n]].state) >= StateSeverity(active[worst].state) {
          forall i | 0 <= i < n && keys[i] != keys[n] ensures StringLess(keys[i], keys[n]) {}
          worst := keys[n];
        }
      }
      assert Leads(active, worst);
      assert Aggregates(State(), active[worst].state, active[worst].nativeCode);
      var r := active[worst];
      AggregateIsAFunction(State(), r.state, r.nativeCode, AggregateOf(State()).0, AggregateOf(State()).1);
      return active[worst].state, active[worst].nativeCode;
    }
  }

  // ---------------------------------------------------------------------------------------------
  // A ledger is a function of its history
  // ---------------------------------------------------------------------------------------------

  /** The observation at `i` is the last word on a key. */
  ghost predicate LastWord(history: seq<Observation>, i: nat, key: string) {
    && i < |history| && Asserts(history[i], key)
    && forall j :: i < j < |history| ==> !Asserts(history[j], key) && !Clears(history[j], key)
  }

  /** An activation stands exactly when its last assertion came after everything that clears it, and then
      it says what that assertion said. */
  lemma {:induction false} ActiveExactlyWhenAsserted(history: seq<Observation>, key: string)
    ensures key in FoldAll(EMPTY_LEDGER, history).active <==> exists i: nat :: LastWord(history, i, key)
    ensures forall i: nat :: LastWord(history, i, key) ==>
              key in FoldAll(EMPTY_LEDGER, history).active
              && FoldAll(EMPTY_LEDGER, history).active[key] == ActivationOf(history[i])
  {
    if history != [] {
      var n := |history| - 1;
      var past, last := history[..n], history[n];
      ActiveExactlyWhenAsserted(past, key);
      if Asserts(last, key) {
        assert LastWord(history, n, key);
      } else if !Clears(last, key) {
        forall i: nat ensures LastWord(history, i, key) <==> LastWord(past, i, key) {
          if LastWord(past, i, key) {
            assert forall j :: i < j < |history| ==> history[j] == (if j < n then past[j] else last);
          }
          if LastWord(history, i, key) {
            assert i < n;
            assert forall j :: i < j < |past| ==> past[j] == history[j];
          }
        }
      }
    }
  }

  /** A data item is unavailable exactly when the last condition observation said so, and then nothing is
      active. */
  lemma {:induction false} UnavailableExactlyWhenLastSaidSo(history: seq<Observation>)
    ensures FoldAll(EMPTY_LEDGER, history).unavailable <==>
              exists i :: 0 <= i < |history| && history[i].ConditionState() == Some(Unavailable)
                          && forall j :: i < j < |history| ==> !IsCondition(history[j])
    ensures FoldAll(EMPTY_LEDGER, history).unavailable ==> FoldAll(EMPTY_LEDGER, history).active == map[]
  {
    if history != [] {
      var n := |history| - 1;
      var past, last := history[..n], history[n];
      UnavailableExactlyWhenLastSaidSo(past);
      if !IsCondition(last) {
        if FoldAll(EMPTY_LEDGER, past).unavailable {
          var i :| 0 <= i < n && past[i].ConditionState() == Some(Unavailable)
                   && forall j :: i < j < n ==> !IsCondition(past[j]);
          assert history[i].ConditionState() == Some(Unavailable);
          assert forall j :: i < j < |history| ==> history[j] == (if j < n then past[j] else last);
        }
        if i :| 0 <= i < |history| && history[i].ConditionState() == Some(Unavailable)
                && forall j :: i < j < |history| ==> !IsCondition(history[j]) {
          assert past[i].ConditionState() == Some(Unavailable);
        }
      } else if last.ConditionState() == Some(Unavailable) {
        assert history[n].ConditionState() == Some(Unavailable);
      }
    }
  }

  // ---------------------------------------------------------------------------------------------
  // In the words of the agent's document
  // ---------------------------------------------------------------------------------------------

  /** The first entry under a key stands at `k`. */
  predicate FirstUnder(extras: seq<(string, Json)>, key: string, k: int) {
    0 <= k < |extras| && extras[k].0 == key && forall j :: 0 <= j < k ==> extras[j].0 != key
  }

  lemma {:induction false} FirstEntryIsRead(extras: seq<(string, Json)>, key: string, text: string)
    ensures FirstText(extras, key) == Some(text) <==>
              exists k :: FirstUnder(extras, key, k) && extras[k].1 == Text(text)
  {
    if extras != [] {
      FirstEntryIsRead(extras[1..], key, text);
      if extras[0].0 == key {
        assert FirstUnder(extras, key, 0);
        assert forall k :: FirstUnder(extras, key, k) ==> k == 0;
      } else {
        forall k ensures FirstUnder(extras, key, k) <==> FirstUnder(extras[1..], key, k - 1) {
          if FirstUnder(extras[1..], key, k - 1) {
            assert forall j :: 1 <= j < k ==> extras[j] == extras[1..][j - 1];
          }
          if FirstUnder(extras, key, k) {
            assert forall j :: 0 <= j < k - 1 ==> extras[1..][j] == extras[j + 1];
          }
        }
        if k :| FirstUnder(extras[1..], key, k) && extras[1..][k].1 == Text(text) {
          assert FirstUnder(extras, key, k + 1);
        }
      }
    }
  }

  /** An observation is about the activation its condition id names; without one, or with an empty one, about the
      one its native code names; with neither, about the anonymous one. */
  lemma ActivationIsNamed(obs: Observation)
    ensures obs.TextExtra("conditionId").Some? && obs.TextExtra("conditionId").value != "" ==>
              Some(ActivationKey(obs)) == obs.TextExtra("conditionId")
    ensures obs.TextExtra("conditionId") in {None, Some("")} ==>
              var code := obs.TextExtra("nativeCode");
              ActivationKey(obs) == if code.Some? then code.value else ""
  {
  }

  /** The activation under a key, if any. */
  function Activity(l: Ledger, key: string): Option<Activation> {
    if key in l.active then Some(l.active[key]) else None
  }

  /** What one observation does to a ledger, activation by activation: UNAVAILABLE ends all of them; NORMAL ends the
      one it is about, or all when it names none; WARNING and FAULT set the one they are about to what they say.
      Anything else changes nothing. */
  lemma OneObservation(l: Ledger, obs: Observation, key: string)
    ensures obs.value == ObsValue.Condition(Unavailable) ==>
              key !in Fold(l, obs).active && Fold(l, obs).unavailable
    ensures obs.value == ObsValue.Condition(Normal) ==>
              && !Fold(l, obs).unavailable
              && Activity(Fold(l, obs), key)
                 == if ActivationKey(obs) in {"", key} then None else Activity(l, key)
    ensures obs.value in {ObsValue.Condition(Warning), ObsValue.Condition(Fault)} ==>
              && !Fold(l, obs).unavailable
              && Activity(Fold(l, obs), key)
                 == if ActivationKey(obs) == key then
                      Some(Activation(obs.value.state, obs.TextExtra("nativeCode"), obs.TextExtra("conditionId")))
                    else Activity(l, key)
    ensures !obs.value.Condition? ==> Fold(l, obs) == l
  {
  }

  /** Of the activations in one state, the one with the greatest key. */
  ghost predicate GreatestIn(active: map<string, Activation>, state: CondState, key: string) {
    && key in active && active[key].state == state
    && forall other :: other in active && other != key && active[other].state == state ==> StringLess(other, key)
  }

  ghost predicate Holds(active: map<string, Activation>, state: CondState) {
    exists key :: key in active && active[key].state == state
  }

  lemma LeaderIsTheWorst(active: map<string, Activation>, key: string)
    requires Leads(active, key) && forall k :: k in active ==> active[k].state in {Warning, Fault}
    ensures GreatestIn(active, active[key].state, key)
    ensures active[key].state == if Holds(active, Fault) then Fault else Warning
  {
  }

  /** What a ledger amounts to: a FAULT when one is active, else a WARNING when one is; without either, UNAVAILABLE
      when the agent said so last, else NORMAL. The native code is that of an activation in that state, the one of
      the greatest key among them. */
  lemma AggregateSays(l: Ledger, state: CondState, nativeCode: Option<string>)
    requires forall key :: key in l.active ==> l.active[key].state in {Warning, Fault}
    requires Aggregates(l, state, nativeCode)
    ensures state == if Holds(l.active, Fault) then Fault else if Holds(l.active, Warning) then Warning
                     else if l.unavailable then Unavailable else Normal
    ensures l.active == map[] ==> nativeCode == None
    ensures l.active != map[] ==>
              exists key :: GreatestIn(l.active, state, key) && l.active[key].nativeCode == nativeCode
  {
    if l.active != map[] {
      var key :| Leads(l.active, key) && (state, nativeCode) == (l.active[key].state, l.active[key].nativeCode);
      LeaderIsTheWorst(l.active, key);
    }
  }

  /** Only warnings and faults are ever active. */
  lemma {:induction false} OnlyAlarmsAreActive(history: seq<Observation>)
    ensures forall key :: key in FoldAll(EMPTY_LEDGER, history).active ==>
              FoldAll(EMPTY_LEDGER, history).active[key].state in {Warning, Fault}
  {
    if history != [] {
      OnlyAlarmsAreActive(history[..|history| - 1]);
    }
  }

  // ---------------------------------------------------------------------------------------------
  // Order independence
  // ---------------------------------------------------------------------------------------------

  /** Two transitions between which the order cannot matter: both clear, both say unavailable, they say the
      same of the same activation, or neither sweeps and they name different activations. */
  predicate Compatible(a: Observation, b: Observation) {
    var sa, sb := a.ConditionState(), b.ConditionState();
    || (sa == sb && sa in {Some(Normal), Some(Unavailable)})
    || (!Sweeps(a) && !Sweeps(b) && ActivationKey(a) != ActivationKey(b))
    || (Asserts(a, ActivationKey(b)) && Asserts(b, ActivationKey(a)) && ActivationOf(a) == ActivationOf(b))
  }

  /** Two transitions commute on every ledger exactly when they are compatible. */
  lemma CommuteExactlyWhenCompatible(a: Observation, b: Observation)
    requires IsCondition(a) && IsCondition(b)
    ensures (forall l :: Fold(Fold(l, a), b) == Fold(Fold(l, b), a)) <==> Compatible(a, b)
  {
    if Compatible(a, b) {
      forall l ensures Fold(Fold(l, a), b) == Fold(Fold(l, b), a) {
        assert Fold(Fold(l, a), b).active == Fold(Fold(l, b), a).active;
      }
    } else {
      var ab, ba := Fold(Fold(EMPTY_LEDGER, a), b), Fold(Fold(EMPTY_LEDGER, b), a);
      var ka, kb := ActivationKey(a), ActivationKey(b);
      if a.ConditionState() == Some(Unavailable) || b.ConditionState() == Some(Unavailable) {
        assert ab.unavailable != ba.unavailable;
      } else if Asserts(a, ka) {
        assert Activity(ab, ka) != Activity(ba, ka);
      } else {
        assert Activity(ab, kb) != Activity(ba, kb);
      }
    }
  }

  /** Every two transitions of a batch are compatible. */
  ghost predicate Pairwise(batch: seq<Observation>) {
    forall i, j :: 0 <= i < j < |batch| ==> Together(batch[i], batch[j])
  }

  predicate Together(a: Observation, b: Observation) {
    IsCondition(a) && IsCondition(b) && Compatible(a, b)
  }

  lemma PairwiseWithout(batch: seq<Observation>, i: nat)
    requires Pairwise(batch) && i < |batch|
    ensures Pairwise(batch[..i] + batch[i + 1..])
  {
    var without := batch[..i] + batch[i + 1..];
    forall a, b | 0 <= a < b < |without|
      ensures Together(without[a], without[b])
    {
      var a', b' := if a < i then a else a + 1, if b < i then b else b + 1;
      assert without[a] == batch[a'] && without[b] == batch[b'] && Together(batch[a'], batch[b']);
    }
    assert Pairwise(without);
  }

  /** A transition compatible with everything after it may as well come last. */
  lemma {:induction false} MayComeLast(l: Ledger, batch: seq<Observation>, i: nat)
    requires Pairwise(batch) && i < |batch|
    ensures FoldAll(l, batch) == Fold(FoldAll(l, batch[..i] + batch[i + 1..]), batch[i])
    decreases |batch|
  {
    var n := |batch| - 1;
    var without := batch[..i] + batch[i + 1..];
    if i == n {
      assert without == batch[..n];
    } else {
      var front := batch[..n];
      PairwiseWithout(batch, n);
      assert batch[..n] + batch[n + 1..] == front;
      MayComeLast(l, front, i);
      var rest := front[..i] + front[i + 1..];
      assert without == rest + [batch[n]];
      FoldAllSnoc(l, rest, batch[n]);
      assert Together(batch[i], batch[n]);
      CommuteOnce(FoldAll(l, rest), batch[i], batch[n]);
    }
  }

  lemma CommuteOnce(l: Ledger, a: Observation, b: Observation)
    requires IsCondition(a) && IsCondition(b) && Compatible(a, b)
    ensures Fold(Fold(l, a), b) == Fold(Fold(l, b), a)
  {
    CommuteExactlyWhenCompatible(a, b);
  }

  /** Any arrangement of a pairwise compatible batch leaves the same ledger, so the outcome does not depend
      on the order the agent wrote its document in. */
  lemma {:induction false} OrderDoesNotMatter(l: Ledger, batch: seq<Observation>, other: seq<Observation>)
    requires Pairwise(batch) && multiset(batch) == multiset(other)
    ensures FoldAll(l, batch) == FoldAll(l, other)
    decreases |other|
  {
    if other == [] {
      assert |multiset(batch)| == |batch| == 0;
    } else {
      var n := |other| - 1;
      var i := FoundIn(batch, other, n);
      TakeOutOfBoth(batch, i, other, n);
      assert other[..n] + other[n + 1..] == other[..n];
      PairwiseWithout(batch, i);
      MayComeLast(l, batch, i);
      OrderDoesNotMatter(l, batch[..i] + batch[i + 1..], other[..n]);
    }
  }
}
