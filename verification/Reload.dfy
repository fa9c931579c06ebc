/** Content-addressed generations and the live signal registry (src/reload.rs). */
module Reload {
  import opened Common
  import opened Encoding

  // ---------------------------------------------------------------------------------------------
  // Feeding the hasher
  // ---------------------------------------------------------------------------------------------

  lemma {:induction false} MatchersConcat(a: seq<Matcher>, b: seq<Matcher>)
    ensures MatchersBytes(a + b) == MatchersBytes(a) + MatchersBytes(b)
  {
    if a == [] {
      assert a + b == b;
    } else {
      assert (a + b)[0] == a[0] && (a + b)[1..] == a[1..] + b;
      MatchersConcat(a[1..], b);
      Associate(MatcherBytes(a[0]), MatchersBytes(a[1..]), MatchersBytes(b));
    }
  }

  lemma OneMatcherMore(ms: seq<Matcher>, n: nat)
    requires n < |ms|
    ensures MatchersBytes(ms[..n + 1]) == MatchersBytes(ms[..n]) + MatcherBytes(ms[n])
  {
    var last := [ms[n]];
    assert ms[..n + 1] == ms[..n] + last;
    MatchersConcat(ms[..n], last);
    assert MatchersBytes(last) == MatcherBytes(ms[n]) + MatchersBytes([]);
  }

  /** The hasher's input for one optional string. */
  method FeedOpt(fed: Bytes, v: Option<Bytes>) returns (out: Bytes)
    ensures out == fed + OptBytes(v)
  {
    out := fed;
    match v {
      case None => out := out + [0x00];
      case Some(s) =>
        out := out + [0x01];
        out := out + s;
    }
    out := out + [0x1f];
  }

  method FeedBinding(fed: Bytes, binding: Option<seq<Bytes>>) returns (out: Bytes)
    ensures out == fed + BindingBytes(binding)
  {
    match binding
    case None =>
      out := fed + [0x00];
      out := out + [0x1f];
      assert BindingBytes(binding) == [0x00, 0x1f];
    case Some(items) =>
      out := fed + [0x01];
      for n := 0 to |items|
        invariant out == fed + [0x01] + ItemsBytes(items[..n])
      {
        out := out + items[n];
        out := out + [0x1e];
        assert items[..n + 1] == items[..n] + [items[n]];
        ItemsConcat(items[..n], [items[n]]);
        assert ItemsBytes([items[n]]) == items[n] + [0x1e];
      }
      assert items[..|items|] == items;
      out := out + [0x1f];
  }

  method FeedPublish(fed: Bytes, publish: Option<Publish>) returns (out: Bytes)
    ensures out == fed + PublishBytes(publish)
  {
    match publish
    case None => out := fed + [0x00];
    case Some(p) =>
      out := fed + [0x01];
      out := out + PublishText(p);
  }

  method FeedSignal(fed: Bytes, s: Signal) returns (out: Bytes)
    ensures out == fed + SignalBytes(s)
  {
    var head := fed + s.id + [0x1f] + s.dataItemId + [0x1f];
    var named := FeedOpt(head, s.name);
    var routed := FeedOpt(named, s.channel);
    var bound := FeedBinding(routed, s.conditionBinding);
    var published := FeedPublish(bound, s.publish);
    out := published + [0x1d];
    FieldsAreTheSignal(fed, s);
  }

  lemma FieldsAreTheSignal(fed: Bytes, s: Signal)
    ensures fed + s.id + [0x1f] + s.dataItemId + [0x1f] + OptBytes(s.name) + OptBytes(s.channel)
            + BindingBytes(s.conditionBinding) + PublishBytes(s.publish) + [0x1d]
            == fed + SignalBytes(s)
  {
    var f1 := fed + s.id + [0x1f];
    var f2 := f1 + s.dataItemId + [0x1f];
    var rest := PublishBytes(s.publish) + [0x1d];
    FourAfter(f2, OptBytes(s.name), OptBytes(s.channel), BindingBytes(s.conditionBinding), PublishBytes(s.publish),
              [0x1d]);
    var named := OptBytes(s.name) + (OptBytes(s.channel) + (BindingBytes(s.conditionBinding) + rest));
    Associate(f1, s.dataItemId, [0x1f]);
    Associate(f1, s.dataItemId + [0x1f], named);
    Associate(fed, s.id, [0x1f]);
    Associate(fed, s.id + [0x1f], s.dataItemId + [0x1f] + named);
  }

  lemma FourAfter(fed: Bytes, a: Bytes, b: Bytes, c: Bytes, d: Bytes, e: Bytes)
    ensures fed + a + b + c + d + e == fed + (a + (b + (c + (d + e))))
  {
    Associate(fed + a + b + c, d, e);
    Associate(fed + a + b, c, d + e);
    Associate(fed + a, b, c + (d + e));
    Associate(fed, a, b + (c + (d + e)));
  }

  method FeedMatcher(fed: Bytes, m: Matcher) returns (out: Bytes)
    ensures out == fed + MatcherBytes(m)
  {
    out := FeedOpt(fed, m.category);
    out := FeedOpt(out, m.kind);
    out := FeedOpt(out, m.subKind);
    out := FeedOpt(out, m.idMatch);
    out := FeedOpt(out, m.path);
    out := out + [0x1e];
    FieldsAreTheMatcher(fed, m);
  }

  lemma FieldsAreTheMatcher(fed: Bytes, m: Matcher)
    ensures fed + OptBytes(m.category) + OptBytes(m.kind) + OptBytes(m.subKind) + OptBytes(m.idMatch)
        + OptBytes(m.path) + [0x1e]
            == fed + MatcherBytes(m)
  {
    var rest := OptBytes(m.path) + [0x1e];
    FourAfter(fed + OptBytes(m.category), OptBytes(m.kind), OptBytes(m.subKind), OptBytes(m.idMatch), OptBytes(m.path),
              [0x1e]);
    Associate(fed, OptBytes(m.category), OptBytes(m.kind) + (OptBytes(m.subKind) + (OptBytes(m.idMatch) + rest)));
  }

  method FeedMatchers(fed: Bytes, ms: seq<Matcher>) returns (out: Bytes)
    ensures out == fed + MatchersBytes(ms) + [0x1d]
  {
    out := fed;
    for n := 0 to |ms|
      invariant out == fed + MatchersBytes(ms[..n])
    {
      out := FeedMatcher(out, ms[n]);
      OneMatcherMore(ms, n);
      Associate(fed, MatchersBytes(ms[..n]), MatcherBytes(ms[n]));
    }
    assert ms[..|ms|] == ms;
    out := out + [0x1d];
  }

  method FeedSelection(fed: Bytes, s: Selection) returns (out: Bytes)
    ensures out == fed + SelectionBytes(s)
  {
    var head := fed + [0x02] + Ascii(SelectionModeText(s.mode)) + [0x1f];
    var included := FeedMatchers(head, s.includes);
    var excluded := FeedMatchers(included, s.excludes);
    out := excluded + Le(s.maxSignals, 8) + [if s.autoConditionBinding then 1 else 0] + Le(s.defaultBatchMs, 4)
           + Ascii(ModeText(s.defaultPublishMode)) + Le(s.maxTokens, 8) + Le(s.maxBytes, 8);
    FieldsAreTheTail(excluded, s);
    FieldsAreTheSelection(fed, s, TailBytes(s));
  }

  lemma FieldsAreTheTail(fed: Bytes, s: Selection)
    ensures fed + Le(s.maxSignals, 8) + [if s.autoConditionBinding then 1 else 0] + Le(s.defaultBatchMs, 4)
            + Ascii(ModeText(s.defaultPublishMode)) + Le(s.maxTokens, 8) + Le(s.maxBytes, 8)
            == fed + TailBytes(s)
  {
    var flag := [if s.autoConditionBinding then 1 else 0];
    var mode := Ascii(ModeText(s.defaultPublishMode));
    FourAfter(fed + Le(s.maxSignals, 8), flag, Le(s.defaultBatchMs, 4), mode, Le(s.maxTokens, 8), Le(s.maxBytes, 8));
    Associate(fed, Le(s.maxSignals, 8),
              flag + (Le(s.defaultBatchMs, 4) + (mode + (Le(s.maxTokens, 8) + Le(s.maxBytes, 8)))));
  }

  lemma FieldsAreTheSelection(fed: Bytes, s: Selection, tail: Bytes)
    ensures fed + [0x02] + Ascii(SelectionModeText(s.mode)) + [0x1f] + MatchersBytes(s.includes) + [0x1d]
            + MatchersBytes(s.excludes) + [0x1d] + tail
            == fed + ([0x02] + (Ascii(SelectionModeText(s.mode)) + [0x1f]
               + (MatchersBytes(s.includes) + [0x1d] + (MatchersBytes(s.excludes) + [0x1d] + tail))))
  {
    var f, mode := fed + [0x02], Ascii(SelectionModeText(s.mode)) + [0x1f];
    var inc, exc := MatchersBytes(s.includes) + [0x1d], MatchersBytes(s.excludes) + [0x1d];
    Associate(f, Ascii(SelectionModeText(s.mode)), [0x1f]);
    Associate(f + mode, MatchersBytes(s.includes), [0x1d]);
    Associate(f + mode + inc, MatchersBytes(s.excludes), [0x1d]);
    FourAfter(fed, [0x02], mode, inc, exc, tail);
  }

  method FeedSignals(signals: seq<Signal>) returns (fed: Bytes)
    ensures fed == SignalsBytes(signals)
  {
    fed := [];
    for n := 0 to |signals|
      invariant fed == SignalsBytes(signals[..n])
    {
      fed := FeedSignal(fed, signals[n]);
      OneSignalMore(signals, n);
    }
    assert signals[..|signals|] == signals;
  }

  /** Everything the hasher is fed for one configuration. */
  method Feed(c: Config) returns (fed: Bytes)
    ensures fed == ConfigBytes(c)
  {
    fed := FeedSignals(c.signals);
    if c.selection.Some? {
      fed := FeedSelection(fed, c.selection.value);
    }
  }

  // ---------------------------------------------------------------------------------------------
  // The registry
  // ---------------------------------------------------------------------------------------------

  /** One instance's configuration in force, and the generation that names it. */
  datatype InstanceSignals = InstanceSignals(generation: string, config: Config)

  /** One instance of a compiled candidate. */
  datatype Device = Device(id: string, config: Config)

  type Slots = map<string, InstanceSignals>

  function Addressed(hash: Bytes -> string, config: Config): InstanceSignals {
    InstanceSignals(hash(ConfigBytes(config)), config)
  }

  /** The candidate's instances that a slot exists for and whose generation is new to it. */
  function Staged(slots: Slots, hash: Bytes -> string, devices: seq<Device>): seq<Device> {
    if devices == [] then []
    else
      var last := devices[|devices| - 1];
      Staged(slots, hash, devices[..|devices| - 1])
      + if last.id in slots && slots[last.id].generation != hash(ConfigBytes(last.config)) then [last] else []
  }

  function Stored(slots: Slots, hash: Bytes -> string, staged: seq<Device>): Slots {
    if staged == [] then slots
    else
      var last := staged[|staged| - 1];
      Stored(slots, hash, staged[..|staged| - 1])[last.id := Addressed(hash, last.config)]
  }

  function IdsOf(devices: seq<Device>): seq<string> {
    seq(|devices|, i requires 0 <= i < |devices| => devices[i].id)
  }

  class SignalRegistry {
    /** SHA-256, cut to sixteen hexadecimal digits. */
    const hash: Bytes -> string
    var slots: Slots

    /** Every slot's generation is its configuration's. */
    ghost predicate Valid()
      reads this
    {
      forall id :: id in slots ==> slots[id].generation == hash(ConfigBytes(slots[id].config))
    }

    constructor (hash: Bytes -> string, devices: seq<Device>)
      ensures this.hash == hash && Valid()
      ensures slots == Stored(map[], hash, devices)
    {
      this.hash, slots := hash, map[];
      new;
      for n := 0 to |devices|
        invariant this.hash == hash && Valid()
        invariant slots == Stored(map[], hash, devices[..n])
      {
        var fed := Feed(devices[n].config);
        slots := slots[devices[n].id := InstanceSignals(hash(fed), devices[n].config)];
        assert devices[..n + 1][..n] == devices[..n];
      }
      assert devices[..|devices|] == devices;
    }

    /** Apply a whole candidate: nothing when it does not compile; otherwise prepare every new generation
        first and only then swap. */
    method Apply(candidate: Result<seq<Device>, string>) returns (changed: Result<seq<string>, string>)
      requires Valid()
      modifies this
      ensures Valid() && slots.Keys == old(slots).Keys
      ensures candidate.Err? ==> changed == Err(candidate.error) && slots == old(slots)
      ensures candidate.Ok? ==>
        var staged := Staged(old(slots), hash, candidate.value);
        changed == Ok(IdsOf(staged)) && slots == Stored(old(slots), hash, staged)
    {
      if candidate.Err? {
        return Err(candidate.error);
      }
      var staged := Stage(candidate.value);
      Store(staged);
      changed := Ok(IdsOf(staged));
    }

    /** Prepare what a candidate changes, touching nothing. */
    method Stage(devices: seq<Device>) returns (staged: seq<Device>)
      ensures staged == Staged(slots, hash, devices)
      ensures forall d :: d in staged ==> d.id in slots
    {
      staged := [];
      for n := 0 to |devices|
        invariant staged == Staged(slots, hash, devices[..n])
        invariant forall d :: d in staged ==> d.id in slots
      {
        assert devices[..n + 1][..n] == devices[..n];
        if devices[n].id in slots {
          var fed := Feed(devices[n].config);
          if slots[devices[n].id].generation != hash(fed) {
            staged := staged + [devices[n]];
          }
        }
      }
      assert devices[..|devices|] == devices;
    }

    /** Swap the prepared generations in. */
    method Store(staged: seq<Device>)
      requires Valid() && forall d :: d in staged ==> d.id in slots
      modifies this
      ensures Valid() && slots.Keys == old(slots).Keys && slots == Stored(old(slots), hash, staged)
    {
      for n := 0 to |staged|
        invariant Valid() && slots.Keys == old(slots).Keys
        invariant slots == Stored(old(slots), hash, staged[..n])
      {
        assert staged[..n + 1][..n] == staged[..n] && staged[n] in staged;
        var fed := Feed(staged[n].config);
        slots := slots[staged[n].id := InstanceSignals(hash(fed), staged[n].config)];
      }
      assert staged[..|staged|] == staged;
    }
  }

  // ---------------------------------------------------------------------------------------------
  // What a reload achieves
  // ---------------------------------------------------------------------------------------------

  ghost predicate DistinctIds(devices: seq<Device>) {
    forall i, j :: 0 <= i < j < |devices| ==> devices[i].id != devices[j].id
  }

  lemma {:induction false} StagedAre(slots: Slots, hash: Bytes -> string, devices: seq<Device>)
    requires DistinctIds(devices)
    ensures DistinctIds(Staged(slots, hash, devices))
    ensures forall d :: d in Staged(slots, hash, devices) <==>
              d in devices && d.id in slots && slots[d.id].generation != hash(ConfigBytes(d.config))
  {
    if devices != [] {
      var n := |devices| - 1;
      StagedAre(slots, hash, devices[..n]);
      var earlier := Staged(slots, hash, devices[..n]);
      forall i | 0 <= i < |earlier| ensures earlier[i].id != devices[n].id {
        assert earlier[i] in devices[..n];
      }
      assert devices == devices[..n] + [devices[n]];
    }
  }

  lemma {:induction false} StoredKeeps(slots: Slots, hash: Bytes -> string, staged: seq<Device>, id: string)
    requires forall i :: 0 <= i < |staged| ==> staged[i].id != id
    ensures var after := Stored(slots, hash, staged);
            (id in after <==> id in slots) && (id in slots ==> after[id] == slots[id])
  {
    if staged != [] {
      StoredKeeps(slots, hash, staged[..|staged| - 1], id);
    }
  }

  lemma {:induction false} StoredHas(slots: Slots, hash: Bytes -> string, staged: seq<Device>, k: nat)
    requires DistinctIds(staged) && k < |staged|
    ensures var after := Stored(slots, hash, staged);
            staged[k].id in after && after[staged[k].id] == Addressed(hash, staged[k].config)
  {
    var n := |staged| - 1;
    if k < n {
      StoredHas(slots, hash, staged[..n], k);
    }
  }

  /** The hash tells two configurations apart. */
  predicate TellsApart(hash: Bytes -> string, a: Config, b: Config) {
    hash(ConfigBytes(a)) == hash(ConfigBytes(b)) ==> ConfigBytes(a) == ConfigBytes(b)
  }

  /** An instance is staged exactly when its configuration differs from the one in force. */
  lemma StagedExactlyWhenDifferent(slots: Slots, hash: Bytes -> string, devices: seq<Device>, d: Device)
    requires DistinctIds(devices) && d in devices && d.id in slots && slots[d.id] == Addressed(hash, slots[d.id].config)
    requires ConfigOk(slots[d.id].config) && ConfigOk(d.config) && TellsApart(hash, slots[d.id].config, d.config)
    ensures d in Staged(slots, hash, devices) <==> d.config != slots[d.id].config
  {
    StagedAre(slots, hash, devices);
    EqualBytesExactlyWhenEqual(slots[d.id].config, d.config);
  }

  lemma NamedOrNot(staged: seq<Device>, id: string)
    ensures id in IdsOf(staged) <==> exists k :: 0 <= k < |staged| && staged[k].id == id
  {
    forall k | 0 <= k < |staged| && staged[k].id == id ensures id in IdsOf(staged) {
      assert IdsOf(staged)[k] == id;
    }
  }

  /** After a candidate is applied, an instance it names holds its configuration, under that configuration's
      generation, and is reported as changed exactly when that differs from what was in force. */
  lemma ReloadInstallsTheCandidate(slots: Slots, hash: Bytes -> string, devices: seq<Device>, d: Device)
    requires DistinctIds(devices) && d in devices && d.id in slots && slots[d.id] == Addressed(hash, slots[d.id].config)
    requires ConfigOk(slots[d.id].config) && ConfigOk(d.config) && TellsApart(hash, slots[d.id].config, d.config)
    ensures var staged := Staged(slots, hash, devices);
            var after := Stored(slots, hash, staged);
            && d.id in after && after[d.id] == Addressed(hash, d.config)
            && (d.id in IdsOf(staged) <==> d.config != slots[d.id].config)
  {
    var staged := Staged(slots, hash, devices);
    StagedAre(slots, hash, devices);
    StagedExactlyWhenDifferent(slots, hash, devices, d);
    NamedOrNot(staged, d.id);
    if d in staged {
      var k :| 0 <= k < |staged| && staged[k] == d;
      StoredHas(slots, hash, staged, k);
    } else {
      forall k | 0 <= k < |staged| ensures staged[k].id != d.id {
        assert staged[k] in staged;
        OneDevice(devices, staged[k], d);
      }
      StoredKeeps(slots, hash, staged, d.id);
    }
  }

  /** Every other instance holds what it held, and is not reported. */
  lemma ReloadKeepsTheOthers(slots: Slots, hash: Bytes -> string, devices: seq<Device>, id: string)
    requires DistinctIds(devices) && id in slots && forall d :: d in devices ==> d.id != id
    ensures var staged := Staged(slots, hash, devices);
            var after := Stored(slots, hash, staged);
            id in after && after[id] == slots[id] && id !in IdsOf(staged)
  {
    var staged := Staged(slots, hash, devices);
    StagedAre(slots, hash, devices);
    forall k | 0 <= k < |staged| ensures staged[k].id != id {
      assert staged[k] in staged;
    }
    StoredKeeps(slots, hash, staged, id);
    NamedOrNot(staged, id);
  }

  lemma OneDevice(devices: seq<Device>, a: Device, b: Device)
    requires DistinctIds(devices) && a in devices && b in devices
    ensures a.id == b.id ==> a == b
  {
  }
}
