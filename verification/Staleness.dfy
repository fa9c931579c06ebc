/** Passive quality (src/staleness.rs): the watchdog that republishes held values under a degraded
    verdict when the agent stops vouching for them, and restores them when it does again.

    `VerdictIn` is the ladder without memory: what a held value is worth in a phase. `QualityWatchdog`
    is the engine with its per-signal `degraded` flags; its invariant says that after any history the
    fleet sees, for every held signal, exactly the ladder's verdict of the last judgement passed since
    the value was delivered. */
module Staleness {
  import opened Common
  import opened Readings
  import opened Text

  const STALE_PREFIX := "MTC_STALE"
  const AGENT_UNREACHABLE := "MTC_AGENT_UNREACHABLE"
  const PASSIVE_EXTRA_KEY := "passive"
  const U64_MAX: nat := 0xFFFF_FFFF_FFFF_FFFF

  type Verdict = (Quality, Option<string>)

  /** The link facts an evaluation reads; times in milliseconds. */
  datatype PassiveLink = PassiveLink(unreachable: bool, livenessAge: Option<nat>, livenessWindow: nat)

  datatype PassivePhase = Fresh | Stale | Expired | Unreachable

  function Marker(phase: PassivePhase): string {
    match phase
    case Fresh => "recovered"
    case Stale => "stale"
    case Expired => "expired"
    case Unreachable => "unreachable"
  }

  /** The phase some link facts put the instance in: an unreachable agent whatever the age, then the two thresholds,
      the longer one first, both strict. */
  function PhaseOf(link: PassiveLink, staleAfter: nat): PassivePhase {
    if link.unreachable then Unreachable
    else
      match link.livenessAge
      case None => Fresh
      case Some(age) => if age > staleAfter then Expired else if age > link.livenessWindow then Stale else Fresh
  }

  /** The age every signal of the instance reports, saturated to 64 bits. */
  function AgeMs(link: PassiveLink): nat {
    match link.livenessAge
    case None => 0
    case Some(age) => if age > U64_MAX then U64_MAX else age
  }

  function StaleRaw(ageMs: nat): string {
    STALE_PREFIX + ":" + Decimal(ageMs)
  }

  datatype SignalRecord = SignalRecord(held: Reading, publishedAt: nat, degraded: bool)

  /** The verdict a transition into a phase publishes for one held signal, if it publishes any. */
  function TransitionQuality(phase: PassivePhase, record: SignalRecord, ageMs: nat): Option<Verdict> {
    match phase
    case Fresh => if record.degraded then Some(record.held.Verdict()) else None
    case Stale => (
      match record.held.quality
      case Good => Some((Uncertain, Some(StaleRaw(ageMs))))
      case Uncertain => Some((Uncertain, record.held.qualityRaw))
      case Bad => None)
    case Expired => if record.held.quality != Bad then Some((Bad, Some(StaleRaw(ageMs)))) else None
    case Unreachable => if record.held.quality != Bad then Some((Bad, Some(AGENT_UNREACHABLE))) else None
  }

  /** Marked as put out by the watchdog. */
  predicate IsSynthetic(reading: Reading) {
    reading.extra.Some? && PASSIVE_EXTRA_KEY in reading.extra.value
  }

  /** The held value, stamps, routing and extras under a new verdict, marked. */
  function Synthetic(held: Reading, verdict: Verdict, marker: string): Reading {
    var extra := if held.extra.Some? then held.extra.value else map[];
    held.(quality := verdict.0, qualityRaw := verdict.1, receivedTs := None,
          extra := Some(extra[PASSIVE_EXTRA_KEY := Text(marker)]))
  }

  // ---------------------------------------------------------------------------------------------
  // The ladder without memory
  // ---------------------------------------------------------------------------------------------

  /** The best quality a phase leaves standing. */
  function Floor(phase: PassivePhase): Quality {
    match phase
    case Fresh => Good
    case Stale => Uncertain
    case Expired => Bad
    case Unreachable => Bad
  }

  /** What a held value is worth in a phase: its own verdict when that is at least as bad as the phase
      makes it, else the phase's verdict with the phase's reason. */
  function VerdictIn(phase: PassivePhase, held: Reading, ageMs: nat): Verdict {
    if Severity(held.quality) >= Severity(Floor(phase)) then held.Verdict()
    else (Floor(phase), Some(if phase == Unreachable then AGENT_UNREACHABLE else StaleRaw(ageMs)))
  }

  // ---------------------------------------------------------------------------------------------
  // Histories
  // ---------------------------------------------------------------------------------------------

  datatype WatchEvent =
    | Delivered(reading: Reading)
    | Judged(link: PassiveLink, staleAfter: nat)
    | Rebaselined

  type WatchTrace = History<WatchEvent>

  function PhaseAfter(h: WatchTrace): PassivePhase {
    match h
    case Start => Fresh
    case Then(past, Delivered(_)) => PhaseAfter(past)
    case Then(_, Judged(link, staleAfter)) => PhaseOf(link, staleAfter)
    case Then(_, Rebaselined) => Fresh
  }

  /** The last reading delivered for a signal since the last re-baseline. */
  function HeldAfter(id: string, h: WatchTrace): Option<Reading> {
    match h
    case Start => None
    case Then(past, Delivered(reading)) => if reading.signalId == id then Some(reading) else HeldAfter(id, past)
    case Then(past, Judged(_, _)) => HeldAfter(id, past)
    case Then(_, Rebaselined) => None
  }

  /** The last change of phase since a signal was last delivered: the phase, and the age it named. */
  function JudgedSince(id: string, h: WatchTrace): Option<(PassivePhase, nat)> {
    match h
    case Start => None
    case Then(past, Delivered(reading)) => if reading.signalId == id then None else JudgedSince(id, past)
    case Then(past, Judged(link, staleAfter)) =>
      if PhaseOf(link, staleAfter) == PhaseAfter(past) then JudgedSince(id, past)
      else Some((PhaseOf(link, staleAfter), AgeMs(link)))
    case Then(_, Rebaselined) => None
  }

  /** What the fleet should see for a held signal. */
  function Shown(held: Reading, judged: Option<(PassivePhase, nat)>): Verdict {
    if judged.None? then held.Verdict() else VerdictIn(judged.value.0, held, judged.value.1)
  }

  /** What a consumer sees last, per signal, after some readings arrive. */
  function Shows(wire: map<string, Verdict>, readings: seq<Reading>): map<string, Verdict> {
    if readings == [] then wire
    else
      var last := readings[|readings| - 1];
      Shows(wire, readings[..|readings| - 1])[last.signalId := last.Verdict()]
  }

  /** One signal's record, and what the fleet sees of it, are what the history says. */
  ghost predicate Agrees(id: string, record: Option<SignalRecord>, wire: map<string, Verdict>, phase: PassivePhase,
                         h: WatchTrace)
  {
    var held, judged := HeldAfter(id, h), JudgedSince(id, h);
    && (record.Some? <==> held.Some?)
    && (judged.Some? ==> judged.value.0 == phase)
    && (record.Some? ==>
          && record.value.held == held.value
          && held.value.signalId == id
          && (record.value.degraded <==> judged.Some? && phase != Fresh && held.value.quality != Bad)
          && id in wire && wire[id] == Shown(held.value, judged))
  }

  /** What a transition publishes is the ladder's verdict. */
  lemma TransitionIsTheVerdict(phase: PassivePhase, record: SignalRecord, ageMs: nat)
    requires TransitionQuality(phase, record, ageMs).Some?
    ensures TransitionQuality(phase, record, ageMs).value == VerdictIn(phase, record.held, ageMs)
  {
  }

  /** What a transition does to one signal's record and to what the fleet sees of it. */
  ghost predicate Moved(id: string, before: Option<SignalRecord>, after: Option<SignalRecord>,
                        seen: map<string, Verdict>, wire: map<string, Verdict>, next: PassivePhase, ageMs: nat)
  {
    && (before.Some? <==> after.Some?)
    && (before.Some? ==>
          var t := TransitionQuality(next, before.value, ageMs);
          && after.value == (if t.Some? then before.value.(degraded := next != Fresh) else before.value)
          && (if t.Some? then id in wire && wire[id] == t.value
              else id in seen ==> id in wire && wire[id] == seen[id]))
  }

  /** A record whose transition publishes nothing already shows the ladder's verdict, or the phase is Fresh and
      nothing was degraded. */
  lemma SilentRecordsAreOnTheLadder(record: SignalRecord, shown: Verdict, judged: Option<(PassivePhase, nat)>,
                                    phase: PassivePhase, next: PassivePhase, ageMs: nat)
    requires TransitionQuality(next, record, ageMs).None? && shown == Shown(record.held, judged)
    requires judged.Some? ==> judged.value.0 == phase
    requires record.degraded <==> judged.Some? && phase != Fresh && record.held.quality != Bad
    ensures shown == VerdictIn(next, record.held, ageMs)
    ensures next == Fresh || record.held.quality == Bad
  {
  }

  /** A change of phase takes one signal to the ladder's verdict: by publishing it, or because the fleet
      already sees it. */
  lemma TransitionReachesTheLadder(id: string, before: Option<SignalRecord>, after: Option<SignalRecord>,
                                   seen: map<string, Verdict>, wire: map<string, Verdict>,
                                   phase: PassivePhase, h: WatchTrace, link: PassiveLink, staleAfter: nat)
    requires Agrees(id, before, seen, phase, h) && phase == PhaseAfter(h)
    requires PhaseOf(link, staleAfter) != phase
    requires Moved(id, before, after, seen, wire, PhaseOf(link, staleAfter), AgeMs(link))
    ensures Agrees(id, after, wire, PhaseOf(link, staleAfter), Then(h, Judged(link, staleAfter)))
    ensures after.Some? ==>
      id in wire && wire[id] == VerdictIn(PhaseOf(link, staleAfter), after.value.held, AgeMs(link))
  {
    if before.Some? {
      var next, ageMs := PhaseOf(link, staleAfter), AgeMs(link);
      var t := TransitionQuality(next, before.value, ageMs);
      if t.None? {
        SilentRecordsAreOnTheLadder(before.value, seen[id], JudgedSince(id, h), phase, next, ageMs);
      } else {
        TransitionIsTheVerdict(next, before.value, ageMs);
        assert next != Fresh ==> before.value.held.quality != Bad;
      }
    }
  }

  /** Some readings say something about a signal. */
  ghost predicate SpeaksOf(id: string, readings: seq<Reading>) {
    exists r :: r in readings && r.signalId == id
  }

  /** Exactly what a change of phase has to announce about a record: a verdict on a value that was not BAD anyway, and
      on the way back to Fresh only if one was announced before. */
  lemma AnnouncedExactlyWhen(id: string, record: SignalRecord, wire: map<string, Verdict>, phase: PassivePhase,
                             h: WatchTrace, next: PassivePhase, ageMs: nat)
    requires Agrees(id, Some(record), wire, phase, h) && next != phase
    ensures TransitionQuality(next, record, ageMs).Some?
            <==> record.held.quality != Bad && (next == Fresh ==> JudgedSince(id, h).Some?)
  {
  }

  // ---------------------------------------------------------------------------------------------
  // The watchdog
  // ---------------------------------------------------------------------------------------------

  class QualityWatchdog {
    var signals: map<string, SignalRecord>
    var phase: PassivePhase

    /** Everything delivered, judged and re-baselined so far. */
    ghost var history: WatchTrace
    /** What the fleet sees per signal, counting everything handed out here as delivered. */
    ghost var wire: map<string, Verdict>

    ghost predicate Valid()
      reads this
    {
      && phase == PhaseAfter(history)
      && forall id :: Agrees(id, Get(signals, id), wire, phase, history)
    }

    constructor ()
      ensures Valid()
      ensures history == Start && signals == map[] && wire == map[]
    {
      signals, phase := map[], Fresh;
      history, wire := Start, map[];
    }

    /** Hold what was delivered; what the watchdog put out itself changes nothing. */
    method OnPublished(reading: Reading, now: nat)
      requires Valid()
      modifies this
      ensures Valid()
      ensures IsSynthetic(reading) ==> history == old(history) && wire == old(wire) && signals == old(signals)
      ensures !IsSynthetic(reading) ==>
        && history == Then(old(history), Delivered(reading))
        && wire == old(wire)[reading.signalId := reading.Verdict()]
        && signals == old(signals)[reading.signalId := SignalRecord(reading, now, false)]
    {
      if IsSynthetic(reading) {
        return;
      }
      signals := signals[reading.signalId := SignalRecord(reading, now, false)];
      wire := wire[reading.signalId := reading.Verdict()];
      history := Then(history, Delivered(reading));
      forall id ensures Agrees(id, Get(signals, id), wire, phase, history) {
        assert Agrees(id, old(Get(signals, id)), old(wire), phase, old(history));
      }
    }

    /** Judge the link: what is to be published of it comes back marked and ordered by signal. A steady
        phase returns nothing; a change of phase leaves every held signal at the ladder's verdict. What is published
        keeps everything of the held value but the verdict and the receive stamp. */
    method Evaluate(link: PassiveLink, staleAfter: nat) returns (out: seq<Reading>)
      requires Valid()
      modifies this
      ensures Valid()
      ensures history == Then(old(history), Judged(link, staleAfter))
      ensures phase == PhaseOf(link, staleAfter) && signals.Keys == old(signals).Keys
      ensures forall id :: id in signals ==> signals[id].held == old(signals)[id].held
      ensures wire == Shows(old(wire), out)
      ensures phase == old(phase) ==> out == [] && signals == old(signals)
      ensures phase != old(phase) ==> forall id :: id in signals ==>
        id in wire && wire[id] == VerdictIn(phase, signals[id].held, AgeMs(link))
      ensures forall r :: r in out ==>
        && r.signalId in signals && IsSynthetic(r)
        && var held := signals[r.signalId].held;
           && (r.quality, r.qualityRaw) == VerdictIn(phase, held, AgeMs(link))
           && r.value == held.value && r.name == held.name && r.signalId == held.signalId
           && r.sourceTs == held.sourceTs && r.captureTs == held.captureTs && r.receivedTs == None
           && r.channel == held.channel && r.componentPath == held.componentPath
      ensures forall r :: r in out ==>
        var kept := if signals[r.signalId].held.extra.Some? then signals[r.signalId].held.extra.value else map[];
        && r.extra.Some? && r.extra.value.Keys == kept.Keys + {"passive"}
        && (forall key :: key in kept && key != "passive" ==> r.extra.value[key] == kept[key])
        && r.extra.value["passive"] == Text(
          match phase
          case Fresh => "recovered"
          case Stale => "stale"
          case Expired => "expired"
          case Unreachable => "unreachable")
      ensures forall id :: SpeaksOf(id, out) <==>
        && phase != old(phase) && id in signals && signals[id].held.quality != Bad
        && (phase == Fresh ==> JudgedSince(id, old(history)).Some?)
      ensures forall i, j :: 0 <= i < j < |out| ==> StringLess(out[i].signalId, out[j].signalId)
    {
      out := Judge(link, staleAfter);
      forall id | id in signals && phase != old(phase)
        ensures TransitionQuality(phase, old(signals)[id], AgeMs(link)).Some?
                <==> signals[id].held.quality != Bad && (phase == Fresh ==> JudgedSince(id, old(history)).Some?)
      {
        assert Agrees(id, old(Get(signals, id)), old(wire), old(phase), old(history));
        AnnouncedExactlyWhen(id, old(signals)[id], old(wire), old(phase), old(history), phase, AgeMs(link));
      }
    }

    /** Judge the link and move to its phase. */
    method Judge(link: PassiveLink, staleAfter: nat) returns (out: seq<Reading>)
      requires Valid()
      modifies this
      ensures Valid()
      ensures history == Then(old(history), Judged(link, staleAfter))
      ensures phase == PhaseOf(link, staleAfter) && signals.Keys == old(signals).Keys
      ensures forall id :: id in signals ==>
        signals[id].held == old(signals)[id].held && signals[id].held.signalId == id
      ensures wire == Shows(old(wire), out)
      ensures phase == old(phase) ==> out == [] && signals == old(signals)
      ensures phase != old(phase) ==> forall id :: id in signals ==>
        id in wire && wire[id] == VerdictIn(phase, signals[id].held, AgeMs(link))
      ensures forall r :: r in out ==>
        && r.signalId in signals
        && var held := signals[r.signalId].held;
           r == Synthetic(held, VerdictIn(phase, held, AgeMs(link)), Marker(phase))
      ensures forall id :: SpeaksOf(id, out) <==>
        phase != old(phase) && id in signals && TransitionQuality(phase, old(signals)[id], AgeMs(link)).Some?
      ensures forall i, j :: 0 <= i < j < |out| ==> StringLess(out[i].signalId, out[j].signalId)
    {
      var next := PhaseOf(link, staleAfter);
      forall id | id in signals ensures signals[id].held.signalId == id {
        assert Agrees(id, Get(signals, id), wire, phase, history);
      }
      if next == phase {
        history := Then(history, Judged(link, staleAfter));
        forall id ensures Agrees(id, Get(signals, id), wire, phase, history) {
          assert Agrees(id, old(Get(signals, id)), old(wire), phase, old(history));
        }
        return [];
      }
      out := Enter(next, AgeMs(link));
      phase := next;
      history := Then(history, Judged(link, staleAfter));
      wire := Shows(wire, out);
      forall id ensures Agrees(id, Get(signals, id), wire, phase, history)
                ensures id in signals ==> id in wire && wire[id] == VerdictIn(phase, signals[id].held, AgeMs(link))
      {
        assert Agrees(id, old(Get(signals, id)), old(wire), old(phase), old(history));
        TransitionReachesTheLadder(id, old(Get(signals, id)), Get(signals, id), old(wire), wire, old(phase),
                                   old(history), link, staleAfter);
      }
    }

    /** Make the transition and order what it publishes. */
    method Enter(next: PassivePhase, ageMs: nat) returns (out: seq<Reading>)
      requires forall id :: id in signals ==> signals[id].held.signalId == id
      modifies this`signals
      ensures forall id :: Moved(id, old(Get(signals, id)), Get(signals, id), wire, Shows(wire, out), next, ageMs)
      ensures forall r :: r in out ==>
        && r.signalId in signals && IsSynthetic(r)
        && r == Synthetic(signals[r.signalId].held, VerdictIn(next, signals[r.signalId].held, ageMs), Marker(next))
      ensures forall i, j :: 0 <= i < j < |out| ==> StringLess(out[i].signalId, out[j].signalId)
      ensures signals.Keys == old(signals).Keys
      ensures forall id :: id in signals ==> signals[id].held == old(signals)[id].held
      ensures forall id :: SpeaksOf(id, out)
                           <==> id in signals && TransitionQuality(next, old(signals)[id], ageMs).Some?
    {
      var emitted := Transition(next, ageMs);
      out := InSignalOrder(emitted);
      forall id ensures Moved(id, old(Get(signals, id)), Get(signals, id), wire, Shows(wire, out), next, ageMs) {
        EmittedIsShown(wire, emitted, out, id);
      }
      forall id ensures SpeaksOf(id, out) <==> id in emitted {
        if id in emitted {
          assert emitted[id] in out;
        }
      }
      forall r | r in out
        ensures r == Synthetic(signals[r.signalId].held, VerdictIn(next, signals[r.signalId].held, ageMs), Marker(next))
      {
        TransitionIsTheVerdict(next, old(signals)[r.signalId], ageMs);
      }
    }

    /** Move every record a transition touches, and collect what it publishes. */
    method Transition(next: PassivePhase, ageMs: nat) returns (emitted: map<string, Reading>)
      requires forall id :: id in signals ==> signals[id].held.signalId == id
      modifies this`signals
      ensures signals.Keys == old(signals).Keys
      ensures forall id :: id in signals ==>
        var before := old(signals)[id];
        var verdict := TransitionQuality(next, before, ageMs);
        && (id in emitted <==> verdict.Some?)
        && (verdict.None? ==> signals[id] == before)
        && (verdict.Some? ==>
              && signals[id] == before.(degraded := next != Fresh)
              && emitted[id] == Synthetic(before.held, verdict.value, Marker(next)))
      ensures emitted.Keys <= signals.Keys
      ensures forall id :: id in emitted ==> emitted[id].signalId == id
    {
      emitted := map[];
      var rest := signals.Keys;
      while rest != {}
        invariant rest <= signals.Keys == old(signals).Keys
        invariant emitted.Keys <= signals.Keys - rest
        invariant forall id :: id in rest ==> signals[id] == old(signals)[id]
        invariant forall id :: id in signals && id !in rest ==>
          var before := old(signals)[id];
          var verdict := TransitionQuality(next, before, ageMs);
          && (id in emitted <==> verdict.Some?)
          && (verdict.None? ==> signals[id] == before)
          && (verdict.Some? ==>
                && signals[id] == before.(degraded := next != Fresh)
                && emitted[id] == Synthetic(before.held, verdict.value, Marker(next)))
        decreases rest
      {
        var id :| id in rest;
        rest := rest - {id};
        var verdict := TransitionQuality(next, signals[id], ageMs);
        if verdict.Some? {
          emitted := emitted[id := Synthetic(signals[id].held, verdict.value, Marker(next))];
          signals := signals[id := signals[id].(degraded := next != Fresh)];
        }
      }
    }

    /** A snapshot is coming: forget what is held and start the ladder over. */
    method OnRebaseline()
      requires Valid()
      modifies this
      ensures Valid()
      ensures history == Then(old(history), Rebaselined)
      ensures signals == map[] && phase == Fresh && wire == old(wire)
    {
      signals, phase := map[], Fresh;
      history := Then(history, Rebaselined);
    }
  }

  /** The emitted readings, ordered by signal id. */
  method InSignalOrder(emitted: map<string, Reading>) returns (out: seq<Reading>)
    requires forall id :: id in emitted ==> emitted[id].signalId == id
    ensures forall r :: r in out <==> r.signalId in emitted && emitted[r.signalId] == r
    ensures forall i, j :: 0 <= i < j < |out| ==> StringLess(out[i].signalId, out[j].signalId)
  {
    var ids := KeysInOrder(emitted.Keys);
    assert forall i :: 0 <= i < |ids| ==> ids[i] in ids;
    out := seq(|ids|, i requires 0 <= i < |ids| => emitted[ids[i]]);
    forall r ensures r in out <==> r.signalId in emitted && emitted[r.signalId] == r {
      if r.signalId in emitted && emitted[r.signalId] == r {
        assert r.signalId in ids;
        var i :| 0 <= i < |ids| && ids[i] == r.signalId;
        assert out[i] == r;
      }
    }
  }

  lemma EmittedIsShown(wire: map<string, Verdict>, emitted: map<string, Reading>, out: seq<Reading>, id: string)
    requires forall r :: r in out <==> r.signalId in emitted && emitted[r.signalId] == r
    requires forall k :: k in emitted ==> emitted[k].signalId == k
    requires forall i, j :: 0 <= i < j < |out| ==> StringLess(out[i].signalId, out[j].signalId)
    ensures id in emitted ==> id in Shows(wire, out) && Shows(wire, out)[id] == emitted[id].Verdict()
    ensures id !in emitted && id in wire ==> id in Shows(wire, out) && Shows(wire, out)[id] == wire[id]
  {
    ShowsLast(wire, out, id);
    if id in emitted {
      assert emitted[id] in out;
      var i :| 0 <= i < |out| && out[i] == emitted[id];
    } else {
      assert forall i :: 0 <= i < |out| ==> out[i] in out;
    }
  }

  lemma {:induction false} ShowsLast(wire: map<string, Verdict>, readings: seq<Reading>, id: string)
    requires forall i, j :: 0 <= i < j < |readings| ==> StringLess(readings[i].signalId, readings[j].signalId)
    ensures forall i :: 0 <= i < |readings| && readings[i].signalId == id ==>
              id in Shows(wire, readings) && Shows(wire, readings)[id] == readings[i].Verdict()
    ensures (forall i :: 0 <= i < |readings| ==> readings[i].signalId != id) ==>
              (id in Shows(wire, readings) <==> id in wire) && (id in wire ==> Shows(wire, readings)[id] == wire[id])
  {
    if readings != [] {
      var n := |readings| - 1;
      ShowsLast(wire, readings[..n], id);
      forall i | 0 <= i < n ensures readings[i].signalId != readings[n].signalId {
        StringLessTotal(readings[i].signalId, readings[n].signalId);
      }
    }
  }

  // ---------------------------------------------------------------------------------------------
  // What the ladder promises
  // ---------------------------------------------------------------------------------------------

  /** The verdicts of the ladder: a silent agent makes a GOOD value UNCERTAIN and an expired or unreachable one makes
      any value BAD, each with its reason; what is as bad already keeps its own reason, and a fresh one is as
      delivered. */
  lemma LadderSays(held: Reading, ageMs: nat)
    ensures VerdictIn(Fresh, held, ageMs) == (held.quality, held.qualityRaw)
    ensures VerdictIn(Stale, held, ageMs)
            == if held.quality == Good then (Uncertain, Some("MTC_STALE:" + Decimal(ageMs)))
               else (held.quality, held.qualityRaw)
    ensures VerdictIn(Expired, held, ageMs)
            == if held.quality == Bad then (Bad, held.qualityRaw) else (Bad, Some("MTC_STALE:" + Decimal(ageMs)))
    ensures VerdictIn(Unreachable, held, ageMs)
            == if held.quality == Bad then (Bad, held.qualityRaw) else (Bad, Some("MTC_AGENT_UNREACHABLE"))
  {
    assert STALE_PREFIX + ":" == "MTC_STALE:";
  }

  /** The phases: unreachable whatever the age; else expired strictly past the staleness limit; else stale strictly past
      the liveness window; else fresh, as without an age. */
  lemma PhasesExactlyWhen(link: PassiveLink, staleAfter: nat)
    ensures PhaseOf(link, staleAfter) == Unreachable <==> link.unreachable
    ensures PhaseOf(link, staleAfter) == Expired <==>
              !link.unreachable && link.livenessAge.Some? && link.livenessAge.value > staleAfter
    ensures PhaseOf(link, staleAfter) == Stale <==>
              !link.unreachable && link.livenessAge.Some? && link.livenessWindow < link.livenessAge.value <= staleAfter
    ensures PhaseOf(link, staleAfter) == Fresh <==>
              && !link.unreachable
              && (link.livenessAge.None?
                  || (link.livenessAge.value <= staleAfter && link.livenessAge.value <= link.livenessWindow))
    ensures AgeMs(link) == (if link.livenessAge.None? then 0
                            else if link.livenessAge.value <= 0xFFFF_FFFF_FFFF_FFFF then link.livenessAge.value
                            else 0xFFFF_FFFF_FFFF_FFFF)
  {
  }

  /** The ladder never improves a verdict, never lets one better than the phase stand, and overwrites
      the held reason only when it lowers the quality. */
  lemma LadderTakesTheWorse(phase: PassivePhase, held: Reading, ageMs: nat)
    ensures var v := VerdictIn(phase, held, ageMs);
            && Severity(v.0) == (if Severity(held.quality) >= Severity(Floor(phase)) then Severity(held.quality)
                                 else Severity(Floor(phase)))
            && (v.0 == held.quality ==> v.1 == held.qualityRaw)
    ensures VerdictIn(Fresh, held, ageMs) == held.Verdict()
  {
  }
}
