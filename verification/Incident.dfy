/** The edge incident engine as a function on states: a hazard machine beside a response machine,
    a sliding window of frames, a growth estimate and a degraded mode. */
module Incident {
  import opened Clock
  import Folds
  import opened Geometry

  datatype Hazard = Clear | Suspected | Verifying | Confirmed | VisualSignatureLost | Resolved | Degraded

  datatype Response =
    | Idle | AwaitingResponse | Cancelled | Escalating
    | CallRequested | CallInitiated | CallConnected | CallCompleted | CallFailed

  datatype Thresholds = Thresholds(
    suspectedFire: real,
    suspectedSmoke: real,
    windowFrames: nat,
    requiredFrames: nat,
    confirmedFire: real,
    fireDuration: nat,
    visibleDuration: nat,
    clearGrace: nat,
    growthWindow: nat,
    growthPercent: real,
    growthArea: real,
    timingUncertainty: real)

  datatype Frame = Frame(sequence: nat, time: nat, fire: real, smoke: real, fireBox: Box, zone: string)

  /** Incident 0 is the absent incident; the engine's text id is its device, its boot and this number. */
  datatype Snapshot = Snapshot(
    incident: nat,
    hazard: Hazard,
    response: Response,
    firstDetection: nat,
    updated: nat,
    peakFire: real,
    peakSmoke: real,
    secondsPersistent: real,
    firstZone: string,
    currentZone: string,
    growth: real,
    growthStable: bool,
    smokeFirstKnown: bool,
    smokeFirst: bool,
    smokeToFireDelay: real,
    wasConfirmed: bool)

  datatype State = State(
    counter: nat,
    snapshot: Snapshot,
    window: seq<Frame>,
    lastSequence: nat,
    lastRelevant: nat,
    firstFire: nat,
    firstSmoke: nat,
    highFireStart: nat,
    degraded: bool)

  const NO_AREA := "Unconfigured area"

  const NO_INCIDENT :=
    Snapshot(0, Clear, Idle, 0, 0, 0.0, 0.0, 0.0, NO_AREA, NO_AREA, 0.0, false, false, false, 0.0, false)

  const START := State(0, NO_INCIDENT, [], 0, 0, 0, 0, 0, false)

  const SECOND := 1_000_000_000

  predicate Relevant(t: Thresholds, f: Frame) {
    f.fire >= t.suspectedFire || f.smoke >= t.suspectedSmoke
  }

  /** A frame that keeps a stretch of high fire confidence going. */
  predicate HighFire(t: Thresholds, f: Frame) {
    Relevant(t, f) && f.fire >= t.confirmedFire
  }

  predicate FireAndSmoke(t: Thresholds, f: Frame) {
    f.fire >= t.suspectedFire && f.smoke >= t.suspectedSmoke
  }

  function Max(a: real, b: real): real {
    if a < b then b else a
  }

  /** How many frames satisfy a test. */
  function Count(test: Frame -> bool, frames: seq<Frame>): nat {
    if frames == [] then 0
    else Count(test, frames[..|frames| - 1]) + if test(frames[|frames| - 1]) then 1 else 0
  }

  function IsRelevant(t: Thresholds): Frame -> bool {
    f => Relevant(t, f)
  }

  function HasBoth(t: Thresholds): Frame -> bool {
    f => FireAndSmoke(t, f)
  }

  function Persistence(t: Thresholds, frames: seq<Frame>): nat {
    Count(IsRelevant(t), frames)
  }

  function CoOccurrences(t: Thresholds, frames: seq<Frame>): nat {
    Count(HasBoth(t), frames)
  }

  /** The time of the first frame with fire and smoke, 0 when there is none. */
  function FirstCoOccurrence(t: Thresholds, frames: seq<Frame>): nat {
    if frames == [] then 0
    else
      var earlier := FirstCoOccurrence(t, frames[..|frames| - 1]);
      var f := frames[|frames| - 1];
      if earlier == 0 && FireAndSmoke(t, f) then f.time else earlier
  }

  // ---------------------------------------------------------------- growth of the fire region

  predicate Qualifies(t: Thresholds, now: nat, f: Frame) {
    ValidBox(f.fireBox) && BoxArea(f.fireBox) >= t.growthArea && Elapsed(now, f.time) <= t.growthWindow
  }

  /** The areas that take part in the growth estimate, oldest first. */
  function Areas(t: Thresholds, now: nat, frames: seq<Frame>): seq<real> {
    if frames == [] then []
    else
      var f := frames[|frames| - 1];
      Areas(t, now, frames[..|frames| - 1]) + if Qualifies(t, now, f) then [BoxArea(f.fireBox)] else []
  }

  /** The running average: 0.35 of the newest and 0.65 of what came before. */
  function Average(areas: seq<real>): real {
    if areas == [] then 0.0
    else if |areas| == 1 then areas[0]
    else 0.35 * areas[|areas| - 1] + 0.65 * Average(areas[..|areas| - 1])
  }

  function Rises(areas: seq<real>): nat {
    if |areas| < 2 then 0
    else Rises(areas[..|areas| - 1]) + if areas[|areas| - 1] > areas[|areas| - 2] then 1 else 0
  }

  function Percent(recent: real, baseline: real): real
    requires baseline != 0.0
  {
    (recent - baseline) / baseline * 100.0
  }

  predicate Growing(t: Thresholds, areas: seq<real>) {
    && |areas| >= 4
    && areas[0] > 0.0 && areas[0] >= t.growthArea
    && Percent(Average(areas), areas[0]) >= t.growthPercent
    && Rises(areas) >= 2
  }

  function Grown(t: Thresholds, areas: seq<real>, s: Snapshot): Snapshot {
    var growing := Growing(t, areas);
    s.(growthStable := growing, growth := if growing then Percent(Average(areas), areas[0]) else 0.0)
  }

  // ---------------------------------------------------------------- one frame

  /** The number of nanoseconds between the first smoke and the first fire. */
  function Difference(a: nat, b: nat): nat {
    if a > b then a - b else b - a
  }

  function Seconds(nanoseconds: nat): real {
    nanoseconds as real / 1000000000.0
  }

  function Ordered(t: Thresholds, firstSmoke: nat, firstFire: nat, s: Snapshot): Snapshot {
    var difference := Seconds(Difference(firstSmoke, firstFire));
    var known := firstSmoke != 0 && firstFire != 0 && difference > t.timingUncertainty;
    s.(smokeFirstKnown := known,
       smokeFirst := if known then firstSmoke < firstFire else s.smokeFirst,
       smokeToFireDelay := if known then difference else s.smokeToFireDelay)
  }

  function Begin(s: State, f: Frame): State {
    s.(counter := s.counter + 1,
       snapshot := NO_INCIDENT.(incident := s.counter + 1, hazard := Suspected, firstDetection := f.time,
                                updated := f.time, firstZone := f.zone, currentZone := f.zone),
       firstFire := 0, firstSmoke := 0, highFireStart := 0)
  }

  /** A relevant frame in one of these states opens a new incident. */
  predicate Opens(s: State) {
    s.snapshot.hazard == Clear || s.snapshot.hazard == Resolved
  }

  function Admitted(t: Thresholds, s: State, f: Frame): State {
    s.(lastSequence := f.sequence, window := Folds.LastOf(s.window + [f], t.windowFrames))
  }

  function Noted(t: Thresholds, s: State, f: Frame): State {
    s.(lastRelevant := f.time,
       snapshot := s.snapshot.(peakFire := Max(s.snapshot.peakFire, f.fire),
                               peakSmoke := Max(s.snapshot.peakSmoke, f.smoke),
                               currentZone := f.zone),
       firstFire := if f.fire >= t.suspectedFire && s.firstFire == 0 then f.time else s.firstFire,
       firstSmoke := if f.smoke >= t.suspectedSmoke && s.firstSmoke == 0 then f.time else s.firstSmoke,
       highFireStart := if f.fire < t.confirmedFire then 0
                        else if s.highFireStart == 0 then f.time else s.highFireStart)
  }

  function Timed(s: State, now: nat): State {
    var sn, counts := s.snapshot, s.snapshot.firstDetection != 0;
    s.(snapshot := sn.(
         updated := if counts then now else sn.updated,
         secondsPersistent := if counts then Seconds(Elapsed(now, sn.firstDetection)) else sn.secondsPersistent))
  }

  function Tracked(t: Thresholds, s: State, f: Frame): State {
    Timed(if Relevant(t, f) then Noted(t, if Opens(s) then Begin(s, f) else s, f) else s.(highFireStart := 0), f.time)
  }

  function Watched(t: Thresholds, s: State): State {
    var sn := s.snapshot;
    s.(snapshot := sn.(
         hazard := if !sn.wasConfirmed && Persistence(t, s.window) >= t.requiredFrames then Verifying else sn.hazard))
  }

  function Measured(t: Thresholds, s: State, now: nat): State {
    s.(snapshot := Ordered(t, s.firstSmoke, s.firstFire, Grown(t, Areas(t, now, s.window), s.snapshot)))
  }

  predicate HighFireLasted(t: Thresholds, s: State, now: nat) {
    s.highFireStart != 0 && Elapsed(now, s.highFireStart) >= t.fireDuration
  }

  predicate VisibleLasted(t: Thresholds, s: State, now: nat) {
    && s.snapshot.firstDetection != 0
    && Elapsed(now, s.snapshot.firstDetection) >= t.visibleDuration
    && Persistence(t, s.window) >= t.requiredFrames
  }

  predicate BothLasted(t: Thresholds, s: State, now: nat) {
    && CoOccurrences(t, s.window) >= t.requiredFrames
    && FirstCoOccurrence(t, s.window) != 0
    && Elapsed(now, FirstCoOccurrence(t, s.window)) >= SECOND
  }

  predicate RuleMet(t: Thresholds, s: State, now: nat) {
    HighFireLasted(t, s, now) || VisibleLasted(t, s, now) || BothLasted(t, s, now) || s.snapshot.growthStable
  }

  predicate Confirms(t: Thresholds, s: State, now: nat) {
    !s.snapshot.wasConfirmed && s.snapshot.hazard == Verifying && RuleMet(t, s, now)
  }

  function Judged(t: Thresholds, s: State, now: nat): State {
    var sn, confirms := s.snapshot, Confirms(t, s, now);
    s.(snapshot := sn.(
         hazard := if confirms then Confirmed else sn.hazard,
         response := if confirms then AwaitingResponse else sn.response,
         wasConfirmed := sn.wasConfirmed || confirms,
         updated := if confirms then now else sn.updated))
  }

  /** The signature has been out of sight for the whole grace period. */
  predicate OutOfSight(t: Thresholds, s: State, f: Frame) {
    !Relevant(t, f) && s.lastRelevant != 0 && Elapsed(f.time, s.lastRelevant) >= t.clearGrace
  }

  function Settled(t: Thresholds, s: State, f: Frame): State {
    var sn, gone := s.snapshot, OutOfSight(t, s, f);
    s.(snapshot := sn.(
         hazard := if gone then (if sn.wasConfirmed then VisualSignatureLost else Clear)
                   else if Relevant(t, f) && sn.wasConfirmed && sn.hazard == VisualSignatureLost then Confirmed
                   else sn.hazard,
         response := if gone && !sn.wasConfirmed then Idle else sn.response))
  }

  predicate Accepts(s: State, f: Frame) {
    f.sequence > s.lastSequence && f.time != 0
  }

  /** The frame enters the window: it is accepted, and the engine is not degraded. */
  predicate Admits(s: State, f: Frame) {
    Accepts(s, f) && !s.degraded
  }

  function Process(t: Thresholds, s: State, f: Frame): State {
    if !Accepts(s, f) then s
    else if s.degraded then
      s.(lastSequence := f.sequence, snapshot := s.snapshot.(hazard := Degraded, updated := f.time))
    else
      Settled(t, Judged(t, Measured(t, Watched(t, Tracked(t, Admitted(t, s, f), f)), f.time), f.time), f)
  }

  // ---------------------------------------------------------------- the other calls

  predicate Cancels(s: State) {
    s.snapshot.wasConfirmed && s.snapshot.response != CallConnected && s.snapshot.response != CallCompleted
  }

  function Cancel(s: State): State {
    if Cancels(s) then s.(snapshot := s.snapshot.(response := Cancelled)) else s
  }

  predicate Escalates(s: State) {
    s.snapshot.wasConfirmed && s.snapshot.response != Cancelled
  }

  function ConfirmOccupant(s: State): State {
    if Escalates(s) then s.(snapshot := s.snapshot.(response := Escalating)) else s
  }

  predicate Resets(s: State) {
    s.snapshot.response == Cancelled || s.snapshot.response == CallCompleted || s.snapshot.response == CallFailed
  }

  function ManualReset(s: State): State {
    if Resets(s) then s.(snapshot := s.snapshot.(hazard := Resolved), window := []) else s
  }

  function SetDegraded(s: State, degraded: bool): State {
    s.(degraded := degraded,
       snapshot := s.snapshot.(hazard := if degraded then Degraded
                                         else if s.snapshot.wasConfirmed then Confirmed else Clear))
  }

  // ---------------------------------------------------------------- facts about the counters

  /** One more frame of a loop over the window, for each of the four tallies. */
  lemma TallyStep(t: Thresholds, now: nat, frames: seq<Frame>, i: nat)
    requires i < |frames|
    ensures var before := frames[..i]; var after := frames[..i + 1]; var f := frames[i];
            && Persistence(t, after) == Persistence(t, before) + (if Relevant(t, f) then 1 else 0)
            && CoOccurrences(t, after) == CoOccurrences(t, before) + (if FireAndSmoke(t, f) then 1 else 0)
            && FirstCoOccurrence(t, after) ==
               (if FirstCoOccurrence(t, before) == 0 && FireAndSmoke(t, f) then f.time
                   else FirstCoOccurrence(t, before))
            && Areas(t, now, after) == Areas(t, now, before) + if Qualifies(t, now, f) then [BoxArea(f.fireBox)] else []
  {
    assert frames[..i + 1][..i] == frames[..i];
  }

  /** The first co-occurrence is the time of a frame with fire and smoke that no other precedes,
      in a window whose frames all carry a time. */
  lemma {:induction false} FirstCoOccurrenceFound(t: Thresholds, frames: seq<Frame>)
    requires forall i :: 0 <= i < |frames| ==> frames[i].time != 0
    ensures FirstCoOccurrence(t, frames) == 0 <==> forall i :: 0 <= i < |frames| ==> !FireAndSmoke(t, frames[i])
    ensures FirstCoOccurrence(t, frames) != 0 ==>
              exists i :: 0 <= i < |frames| && FireAndSmoke(t, frames[i]) &&
                          frames[i].time == FirstCoOccurrence(t, frames) &&
                          forall j :: 0 <= j < i ==> !FireAndSmoke(t, frames[j])
  {
    if frames != [] {
      var front, f := frames[..|frames| - 1], frames[|frames| - 1];
      FirstCoOccurrenceFound(t, front);
      if FirstCoOccurrence(t, front) != 0 {
        var i :| 0 <= i < |front| && FireAndSmoke(t, front[i]) && front[i].time == FirstCoOccurrence(t, front) &&
                 forall j :: 0 <= j < i ==> !FireAndSmoke(t, front[j]);
        assert FireAndSmoke(t, frames[i]) && forall j :: 0 <= j < i ==> !FireAndSmoke(t, frames[j]) by {
          forall j | 0 <= j < i ensures !FireAndSmoke(t, frames[j]) {
            assert frames[j] == front[j];
          }
        }
      } else {
        forall j | 0 <= j < |front| ensures !FireAndSmoke(t, frames[j]) {
          assert frames[j] == front[j];
        }
      }
    }
  }

  // ---------------------------------------------------------------- facts about growth

  /** Every area that takes part is positive, at most 1 and not below the least one that counts. */
  lemma {:induction false} AreasQualify(t: Thresholds, now: nat, frames: seq<Frame>)
    ensures forall i :: 0 <= i < |Areas(t, now, frames)| ==>
              0.0 < Areas(t, now, frames)[i] <= 1.0 && Areas(t, now, frames)[i] >= t.growthArea
  {
    if frames != [] {
      AreasQualify(t, now, frames[..|frames| - 1]);
      AreaOfUnitBox(frames[|frames| - 1].fireBox);
    }
  }

  /** Every area that takes part is that of a qualifying frame, with the earlier areas before it. */
  lemma {:induction false} AreaHasFrame(t: Thresholds, now: nat, frames: seq<Frame>, i: nat) returns (j: nat)
    requires i < |Areas(t, now, frames)|
    ensures j < |frames| && Qualifies(t, now, frames[j]) && Areas(t, now, frames)[i] == BoxArea(frames[j].fireBox)
    ensures |Areas(t, now, frames[..j])| == i
  {
    var front := frames[..|frames| - 1];
    if i < |Areas(t, now, front)| {
      j := AreaHasFrame(t, now, front, i);
      assert front[..j] == frames[..j];
    } else {
      j := |frames| - 1;
    }
  }

  lemma UnitProduct(w: real, h: real)
    requires 0.0 < w <= 1.0 && 0.0 < h <= 1.0
    ensures 0.0 < w * h <= 1.0
  {
    assert (1.0 - w) * h >= 0.0;
  }

  lemma AreaOfUnitBox(box: Box)
    ensures ValidBox(box) ==> 0.0 < BoxArea(box) <= 1.0
  {
    if ValidBox(box) {
      var w, h := box.xMax - box.xMin, box.yMax - box.yMin;
      UnitProduct(w, h);
      assert BoxArea(box) == w * h;
    }
  }

  /** The running average stays between the least and the greatest area. */
  lemma {:induction false} AverageBetween(areas: seq<real>, low: real, high: real)
    requires areas != []
    ensures (forall i :: 0 <= i < |areas| ==> low <= areas[i]) ==> low <= Average(areas)
    ensures (forall i :: 0 <= i < |areas| ==> areas[i] <= high) ==> Average(areas) <= high
  {
    if |areas| > 1 {
      AverageBetween(areas[..|areas| - 1], low, high);
    }
  }

  /** The greatest of a nonempty list. */
  lemma {:induction false} Greatest(areas: seq<real>) returns (k: nat)
    requires areas != []
    ensures k < |areas| && forall i :: 0 <= i < |areas| ==> areas[i] <= areas[k]
  {
    k := 0;
    if |areas| > 1 {
      k := Greatest(areas[..|areas| - 1]);
      if areas[|areas| - 1] > areas[k] {
        k := |areas| - 1;
      }
    }
  }

  lemma PercentBounds(recent: real, baseline: real, percent: real)
    requires baseline > 0.0 && Percent(recent, baseline) >= percent
    ensures recent >= (1.0 + percent / 100.0) * baseline
  {
    var q := (recent - baseline) / baseline;
    assert q * baseline == recent - baseline;
    assert q >= percent / 100.0;
    assert (q - percent / 100.0) * baseline >= 0.0;
  }

  lemma ProductSign(u: real, d: real)
    requires d > 0.0
    ensures (u > 0.0 ==> u * d > 0.0) && (u < 0.0 ==> u * d < 0.0)
  {
  }

  lemma SameFactor(a: real, b: real, d: real)
    requires d > 0.0 && a * d == b * d
    ensures a == b
  {
    ProductSign(a - b, d);
    assert (a - b) * d == 0.0;
  }

  lemma QuotientAtMost(q: real, r: real, n: real, d: real, least: real)
    requires 0.0 < least <= d && 0.0 < n <= 1.0 && q * d == n && r * least == 1.0
    ensures q <= r
  {
    ProductSign(r, least);
    assert r * (d - least) >= 0.0;
    assert (q - r) * d <= 0.0;
    ProductSign(q - r, d);
  }

  lemma PercentAtMost(recent: real, baseline: real, least: real)
    requires 0.0 < least <= baseline && 0.0 < recent <= 1.0
    ensures Percent(recent, baseline) <= 100.0 * (1.0 / least - 1.0)
  {
    var p, q, r := (recent - baseline) / baseline, recent / baseline, 1.0 / least;
    assert p * baseline == recent - baseline;
    QuotientAtMost(q, r, recent, baseline, least);
    SameFactor(p, q - 1.0, baseline);
  }

  /** A stable growth is witnessed by an area that exceeds the first one by the required part. */
  lemma GrowthIsReal(t: Thresholds, areas: seq<real>) returns (k: nat)
    requires Growing(t, areas)
    ensures k < |areas| && areas[k] >= (1.0 + t.growthPercent / 100.0) * areas[0]
  {
    k := GreatestBoundsAverage(areas);
    PercentBounds(Average(areas), areas[0], t.growthPercent);
  }

  lemma GreatestBoundsAverage(areas: seq<real>) returns (k: nat)
    requires areas != []
    ensures k < |areas| && Average(areas) <= areas[k]
  {
    k := Greatest(areas);
    AverageBetween(areas, 0.0, areas[k]);
  }

  /** The reported percentage is bounded by the least area that counts. */
  lemma GrowthBounded(t: Thresholds, areas: seq<real>)
    requires areas != [] && forall i :: 0 <= i < |areas| ==> 0.0 < areas[i] <= 1.0 && areas[i] >= t.growthArea
    ensures t.growthArea > 0.0 ==> Percent(Average(areas), areas[0]) <= 100.0 * (1.0 / t.growthArea - 1.0)
  {
    if t.growthArea > 0.0 {
      AverageBetween(areas, t.growthArea, 1.0);
      PercentAtMost(Average(areas), areas[0], t.growthArea);
    }
  }
}
