/** Whole runs of the incident engine: every sequence of its five calls. */
module IncidentRuns {
  import opened Clock
  import Folds
  import opened Geometry
  import opened Incident

  datatype Call = SeeFrame(frame: Frame) | CancelCall | ConfirmCall | ResetCall | DegradeCall(on: bool)

  function Step(t: Thresholds, s: State, c: Call): State {
    match c
    case SeeFrame(f) => Process(t, s, f)
    case CancelCall => Cancel(s)
    case ConfirmCall => ConfirmOccupant(s)
    case ResetCall => ManualReset(s)
    case DegradeCall(on) => SetDegraded(s, on)
  }

  function Run(t: Thresholds, s: State, calls: seq<Call>): State {
    if calls == [] then s else Step(t, Run(t, s, calls[..|calls| - 1]), calls[|calls| - 1])
  }

  lemma RunStep(t: Thresholds, s: State, calls: seq<Call>, c: Call)
    ensures Run(t, s, calls + [c]) == Step(t, Run(t, s, calls), c)
  {
    assert (calls + [c])[..|calls|] == calls;
  }

  // ---------------------------------------------------------------- one frame

  predicate NewIncident(t: Thresholds, s: State, f: Frame) {
    Admits(s, f) && Relevant(t, f) && Opens(s)
  }

  /** The incident became confirmed, or a later one began and was confirmed at once. */
  predicate Flips(before: State, after: State) {
    after.snapshot.wasConfirmed &&
    (!before.snapshot.wasConfirmed || after.snapshot.incident != before.snapshot.incident)
  }

  /** What an admitted frame does to everything the theorems speak of. */
  lemma FrameEffect(t: Thresholds, s: State, f: Frame)
    requires Admits(s, f)
    ensures var e := Process(t, s, f); var begins := NewIncident(t, s, f);
            && e.window == Folds.LastOf(s.window + [f], t.windowFrames)
            && e.counter == s.counter + (if begins then 1 else 0)
            && e.snapshot.incident == (if begins then s.counter + 1 else s.snapshot.incident)
            && e.snapshot.firstDetection == (if begins then f.time else s.snapshot.firstDetection)
            && e.highFireStart == (if !HighFire(t, f) then 0
                                   else if begins || s.highFireStart == 0 then f.time else s.highFireStart)
  {
  }

  lemma FrameConfirms(t: Thresholds, s: State, f: Frame)
    requires Admits(s, f) && Consistent(s)
    ensures var e := Process(t, s, f); var begins := NewIncident(t, s, f);
            && (s.snapshot.wasConfirmed && !begins ==> e.snapshot.wasConfirmed)
            && (Flips(s, e) ==>
                  Persistence(t, e.window) >= t.requiredFrames || (s.snapshot.hazard == Verifying && !begins))
            && (Flips(s, e) ==> RuleMet(t, e, f.time))
            && (e.snapshot.hazard == Verifying ==>
                  Persistence(t, e.window) >= t.requiredFrames || (s.snapshot.hazard == Verifying && !begins))
  {
  }

  // ---------------------------------------------------------------- what every call keeps

  predicate Consistent(s: State) {
    var sn := s.snapshot;
    && sn.incident == s.counter
    && (sn.wasConfirmed <==> sn.response != Idle)
    && (sn.response == Idle || sn.response == AwaitingResponse || sn.response == Cancelled || sn.response == Escalating)
    && (sn.hazard == Confirmed || sn.hazard == VisualSignatureLost || sn.hazard == Resolved ==> sn.wasConfirmed)
    && (sn.hazard == Clear || sn.hazard == Suspected || sn.hazard == Verifying ==> !sn.wasConfirmed)
    && (sn.hazard == Degraded ==> s.degraded)
    && (sn.hazard == Resolved ==> sn.response == Cancelled)
  }

  lemma FrameIsConsistent(t: Thresholds, s: State, f: Frame)
    requires Consistent(s)
    ensures Consistent(Process(t, s, f))
  {
  }

  lemma StepIsConsistent(t: Thresholds, s: State, c: Call)
    requires Consistent(s)
    ensures Consistent(Step(t, s, c))
  {
    match c
    case SeeFrame(f) => FrameIsConsistent(t, s, f);
    case _ =>
  }

  /** In every reachable state the incident was confirmed exactly when the response is not idle, the
      engine itself never leaves the first four response states, and a degraded display means a
      degraded engine. */
  lemma {:induction false} AlwaysConsistent(t: Thresholds, s: State, calls: seq<Call>)
    requires Consistent(s)
    ensures Consistent(Run(t, s, calls))
  {
    if calls != [] {
      var front := calls[..|calls| - 1];
      AlwaysConsistent(t, s, front);
      StepIsConsistent(t, Run(t, s, front), calls[|calls| - 1]);
    }
  }

  // ---------------------------------------------------------------- confirmed history is permanent

  /** The same confirmed incident, with its history, never back among the unconfirmed states. */
  predicate SameConfirmed(s: State, e: State) {
    && e.snapshot.incident == s.snapshot.incident
    && e.snapshot.firstDetection == s.snapshot.firstDetection
    && e.snapshot.wasConfirmed
    && e.snapshot.hazard != Clear && e.snapshot.hazard != Suspected && e.snapshot.hazard != Verifying
  }

  predicate Reopens(t: Thresholds, s: State, c: Call) {
    c.SeeFrame? && NewIncident(t, s, c.frame) && s.snapshot.hazard == Resolved
  }

  /** One call keeps a confirmed incident, exactly when it is not a relevant frame that arrives in
      the resolved state. */
  lemma ConfirmedStep(t: Thresholds, s: State, c: Call)
    requires Consistent(s) && s.snapshot.wasConfirmed
    ensures SameConfirmed(s, Step(t, s, c)) <==> !Reopens(t, s, c)
    ensures !Reopens(t, s, c) ==>
              && (Step(t, s, c).snapshot.response == Cancelled ==>
                    (c == CancelCall && Cancels(s)) || s.snapshot.response == Cancelled)
              && (Step(t, s, c).snapshot.hazard == Resolved ==>
                    (c == ResetCall && s.snapshot.response == Cancelled) || s.snapshot.hazard == Resolved)
  {
    if c.SeeFrame? && Admits(s, c.frame) {
      FrameEffect(t, s, c.frame);
    }
  }

  /** A cancel that succeeds. */
  predicate CancelledAt(t: Thresholds, s: State, calls: seq<Call>, i: nat) {
    i < |calls| && calls[i] == CancelCall && Cancels(Run(t, s, calls[..i]))
  }

  /** A manual reset that succeeds after an earlier cancel. */
  predicate ResolvedAt(t: Thresholds, s: State, calls: seq<Call>, i: nat, j: nat) {
    CancelledAt(t, s, calls, i) && i < j < |calls| && calls[j] == ResetCall && Resets(Run(t, s, calls[..j]))
  }

  /** A relevant frame that opens a new incident after a cancel and a reset. */
  predicate ReopenedAt(t: Thresholds, s: State, calls: seq<Call>, i: nat, j: nat, k: nat) {
    ResolvedAt(t, s, calls, i, j) && j < k < |calls| && Reopens(t, Run(t, s, calls[..k]), calls[k])
  }

  lemma Extended(t: Thresholds, s: State, calls: seq<Call>, c: Call)
    ensures forall i :: CancelledAt(t, s, calls, i) ==> CancelledAt(t, s, calls + [c], i)
    ensures forall i, j :: ResolvedAt(t, s, calls, i, j) ==> ResolvedAt(t, s, calls + [c], i, j)
    ensures forall i, j, k :: ReopenedAt(t, s, calls, i, j, k) ==> ReopenedAt(t, s, calls + [c], i, j, k)
  {
    forall j | 0 <= j < |calls| ensures (calls + [c])[..j] == calls[..j] {}
  }

  ghost predicate EverCancelled(t: Thresholds, s: State, calls: seq<Call>) {
    exists i :: CancelledAt(t, s, calls, i)
  }

  ghost predicate EverResolved(t: Thresholds, s: State, calls: seq<Call>) {
    exists i, j :: ResolvedAt(t, s, calls, i, j)
  }

  ghost predicate EverReopened(t: Thresholds, s: State, calls: seq<Call>) {
    exists i, j, k :: ReopenedAt(t, s, calls, i, j, k)
  }

  lemma {:induction false} PermanentUntilReopened(t: Thresholds, s: State, calls: seq<Call>)
    requires Consistent(s) && s.snapshot.wasConfirmed && s.snapshot.response != Cancelled
    ensures var e := Run(t, s, calls);
            || EverReopened(t, s, calls)
            || (&& SameConfirmed(s, e)
                && (e.snapshot.response == Cancelled ==> EverCancelled(t, s, calls))
                && (e.snapshot.hazard == Resolved ==> EverResolved(t, s, calls)))
  {
    if calls != [] {
      var n := |calls| - 1;
      var front, c := calls[..n], calls[n];
      assert calls == front + [c];
      PermanentUntilReopened(t, s, front);
      Extended(t, s, front, c);
      var m := Run(t, s, front);
      AlwaysConsistent(t, s, front);
      if !EverReopened(t, s, front) {
        ConfirmedStep(t, m, c);
        if Reopens(t, m, c) {
          var i, j :| ResolvedAt(t, s, front, i, j);
          assert ReopenedAt(t, s, calls, i, j, n);
        } else if Step(t, m, c).snapshot.hazard == Resolved && m.snapshot.hazard != Resolved {
          var i :| CancelledAt(t, s, front, i);
          assert ResolvedAt(t, s, calls, i, n);
        } else if Step(t, m, c).snapshot.response == Cancelled && m.snapshot.response != Cancelled {
          assert CancelledAt(t, s, calls, n);
        }
      }
    }
  }

  lemma StepCounts(t: Thresholds, s: State, c: Call)
    ensures s.counter <= Step(t, s, c).counter
    ensures Reopens(t, s, c) ==> s.counter < Step(t, s, c).counter
  {
    if c.SeeFrame? && Admits(s, c.frame) {
      FrameEffect(t, s, c.frame);
    }
  }

  lemma RunOnward(t: Thresholds, s: State, calls: seq<Call>, k: nat)
    requires k < |calls|
    ensures Run(t, s, calls[..k + 1]) == Step(t, Run(t, s, calls[..k]), calls[k])
  {
    assert calls[..k + 1][..k] == calls[..k];
  }

  lemma {:induction false} CounterOnward(t: Thresholds, s: State, calls: seq<Call>, i: nat, j: nat)
    requires i <= j <= |calls|
    ensures Run(t, s, calls[..i]).counter <= Run(t, s, calls[..j]).counter
  {
    if i < j {
      CounterOnward(t, s, calls, i, j - 1);
      RunOnward(t, s, calls, j - 1);
      StepCounts(t, Run(t, s, calls[..j - 1]), calls[j - 1]);
    }
  }

  lemma ReopenedIsNewer(t: Thresholds, s: State, calls: seq<Call>, k: nat)
    requires k < |calls| && Reopens(t, Run(t, s, calls[..k]), calls[k])
    ensures s.counter < Run(t, s, calls[..|calls|]).counter
  {
    CounterOnward(t, s, calls, 0, k);
    RunOnward(t, s, calls, k);
    StepCounts(t, Run(t, s, calls[..k]), calls[k]);
    CounterOnward(t, s, calls, k + 1, |calls|);
  }

  /** Confirmed history is permanent: a run gives up the incident, its first detection, its confirmation
      or its place among the confirmed states exactly when it holds a successful cancel, then a successful
      manual reset, then a relevant frame that the resolved engine takes as a new incident. */
  lemma ConfirmedHistoryIsPermanent(t: Thresholds, s: State, calls: seq<Call>)
    requires Consistent(s) && s.snapshot.wasConfirmed && s.snapshot.response != Cancelled
    ensures SameConfirmed(s, Run(t, s, calls)) <==> !EverReopened(t, s, calls)
  {
    PermanentUntilReopened(t, s, calls);
    if EverReopened(t, s, calls) {
      var i, j, k :| ReopenedAt(t, s, calls, i, j, k);
      ReopenedIsNewer(t, s, calls, k);
      assert calls[..|calls|] == calls;
      AlwaysConsistent(t, s, calls);
    }
  }

  /** The signature counts as lost after a frame exactly when the incident is confirmed and the frame,
      not relevant itself, ends the grace period or finds it lost already; an unconfirmed incident is
      cleared then instead. */
  lemma SignatureLostExactly(t: Thresholds, s: State, f: Frame)
    requires Consistent(s) && Admits(s, f)
    ensures var e := Process(t, s, f);
            var gone := !Relevant(t, f) && s.lastRelevant != 0 && Elapsed(f.time, s.lastRelevant) >= t.clearGrace;
            && (e.snapshot.hazard == VisualSignatureLost <==>
                  e.snapshot.wasConfirmed && !Relevant(t, f) && (gone || s.snapshot.hazard == VisualSignatureLost))
            && (gone && !e.snapshot.wasConfirmed ==> e.snapshot.hazard == Clear)
            && (Relevant(t, f) && s.snapshot.hazard == VisualSignatureLost ==> e.snapshot.hazard == Confirmed)
  {
  }

  // ---------------------------------------------------------------- what the engine has seen

  predicate AdmitsCall(s: State, c: Call) {
    c.SeeFrame? && Admits(s, c.frame)
  }

  /** Every frame that ever entered the window. */
  function Seen(t: Thresholds, calls: seq<Call>): seq<Frame> {
    if calls == [] then []
    else
      var front, c := calls[..|calls| - 1], calls[|calls| - 1];
      Seen(t, front) + if AdmitsCall(Run(t, START, front), c) then [c.frame] else []
  }

  /** Those that entered since the last successful manual reset. */
  function Recent(t: Thresholds, calls: seq<Call>): seq<Frame> {
    if calls == [] then []
    else
      var front, c := calls[..|calls| - 1], calls[|calls| - 1];
      var s := Run(t, START, front);
      if c == ResetCall && Resets(s) then []
      else Recent(t, front) + if AdmitsCall(s, c) then [c.frame] else []
  }

  lemma OtherCallsKeepWindow(t: Thresholds, s: State, c: Call)
    requires !AdmitsCall(s, c)
    ensures Step(t, s, c).window == if c == ResetCall && Resets(s) then [] else s.window
    ensures Step(t, s, c).highFireStart == s.highFireStart
    ensures Step(t, s, c).snapshot.incident == s.snapshot.incident
    ensures Step(t, s, c).snapshot.hazard == Verifying ==> s.snapshot.hazard == Verifying
  {
  }

  /** The window is exactly the last frames seen since the last reset. */
  lemma {:induction false} WindowIsRecent(t: Thresholds, calls: seq<Call>)
    ensures Run(t, START, calls).window == Folds.LastOf(Recent(t, calls), t.windowFrames)
    ensures forall i :: 0 <= i < |Recent(t, calls)| ==> Recent(t, calls)[i].time != 0
  {
    if calls != [] {
      var front, c := calls[..|calls| - 1], calls[|calls| - 1];
      WindowIsRecent(t, front);
      var s := Run(t, START, front);
      if AdmitsCall(s, c) {
        FrameEffect(t, s, c.frame);
        Folds.LastOfPushed(Recent(t, front), c.frame, t.windowFrames);
      } else {
        OtherCallsKeepWindow(t, s, c);
      }
    }
  }

  /** From its j-th frame on, everything seen was relevant with high fire confidence. */
  predicate HighFireSince(t: Thresholds, seen: seq<Frame>, j: nat) {
    j < |seen| && forall i :: j <= i < |seen| ==> HighFire(t, seen[i])
  }

  /** Where, among the frames seen, the one stands that opened the current incident. */
  function Opening(t: Thresholds, calls: seq<Call>): nat {
    if calls == [] then 0
    else
      var front, c := calls[..|calls| - 1], calls[|calls| - 1];
      if c.SeeFrame? && NewIncident(t, Run(t, START, front), c.frame) then |Seen(t, front)| else Opening(t, front)
  }

  /** The start is set exactly when the last frame seen was one of high fire, and is the time of a
      frame of the current incident since which every frame was. */
  ghost predicate StartsStretch(t: Thresholds, seen: seq<Frame>, opening: nat, start: nat) {
    && (start != 0 <==> seen != [] && HighFire(t, seen[|seen| - 1]))
    && (start != 0 ==> exists j: nat :: HighFireSince(t, seen, j) && opening <= j && seen[j].time == start)
  }

  lemma StretchStep(t: Thresholds, seen: seq<Frame>, opening: nat, start: nat, f: Frame, restart: bool)
    requires StartsStretch(t, seen, opening, start) && opening <= |seen| && f.time != 0
    ensures StartsStretch(t, seen + [f], if restart then |seen| else opening,
                          if !HighFire(t, f) then 0 else if restart || start == 0 then f.time else start)
  {
    var all := seen + [f];
    if HighFire(t, f) && (restart || start == 0) {
      assert HighFireSince(t, all, |seen|);
    } else if HighFire(t, f) {
      var j: nat :| HighFireSince(t, seen, j) && opening <= j && seen[j].time == start;
      assert HighFireSince(t, all, j);
    }
  }

  lemma {:induction false} HighFireStretch(t: Thresholds, calls: seq<Call>)
    ensures Opening(t, calls) <= |Seen(t, calls)|
    ensures StartsStretch(t, Seen(t, calls), Opening(t, calls), Run(t, START, calls).highFireStart)
  {
    if calls != [] {
      var front, c := calls[..|calls| - 1], calls[|calls| - 1];
      HighFireStretch(t, front);
      var s := Run(t, START, front);
      if AdmitsCall(s, c) {
        FrameEffect(t, s, c.frame);
        StretchStep(t, Seen(t, front), Opening(t, front), s.highFireStart, c.frame, NewIncident(t, s, c.frame));
      } else {
        OtherCallsKeepWindow(t, s, c);
        assert Seen(t, calls) == Seen(t, front);
      }
    }
  }

  // ---------------------------------------------------------------- what an incident remembers

  /** The relevant frames since the one that opened the current incident. */
  function OfIncident(t: Thresholds, calls: seq<Call>): seq<Frame> {
    if calls == [] then []
    else
      var front, c := calls[..|calls| - 1], calls[|calls| - 1];
      var s := Run(t, START, front);
      if !AdmitsCall(s, c) || !Relevant(t, c.frame) then OfIncident(t, front)
      else if Opens(s) then [c.frame]
      else OfIncident(t, front) + [c.frame]
  }

  function FireOf(): Frame -> real {
    (f: Frame) => f.fire
  }

  function SmokeOf(): Frame -> real {
    (f: Frame) => f.smoke
  }

  /** The greatest value of a measure over the frames, at least 0. */
  function Peak(measure: Frame -> real, frames: seq<Frame>): real {
    if frames == [] then 0.0 else Max(Peak(measure, frames[..|frames| - 1]), measure(frames[|frames| - 1]))
  }

  /** The time of the first frame whose measure reaches a level, 0 when there is none. */
  function FirstAt(measure: Frame -> real, level: real, frames: seq<Frame>): nat {
    if frames == [] then 0
    else
      var earlier, f := FirstAt(measure, level, frames[..|frames| - 1]), frames[|frames| - 1];
      if earlier == 0 && measure(f) >= level then f.time else earlier
  }

  /** Peaks, first sightings, the opening and the latest frame are those of the incident's frames. */
  ghost predicate Remembers(t: Thresholds, s: State, frames: seq<Frame>) {
    && s.snapshot.peakFire == Peak(FireOf(), frames) && s.snapshot.peakSmoke == Peak(SmokeOf(), frames)
    && s.firstFire == FirstAt(FireOf(), t.suspectedFire, frames)
    && s.firstSmoke == FirstAt(SmokeOf(), t.suspectedSmoke, frames)
    && (frames != [] ==>
          s.lastRelevant == frames[|frames| - 1].time && s.snapshot.currentZone == frames[|frames| - 1].zone)
    && (s.snapshot.incident != 0 ==>
          frames != [] && s.snapshot.firstDetection == frames[0].time && s.snapshot.firstZone == frames[0].zone)
  }

  lemma PeakSnoc(measure: Frame -> real, level: real, frames: seq<Frame>, f: Frame)
    ensures Peak(measure, frames + [f]) == Max(Peak(measure, frames), measure(f))
    ensures FirstAt(measure, level, frames + [f]) ==
            if FirstAt(measure, level, frames) == 0 && measure(f) >= level then f.time
            else FirstAt(measure, level, frames)
  {
    assert (frames + [f])[..|frames|] == frames;
  }

  lemma FrameRemembered(t: Thresholds, s: State, f: Frame)
    requires Admits(s, f) && Relevant(t, f)
    ensures var e := Process(t, s, f);
            var begins := Opens(s);
            && e.snapshot.peakFire == Max(if begins then 0.0 else s.snapshot.peakFire, f.fire)
            && e.snapshot.peakSmoke == Max(if begins then 0.0 else s.snapshot.peakSmoke, f.smoke)
            && e.firstFire == (if f.fire >= t.suspectedFire && (begins || s.firstFire == 0) then f.time
                               else if begins then 0 else s.firstFire)
            && e.firstSmoke == (if f.smoke >= t.suspectedSmoke && (begins || s.firstSmoke == 0) then f.time
                                else if begins then 0 else s.firstSmoke)
            && e.lastRelevant == f.time && e.snapshot.currentZone == f.zone
            && e.snapshot.firstZone == (if begins then f.zone else s.snapshot.firstZone)
  {
  }

  lemma NothingRemembered(t: Thresholds, s: State, c: Call)
    requires !AdmitsCall(s, c) || !Relevant(t, c.frame)
    ensures var e := Step(t, s, c);
            && e.snapshot.peakFire == s.snapshot.peakFire && e.snapshot.peakSmoke == s.snapshot.peakSmoke
            && e.firstFire == s.firstFire && e.firstSmoke == s.firstSmoke && e.lastRelevant == s.lastRelevant
            && e.snapshot.currentZone == s.snapshot.currentZone && e.snapshot.firstZone == s.snapshot.firstZone
            && e.snapshot.incident == s.snapshot.incident && e.snapshot.firstDetection == s.snapshot.firstDetection
  {
  }

  lemma RemembersFrame(t: Thresholds, s: State, f: Frame, frames: seq<Frame>)
    requires Admits(s, f) && Relevant(t, f) && Remembers(t, s, frames)
    ensures Remembers(t, Process(t, s, f), (if Opens(s) then [] else frames) + [f])
  {
    FrameEffect(t, s, f);
    FrameRemembered(t, s, f);
    var before := if Opens(s) then [] else frames;
    PeakSnoc(FireOf(), t.suspectedFire, before, f);
    PeakSnoc(SmokeOf(), t.suspectedSmoke, before, f);
  }

  /** What the engine remembers of an incident is a function of the incident's own relevant frames. */
  lemma {:induction false} RemembersIncident(t: Thresholds, calls: seq<Call>)
    ensures Remembers(t, Run(t, START, calls), OfIncident(t, calls))
  {
    if calls != [] {
      var front, c := calls[..|calls| - 1], calls[|calls| - 1];
      RemembersIncident(t, front);
      var s := Run(t, START, front);
      if !AdmitsCall(s, c) || !Relevant(t, c.frame) {
        NothingRemembered(t, s, c);
      } else {
        RemembersFrame(t, s, c.frame, OfIncident(t, front));
        assert [] + [c.frame] == [c.frame];
      }
    }
  }

  lemma ReportsOrder(t: Thresholds, s: State, f: Frame)
    requires Admits(s, f)
    ensures var e := Process(t, s, f);
            && (e.snapshot.smokeFirstKnown <==>
                  e.firstSmoke != 0 && e.firstFire != 0 &&
                  Seconds(Difference(e.firstSmoke, e.firstFire)) > t.timingUncertainty)
            && (e.snapshot.smokeFirstKnown ==>
                  (e.snapshot.smokeFirst <==> e.firstSmoke < e.firstFire) &&
                  e.snapshot.smokeToFireDelay == Seconds(Difference(e.firstSmoke, e.firstFire)))
  {
  }

  /** After an admitted frame the order of smoke and fire is reported exactly when both were sighted in
      this incident further apart than the uncertainty, and then it is their true order. */
  lemma OrderIsReal(t: Thresholds, calls: seq<Call>, f: Frame)
    requires Admits(Run(t, START, calls), f)
    ensures var all := calls + [SeeFrame(f)];
            var sn := Run(t, START, all).snapshot;
            var fire := FirstAt(FireOf(), t.suspectedFire, OfIncident(t, all));
            var smoke := FirstAt(SmokeOf(), t.suspectedSmoke, OfIncident(t, all));
            && (sn.smokeFirstKnown <==>
                  smoke != 0 && fire != 0 && Seconds(Difference(smoke, fire)) > t.timingUncertainty)
            && (sn.smokeFirstKnown ==>
                  (sn.smokeFirst <==> smoke < fire) && sn.smokeToFireDelay == Seconds(Difference(smoke, fire)))
  {
    var all := calls + [SeeFrame(f)];
    RunStep(t, START, calls, SeeFrame(f));
    RemembersIncident(t, all);
    ReportsOrder(t, Run(t, START, calls), f);
  }

  // ---------------------------------------------------------------- confirmation is sound

  /** After its first k calls the run had just admitted a frame, belonged to this incident, and
      enough of the last frames seen were relevant. */
  predicate PersistentAt(t: Thresholds, calls: seq<Call>, incident: nat, k: nat) {
    && 0 < k <= |calls|
    && AdmitsCall(Run(t, START, calls[..k - 1]), calls[k - 1])
    && Run(t, START, calls[..k]).snapshot.incident == incident
    && Persistence(t, Folds.LastOf(Recent(t, calls[..k]), t.windowFrames)) >= t.requiredFrames
  }

  lemma PersistentEarlier(t: Thresholds, calls: seq<Call>, c: Call, incident: nat, k: nat)
    requires PersistentAt(t, calls, incident, k)
    ensures PersistentAt(t, calls + [c], incident, k)
  {
    assert (calls + [c])[..k] == calls[..k] && (calls + [c])[..k - 1] == calls[..k - 1];
  }

  lemma PersistentNow(t: Thresholds, front: seq<Call>, f: Frame)
    requires Admits(Run(t, START, front), f)
    requires Persistence(t, Process(t, Run(t, START, front), f).window) >= t.requiredFrames
    ensures PersistentAt(t, front + [SeeFrame(f)],
                         Process(t, Run(t, START, front), f).snapshot.incident, |front| + 1)
  {
    var calls := front + [SeeFrame(f)];
    assert calls[..|front| + 1] == calls && calls[..|front|] == front;
    WindowIsRecent(t, calls);
  }

  /** A verifying incident had its persistence at some earlier frame of the same incident. */
  lemma {:induction false} VerifyingWasPersistent(t: Thresholds, calls: seq<Call>)
    requires Run(t, START, calls).snapshot.hazard == Verifying
    ensures exists k :: PersistentAt(t, calls, Run(t, START, calls).snapshot.incident, k)
  {
    if calls != [] {
      var front, c := calls[..|calls| - 1], calls[|calls| - 1];
      assert calls == front + [c];
      var s := Run(t, START, front);
      AlwaysConsistent(t, START, front);
      if AdmitsCall(s, c) {
        FrameEffect(t, s, c.frame);
        FrameConfirms(t, s, c.frame);
        if Persistence(t, Step(t, s, c).window) >= t.requiredFrames {
          PersistentNow(t, front, c.frame);
        } else {
          VerifyingWasPersistent(t, front);
          var k :| PersistentAt(t, front, s.snapshot.incident, k);
          PersistentEarlier(t, front, c, s.snapshot.incident, k);
        }
      } else {
        OtherCallsKeepWindow(t, s, c);
        VerifyingWasPersistent(t, front);
        var k :| PersistentAt(t, front, s.snapshot.incident, k);
        PersistentEarlier(t, front, c, s.snapshot.incident, k);
      }
    }
  }

  /** High fire for long enough, in every frame seen since one of the current incident. */
  ghost predicate HighFireRule(t: Thresholds, seen: seq<Frame>, opening: nat, now: nat) {
    exists j: nat :: HighFireSince(t, seen, j) && opening <= j && Elapsed(now, seen[j].time) >= t.fireDuration
  }

  /** Visible for long enough since the first detection, and persistent. */
  predicate VisibleRule(t: Thresholds, window: seq<Frame>, firstDetection: nat, now: nat) {
    && firstDetection != 0 && Elapsed(now, firstDetection) >= t.visibleDuration
    && Persistence(t, window) >= t.requiredFrames
  }

  /** Fire with smoke in enough frames of the window, the first of them a second ago. */
  ghost predicate BothRule(t: Thresholds, window: seq<Frame>, now: nat) {
    && CoOccurrences(t, window) >= t.requiredFrames
    && exists i :: 0 <= i < |window| && FireAndSmoke(t, window[i]) && Elapsed(now, window[i].time) >= SECOND &&
                   forall j :: 0 <= j < i ==> !FireAndSmoke(t, window[j])
  }

  /** Frame `i` holds the first qualifying region of the window and frame `j` one that exceeds it by the
      required part. */
  predicate Outgrows(t: Thresholds, window: seq<Frame>, now: nat, i: nat, j: nat) {
    && i < |window| && j < |window| && Qualifies(t, now, window[i]) && Qualifies(t, now, window[j])
    && Areas(t, now, window[..i]) == []
    && BoxArea(window[j].fireBox) >= (1.0 + t.growthPercent / 100.0) * BoxArea(window[i].fireBox)
  }

  ghost predicate GrowthRule(t: Thresholds, window: seq<Frame>, now: nat) {
    exists i, j :: Outgrows(t, window, now, i, j)
  }

  lemma FramesOutgrow(t: Thresholds, window: seq<Frame>, now: nat, k: nat)
    requires var areas := Areas(t, now, window);
             k < |areas| && areas[k] >= (1.0 + t.growthPercent / 100.0) * areas[0]
    ensures GrowthRule(t, window, now)
  {
    var i := AreaHasFrame(t, now, window, 0);
    var j := AreaHasFrame(t, now, window, k);
    assert Outgrows(t, window, now, i, j);
  }

  lemma GrowthHasFrames(t: Thresholds, window: seq<Frame>, now: nat)
    requires Growing(t, Areas(t, now, window))
    ensures GrowthRule(t, window, now)
  {
    var k := GrowthIsReal(t, Areas(t, now, window));
    FramesOutgrow(t, window, now, k);
  }

  lemma GrowthReported(t: Thresholds, s: State, f: Frame)
    requires Admits(s, f)
    ensures var e := Process(t, s, f);
            var areas := Areas(t, f.time, e.window);
            && (e.snapshot.growthStable <==> Growing(t, areas))
            && e.snapshot.growth == (if Growing(t, areas) then Percent(Average(areas), areas[0]) else 0.0)
  {
  }

  lemma BothLastedMeans(t: Thresholds, s: State, now: nat)
    requires BothLasted(t, s, now) && forall i :: 0 <= i < |s.window| ==> s.window[i].time != 0
    ensures BothRule(t, s.window, now)
  {
    FirstCoOccurrenceFound(t, s.window);
  }

  /** Confirmation is sound: when a frame flips an incident to confirmed, then at this or an earlier
      frame of the same incident enough of the last frames seen were relevant, and one of the four
      rules holds now, each read off the frames themselves. */
  lemma ConfirmationIsSound(t: Thresholds, calls: seq<Call>, f: Frame)
    requires Flips(Run(t, START, calls), Run(t, START, calls + [SeeFrame(f)]))
    ensures var all := calls + [SeeFrame(f)];
            var e := Run(t, START, all);
            && Admits(Run(t, START, calls), f)
            && (exists k :: PersistentAt(t, all, e.snapshot.incident, k))
            && SomeRule(t, Seen(t, all), Opening(t, all), Folds.LastOf(Recent(t, all), t.windowFrames),
                        e.snapshot.firstDetection, f.time)
  {
    var all := calls + [SeeFrame(f)];
    var s := Run(t, START, calls);
    RunStep(t, START, calls, SeeFrame(f));
    var e := Process(t, s, f);
    AlwaysConsistent(t, START, calls);
    assert Admits(s, f);
    FrameConfirms(t, s, f);
    WindowIsRecent(t, all);
    HighFireStretch(t, all);
    GrowthIsBounded(t, s, f);
    RuleMeans(t, e, Seen(t, all), Opening(t, all), f.time);
    FlipWasPersistent(t, calls, f);
  }

  lemma FlipWasPersistent(t: Thresholds, calls: seq<Call>, f: Frame)
    requires var s := Run(t, START, calls); Admits(s, f) && Consistent(s) && Flips(s, Process(t, s, f))
    ensures exists k :: PersistentAt(t, calls + [SeeFrame(f)], Process(t, Run(t, START, calls), f).snapshot.incident, k)
  {
    var s := Run(t, START, calls);
    FrameConfirms(t, s, f);
    if Persistence(t, Process(t, s, f).window) >= t.requiredFrames {
      PersistentNow(t, calls, f);
    } else {
      FrameEffect(t, s, f);
      VerifyingWasPersistent(t, calls);
      var k :| PersistentAt(t, calls, s.snapshot.incident, k);
      PersistentEarlier(t, calls, SeeFrame(f), s.snapshot.incident, k);
    }
  }

  /** One of the four confirmation rules, read off the frames. */
  ghost predicate SomeRule(
    t: Thresholds, seen: seq<Frame>, opening: nat, window: seq<Frame>, firstDetection: nat, now: nat)
  {
    || HighFireRule(t, seen, opening, now)
    || VisibleRule(t, window, firstDetection, now)
    || BothRule(t, window, now)
    || GrowthRule(t, window, now)
  }

  lemma RuleMeans(t: Thresholds, e: State, seen: seq<Frame>, opening: nat, now: nat)
    requires RuleMet(t, e, now) && StartsStretch(t, seen, opening, e.highFireStart)
    requires forall i :: 0 <= i < |e.window| ==> e.window[i].time != 0
    requires e.snapshot.growthStable ==> GrowthRule(t, e.window, now)
    ensures SomeRule(t, seen, opening, e.window, e.snapshot.firstDetection, now)
  {
    if HighFireLasted(t, e, now) {
      var j: nat :| HighFireSince(t, seen, j) && opening <= j && seen[j].time == e.highFireStart;
      assert HighFireRule(t, seen, opening, now);
    } else if BothLasted(t, e, now) {
      BothLastedMeans(t, e, now);
    }
  }

  /** After every frame the engine admits, the growth it reports is witnessed by the regions in the
      window and bounded by the least region that counts. */
  lemma GrowthIsBounded(t: Thresholds, s: State, f: Frame)
    requires Admits(s, f)
    ensures var e := Process(t, s, f);
            && (e.snapshot.growthStable ==> GrowthRule(t, e.window, f.time) && e.snapshot.growth >= t.growthPercent)
            && (t.growthArea > 0.0 && e.snapshot.growthStable ==>
                  e.snapshot.growth <= 100.0 * (1.0 / t.growthArea - 1.0))
  {
    var e := Process(t, s, f);
    var areas := Areas(t, f.time, e.window);
    GrowthReported(t, s, f);
    AreasQualify(t, f.time, e.window);
    if e.snapshot.growthStable {
      GrowthHasFrames(t, e.window, f.time);
      GrowthBounded(t, areas);
    }
  }
}
