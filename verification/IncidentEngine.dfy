/** The incident engine in the form the edge program has it: an object whose calls update its fields. */
module IncidentEngine {
  import opened Clock
  import Folds
  import opened Geometry
  import opened Incident

  class Engine {
    const thresholds: Thresholds
    var counter: nat
    var snapshot: Snapshot
    var window: seq<Frame>
    var lastSequence: nat
    var lastRelevant: nat
    var firstFire: nat
    var firstSmoke: nat
    var highFireStart: nat
    var degraded: bool

    ghost function View(): State
      reads this
    {
      State(counter, snapshot, window, lastSequence, lastRelevant, firstFire, firstSmoke, highFireStart, degraded)
    }

    constructor (thresholds: Thresholds)
      ensures View() == START && this.thresholds == thresholds
    {
      this.thresholds := thresholds;
      counter, snapshot, window := 0, NO_INCIDENT, [];
      lastSequence, lastRelevant, firstFire, firstSmoke, highFireStart, degraded := 0, 0, 0, 0, 0, false;
    }

    method PersistenceCount() returns (count: nat)
      ensures count == Persistence(thresholds, window)
    {
      count := 0;
      var i := 0;
      while i < |window|
        invariant i <= |window| && count == Persistence(thresholds, window[..i])
      {
        TallyStep(thresholds, 0, window, i);
        if Relevant(thresholds, window[i]) {
          count := count + 1;
        }
        i := i + 1;
      }
      assert window[..i] == window;
    }

    method BeginIncident(f: Frame)
      modifies this
      ensures View() == Begin(old(View()), f)
    {
      counter := counter + 1;
      snapshot := NO_INCIDENT.(incident := counter, hazard := Suspected, response := Idle, firstDetection := f.time,
                               updated := f.time, firstZone := f.zone, currentZone := f.zone);
      firstFire := 0;
      firstSmoke := 0;
      highFireStart := 0;
    }

    method ConfirmationRuleMet(now: nat) returns (met: bool)
      ensures met == RuleMet(thresholds, View(), now)
    {
      var persistence := PersistenceCount();
      var highFire := highFireStart != 0 && Elapsed(now, highFireStart) >= thresholds.fireDuration;
      var visible := snapshot.firstDetection != 0 &&
        Elapsed(now, snapshot.firstDetection) >= thresholds.visibleDuration &&
        persistence >= thresholds.requiredFrames;
      var both: nat, first: nat := 0, 0;
      var i := 0;
      while i < |window|
        invariant i <= |window| && both == CoOccurrences(thresholds, window[..i])
        invariant first == FirstCoOccurrence(thresholds, window[..i])
      {
        TallyStep(thresholds, now, window, i);
        var frame := window[i];
        if frame.fire >= thresholds.suspectedFire && frame.smoke >= thresholds.suspectedSmoke {
          both := both + 1;
          if first == 0 {
            first := frame.time;
          }
        }
        i := i + 1;
      }
      assert window[..i] == window;
      var fireAndSmoke := both >= thresholds.requiredFrames && first != 0 && Elapsed(now, first) >= SECOND;
      met := highFire || visible || fireAndSmoke || snapshot.growthStable;
    }

    /** Whether one frame of the window takes part in the growth estimate, and with what area. */
    method Qualify(now: nat, i: nat) returns (counts: bool, area: real)
      requires i < |window|
      ensures Areas(thresholds, now, window[..i + 1]) ==
              Areas(thresholds, now, window[..i]) + if counts then [area] else []
      ensures counts ==> area > 0.0
    {
      TallyStep(thresholds, now, window, i);
      var frame := window[i];
      AreaOfUnitBox(frame.fireBox);
      area := BoxArea(frame.fireBox);
      if !ValidBox(frame.fireBox) || area < thresholds.growthArea {
        return false, area;
      }
      if Elapsed(now, frame.time) > thresholds.growthWindow {
        return false, area;
      }
      counts := true;
    }

    /** The scan over the window, with its five accumulators. */
    method ScanGrowth(now: nat) returns (baseline: real, recent: real, count: nat, rises: nat)
      ensures var areas := Areas(thresholds, now, window);
              && count == |areas| && recent == Average(areas) && rises == Rises(areas)
              && baseline == (if areas == [] then 0.0 else areas[0])
    {
      baseline, recent, count, rises := 0.0, 0.0, 0, 0;
      var previous := 0.0;
      ghost var areas := [];
      var i := 0;
      while i < |window|
        invariant i <= |window| && areas == Areas(thresholds, now, window[..i])
        invariant count == |areas| && recent == Average(areas) && rises == Rises(areas)
        invariant if areas == [] then baseline == previous == 0.0
                  else baseline == areas[0] > 0.0 && previous == areas[|areas| - 1] > 0.0
      {
        var counts, area := Qualify(now, i);
        if counts {
          AddArea(areas, area);
          if baseline == 0.0 {
            baseline := area;
          }
          recent := if count == 0 then area else 0.35 * area + 0.65 * recent;
          if previous > 0.0 && area > previous {
            rises := rises + 1;
          }
          previous := area;
          count := count + 1;
          areas := areas + [area];
        }
        i := i + 1;
      }
      assert window[..i] == window;
    }

    method UpdateGrowth(now: nat)
      modifies this`snapshot
      ensures snapshot == Grown(thresholds, Areas(thresholds, now, window), old(snapshot))
    {
      AreasQualify(thresholds, now, window);
      var baseline, recent, count, rises := ScanGrowth(now);
      snapshot := snapshot.(growthStable := false, growth := 0.0);
      if count >= 4 && baseline >= thresholds.growthArea {
        var growth := Percent(recent, baseline);
        if growth >= thresholds.growthPercent && rises >= 2 {
          snapshot := snapshot.(growthStable := true, growth := growth);
        }
      }
    }

    method UpdateSequenceObservation()
      modifies this`snapshot
      ensures snapshot == Ordered(thresholds, firstSmoke, firstFire, old(snapshot))
    {
      snapshot := snapshot.(smokeFirstKnown := false);
      if firstSmoke == 0 || firstFire == 0 {
        return;
      }
      var difference := Seconds(if firstSmoke > firstFire then firstSmoke - firstFire else firstFire - firstSmoke);
      if difference <= thresholds.timingUncertainty {
        return;
      }
      snapshot := snapshot.(smokeFirstKnown := true, smokeFirst := firstSmoke < firstFire,
                            smokeToFireDelay := difference);
    }

    method ConfirmVisual(now: nat)
      modifies this`snapshot
      ensures snapshot ==
              old(snapshot).(hazard := Confirmed, response := AwaitingResponse, wasConfirmed := true, updated := now)
    {
      snapshot := snapshot.(hazard := Confirmed);
      snapshot := snapshot.(response := AwaitingResponse);
      snapshot := snapshot.(wasConfirmed := true);
      snapshot := snapshot.(updated := now);
    }

    /** The window takes the frame in and drops its oldest ones. */
    method Admit(f: Frame)
      modifies this`window, this`lastSequence
      ensures View() == Admitted(thresholds, old(View()), f)
    {
      lastSequence := f.sequence;
      ghost var all := window + [f];
      window := window + [f];
      ghost var dropped := 0;
      while |window| > thresholds.windowFrames
        invariant dropped <= |all| && window == all[dropped..] && lastSequence == f.sequence
        invariant dropped > 0 ==> |window| >= thresholds.windowFrames
      {
        window := window[1..];
        dropped := dropped + 1;
      }
      assert window == Folds.LastOf(all, thresholds.windowFrames);
    }

    method Note(f: Frame)
      modifies this
      ensures View() == Noted(thresholds, old(View()), f)
    {
      lastRelevant := f.time;
      snapshot := snapshot.(peakFire := Max(snapshot.peakFire, f.fire), peakSmoke := Max(snapshot.peakSmoke, f.smoke),
                            currentZone := f.zone);
      if f.fire >= thresholds.suspectedFire && firstFire == 0 {
        firstFire := f.time;
      }
      if f.smoke >= thresholds.suspectedSmoke && firstSmoke == 0 {
        firstSmoke := f.time;
      }
      if f.fire >= thresholds.confirmedFire {
        if highFireStart == 0 {
          highFireStart := f.time;
        }
      } else {
        highFireStart := 0;
      }
    }

    method Track(f: Frame)
      modifies this
      ensures View() == Tracked(thresholds, old(View()), f)
    {
      if Relevant(thresholds, f) {
        if snapshot.hazard == Clear || snapshot.hazard == Resolved {
          BeginIncident(f);
        }
        Note(f);
      } else {
        highFireStart := 0;
      }
      if snapshot.firstDetection != 0 {
        snapshot := snapshot.(updated := f.time,
                              secondsPersistent := Seconds(Elapsed(f.time, snapshot.firstDetection)));
      }
    }

    method Watch()
      modifies this`snapshot
      ensures View() == Watched(thresholds, old(View()))
    {
      var persistence := PersistenceCount();
      if !snapshot.wasConfirmed && persistence >= thresholds.requiredFrames {
        snapshot := snapshot.(hazard := Verifying);
      }
    }

    method Judge(now: nat)
      modifies this`snapshot
      ensures View() == Judged(thresholds, Measured(thresholds, old(View()), now), now)
    {
      UpdateGrowth(now);
      UpdateSequenceObservation();
      if !snapshot.wasConfirmed && snapshot.hazard == Verifying {
        var met := ConfirmationRuleMet(now);
        if met {
          ConfirmVisual(now);
        }
      }
    }

    method Settle(f: Frame)
      modifies this`snapshot
      ensures View() == Settled(thresholds, old(View()), f)
    {
      var relevant := Relevant(thresholds, f);
      if !relevant && lastRelevant != 0 && Elapsed(f.time, lastRelevant) >= thresholds.clearGrace {
        if snapshot.wasConfirmed {
          snapshot := snapshot.(hazard := VisualSignatureLost);
        } else {
          snapshot := snapshot.(hazard := Clear, response := Idle);
        }
      } else if relevant && snapshot.wasConfirmed && snapshot.hazard == VisualSignatureLost {
        snapshot := snapshot.(hazard := Confirmed);
      }
    }

    method Process(f: Frame) returns (result: Snapshot)
      modifies this
      ensures View() == Incident.Process(thresholds, old(View()), f) && result == snapshot
    {
      if f.sequence <= lastSequence || f.time == 0 {
        return snapshot;
      }
      if degraded {
        lastSequence := f.sequence;
        snapshot := snapshot.(hazard := Degraded, updated := f.time);
        return snapshot;
      }
      Admit(f);
      Track(f);
      Watch();
      Judge(f.time);
      Settle(f);
      return snapshot;
    }

    method Cancel() returns (done: bool)
      modifies this`snapshot
      ensures View() == Incident.Cancel(old(View())) && done == Cancels(old(View()))
    {
      if !snapshot.wasConfirmed || snapshot.response == CallConnected || snapshot.response == CallCompleted {
        return false;
      }
      snapshot := snapshot.(response := Cancelled);
      return true;
    }

    method ConfirmOccupant() returns (done: bool)
      modifies this`snapshot
      ensures View() == Incident.ConfirmOccupant(old(View())) && done == Escalates(old(View()))
    {
      if !snapshot.wasConfirmed || snapshot.response == Cancelled {
        return false;
      }
      snapshot := snapshot.(response := Escalating);
      return true;
    }

    method ManualReset() returns (done: bool)
      modifies this`snapshot, this`window
      ensures View() == Incident.ManualReset(old(View())) && done == Resets(old(View()))
    {
      if snapshot.response != Cancelled && snapshot.response != CallCompleted && snapshot.response != CallFailed {
        return false;
      }
      snapshot := snapshot.(hazard := Resolved);
      window := [];
      return true;
    }

    method SetDegraded(on: bool)
      modifies this`snapshot, this`degraded
      ensures View() == Incident.SetDegraded(old(View()), on)
    {
      degraded := on;
      if on {
        snapshot := snapshot.(hazard := Degraded);
      } else if snapshot.wasConfirmed {
        snapshot := snapshot.(hazard := Confirmed);
      } else {
        snapshot := snapshot.(hazard := Clear);
      }
    }
  }

  lemma AddArea(areas: seq<real>, area: real)
    ensures var more := areas + [area];
            && Average(more) == (if areas == [] then area else 0.35 * area + 0.65 * Average(areas))
            && Rises(more) == Rises(areas) + if areas != [] && area > areas[|areas| - 1] then 1 else 0
  {
    assert (areas + [area])[..|areas|] == areas;
  }
}
