/** When a cancelled incident stays cancelled. */
module Cancellation {
  import Incident
  import opened Database
  import opened CallPolicy
  import opened CallRuns
  import opened Wrappers

  predicate IsCancelled(t: Tables, id: string) {
    id in t.incidents && t.incidents[id].response == Incident.Cancelled
  }

  /** The provider's late answer to a call of the incident, or a callback about one. */
  predicate EndsCancellation(c: Settings, w: World, s: Step, id: string) {
    || (s.Outcome? && CanResolve(w, s.attempt, s.status) && w.tables.attempts[s.attempt].incident == id)
    || (s.Webhook? && s.id == id && CanReport(c, w, id, s.status))
  }

  /** One step ends a cancellation exactly when it is one of these two results. */
  lemma StepCancelled(c: Settings, w: World, s: Step, id: string)
    requires IsCancelled(w.tables, id)
    ensures IsCancelled(Next(c, w, s).tables, id) <==> !EndsCancellation(c, w, s, id)
  {
  }

  lemma CancelledOnward(c: Settings, steps: seq<Step>, k: nat, id: string)
    requires k < |steps| && IsCancelled(Run(c, steps[..k]).tables, id)
    ensures IsCancelled(Run(c, steps[..k + 1]).tables, id) <==>
            !EndsCancellation(c, Run(c, steps[..k]), steps[k], id)
  {
    StepCancelled(c, Run(c, steps[..k]), steps[k], id);
    RunStep(c, steps, k);
  }

  /** No step from the i-th to before the j-th ends the cancellation. */
  ghost predicate NothingEnds(c: Settings, steps: seq<Step>, i: nat, j: nat, id: string)
    requires j <= |steps|
  {
    forall k {:trigger EndsCancellation(c, Run(c, steps[..k]), steps[k], id)} ::
      i <= k < j ==> !EndsCancellation(c, Run(c, steps[..k]), steps[k], id)
  }

  lemma {:induction false} CancelledUpTo(c: Settings, steps: seq<Step>, i: nat, j: nat, id: string)
    requires i <= j <= |steps| && IsCancelled(Run(c, steps[..i]).tables, id)
    requires NothingEnds(c, steps, i, j, id)
    ensures IsCancelled(Run(c, steps[..j]).tables, id)
  {
    if i < j {
      CancelledUpTo(c, steps, i, j - 1, id);
      CancelledOnward(c, steps, j - 1, id);
    }
  }

  ghost predicate CancelledThroughout(c: Settings, steps: seq<Step>, i: nat, id: string) {
    forall j :: i <= j <= |steps| ==> IsCancelled(Run(c, steps[..j]).tables, id)
  }

  /** A cancelled incident stays cancelled through the rest of a run exactly when no provider result
      about one of its calls arrives. */
  lemma CancellationHoldsExactly(c: Settings, steps: seq<Step>, i: nat, id: string)
    requires i <= |steps| && IsCancelled(Run(c, steps[..i]).tables, id)
    ensures CancelledThroughout(c, steps, i, id) <==> NothingEnds(c, steps, i, |steps|, id)
  {
    if NothingEnds(c, steps, i, |steps|, id) {
      forall j | i <= j <= |steps| ensures IsCancelled(Run(c, steps[..j]).tables, id) {
        CancelledUpTo(c, steps, i, j, id);
      }
    }
    if CancelledThroughout(c, steps, i, id) {
      forall k | i <= k < |steps| ensures !EndsCancellation(c, Run(c, steps[..k]), steps[k], id) {
        assert IsCancelled(Run(c, steps[..k]).tables, id) && IsCancelled(Run(c, steps[..k + 1]).tables, id);
        CancelledOnward(c, steps, k, id);
      }
    }
  }

  predicate WasCalled(t: Tables, id: string) {
    LastAttempt(t.attempts, id) < |t.attempts|
  }

  /** The provider may still answer a request about a call of the incident. */
  predicate Expected(w: World, id: string) {
    exists a :: a in w.inFlight && a < |w.tables.attempts| && w.tables.attempts[a].incident == id
  }

  /** Something can still be heard of a call of the incident. */
  predicate CanEndCancellation(c: Settings, w: World, id: string) {
    (c.webhooks && WasCalled(w.tables, id)) || Expected(w, id)
  }

  ghost predicate InFlightKnown(w: World) {
    forall a :: a in w.inFlight ==> a < |w.tables.attempts|
  }

  lemma CallCallsOther(c: Settings, w: World, called: string, now: int, id: string)
    requires InFlightKnown(w) && IsCancelled(w.tables, id) && !CanEndCancellation(c, w, id)
    ensures !CanEndCancellation(c, Called(c, w, called, now), id)
  {
    if Places(c, w.tables, called, now) {
      PlacesMeans(c, w.tables, called, now);
    }
  }

  lemma StepKeepsKnown(c: Settings, w: World, s: Step)
    requires InFlightKnown(w)
    ensures InFlightKnown(Next(c, w, s))
  {
  }

  lemma {:induction false} AlwaysKnown(c: Settings, steps: seq<Step>)
    ensures InFlightKnown(Run(c, steps))
  {
    if steps != [] {
      AlwaysKnown(c, steps[..|steps| - 1]);
      StepKeepsKnown(c, Run(c, steps[..|steps| - 1]), steps[|steps| - 1]);
    }
  }

  lemma StepEndsNothing(c: Settings, w: World, s: Step, id: string)
    requires InFlightKnown(w) && IsCancelled(w.tables, id) && !CanEndCancellation(c, w, id)
    ensures IsCancelled(Next(c, w, s).tables, id) && !CanEndCancellation(c, Next(c, w, s), id)
  {
    StepCancelled(c, w, s, id);
    match s
    case Dispatch(i, now) => CallCallsOther(c, w, i, now, id);
    case TimerCall(timer, now) =>
      if timer < |w.timers| && w.timers[timer].Escalated? {
        CallCallsOther(c, w, w.timers[timer].incident, now, id);
      }
    case _ =>
  }

  lemma {:induction false} NeverEnded(c: Settings, steps: seq<Step>, more: seq<Step>, id: string)
    requires IsCancelled(Run(c, steps).tables, id) && !CanEndCancellation(c, Run(c, steps), id)
    ensures IsCancelled(Run(c, steps + more).tables, id) && !CanEndCancellation(c, Run(c, steps + more), id)
  {
    if more == [] {
      assert steps + more == steps;
    } else {
      var front, s := more[..|more| - 1], more[|more| - 1];
      NeverEnded(c, steps, front, id);
      assert steps + more == (steps + front) + [s];
      RunSnoc(c, steps + front, s);
      AlwaysKnown(c, steps + front);
      StepEndsNothing(c, Run(c, steps + front), s, id);
    }
  }

  ghost predicate CancelledForever(c: Settings, steps: seq<Step>, id: string) {
    forall more :: IsCancelled(Run(c, steps + more).tables, id)
  }

  lemma SomethingEnds(c: Settings, w: World, id: string) returns (s: Step)
    requires IsCancelled(w.tables, id) && CanEndCancellation(c, w, id)
    ensures !IsCancelled(Next(c, w, s).tables, id)
  {
    if c.webhooks && WasCalled(w.tables, id) {
      s := Webhook(id, FAILED);
    } else {
      var a: nat :| a in w.inFlight && a < |w.tables.attempts| && w.tables.attempts[a].incident == id;
      s := Outcome(a, INITIATED);
    }
    StepCancelled(c, w, s, id);
  }

  /** A cancellation is final, whatever follows, exactly when nothing can be heard of a call of the
      incident any more: no callback, for want of a call or of a secret, and no answer to a request. */
  lemma CancellationIsFinalExactly(c: Settings, steps: seq<Step>, id: string)
    requires IsCancelled(Run(c, steps).tables, id)
    ensures CancelledForever(c, steps, id) <==> !CanEndCancellation(c, Run(c, steps), id)
  {
    if CanEndCancellation(c, Run(c, steps), id) {
      var s := SomethingEnds(c, Run(c, steps), id);
      RunSnoc(c, steps, s);
      assert !IsCancelled(Run(c, steps + [s]).tables, id);
    } else {
      forall more ensures IsCancelled(Run(c, steps + more).tables, id) {
        NeverEnded(c, steps, more, id);
      }
    }
  }

  /** An answer to some other request than that of the task which the cancel stops. */
  predicate ExpectedElsewhere(w: World, id: string) {
    exists a :: a in w.inFlight && a !in Abandoned(w, id) && a < |w.tables.attempts| &&
                w.tables.attempts[a].incident == id
  }

  /** Seen from before the cancel: it is final exactly when no callback can come and no request about
      the incident is under way but that of the timeout task, which the cancel interrupts. */
  lemma CancelIsFinalExactly(c: Settings, steps: seq<Step>, id: string, reason: string, voice: bool, now: int)
    requires CanCancel(Run(c, steps).tables, id)
    ensures CancelledForever(c, steps + [Cancel(id, reason, voice, now)], id) <==>
            !(c.webhooks && WasCalled(Run(c, steps).tables, id)) && !ExpectedElsewhere(Run(c, steps), id)
  {
    var w, s := Run(c, steps), Cancel(id, reason, voice, now);
    RunSnoc(c, steps, s);
    CancellationIsFinalExactly(c, steps + [s], id);
    CancelLeaves(c, w, id, reason, voice, now);
  }

  lemma CancelLeaves(c: Settings, w: World, id: string, reason: string, voice: bool, now: int)
    requires CanCancel(w.tables, id)
    ensures var e := Next(c, w, Cancel(id, reason, voice, now));
            && IsCancelled(e.tables, id) && (WasCalled(e.tables, id) <==> WasCalled(w.tables, id))
            && (Expected(e, id) <==> ExpectedElsewhere(w, id))
  {
    var e := Next(c, w, Cancel(id, reason, voice, now));
    assert e.inFlight == w.inFlight - Abandoned(w, id) && e.tables.attempts == w.tables.attempts;
  }

  /** A cancelled incident whose call is still with the provider becomes a call again when it answers,
      unless it is the call of the timeout task, which the cancel stops. */
  lemma CancelledCanStillCall(c: Settings, w: World, attempt: nat, reason: string, now: int)
    requires attempt in w.inFlight && attempt < |w.tables.attempts|
    requires CanCancel(w.tables, w.tables.attempts[attempt].incident)
    ensures var id := w.tables.attempts[attempt].incident;
            var cancelled := Next(c, w, Cancel(id, reason, false, now));
            && cancelled.tables.incidents[id].response == Incident.Cancelled
            && Next(c, cancelled, Outcome(attempt, INITIATED)).tables.incidents[id].response ==
               if attempt in Abandoned(w, id) then Incident.Cancelled else Incident.CallInitiated
  {
  }

  /** And such a run exists: a call is placed, the incident is cancelled, and the provider then accepts. */
  lemma CancellationCanEnd(c: Settings, id: string) returns (steps: seq<Step>)
    requires AsksProvider(c)
    ensures |steps| == 5 && steps[3] == Cancel(id, "testing", false, 0) && steps[4] == Outcome(0, INITIATED)
    ensures IsCancelled(Run(c, steps[..4]).tables, id) && !IsCancelled(Run(c, steps).tables, id)
  {
    var s1 := FreshlyConfirmed(c, id);
    var s2 := s1 + [Dispatch(id, 0)];
    var s3 := s2 + [Cancel(id, "testing", false, 0)];
    steps := s3 + [Outcome(0, INITIATED)];
    RunSnoc(c, s1, Dispatch(id, 0));
    RunSnoc(c, s2, Cancel(id, "testing", false, 0));
    RunSnoc(c, s3, Outcome(0, INITIATED));
    FirstCallPlaced(c, Run(c, s1), id, 0);
    CancelledCanStillCall(c, Run(c, s2), 0, "testing", 0);
    assert steps[..4] == s3;
  }

  lemma TimerCalls(c: Settings, w: World, id: string)
    requires AsksProvider(c) && CanEscalate(w.tables, id) && IsConfirmed(w.tables, id) && w.tables.attempts == []
    requires w.tasks == map[] && w.timers == [] && w.inFlight == {}
    ensures var e := Next(c, Next(c, Next(c, w, Observe(id)), Fire(0, 0)), TimerCall(0, 0));
            && CanCancel(e.tables, id) && e.tables.attempts == [Attempt(id, REQUESTED, 0)]
            && e.inFlight == {0} && Abandoned(e, id) == {0}
  {
    var woken := Next(c, Next(c, w, Observe(id)), Fire(0, 0));
    assert woken.timers == [Escalated(id)] && woken.tasks == map[id := 0];
    assert ActiveCount(woken.tables.attempts, id) == 0 && LatestActive(woken.tables.attempts).None?;
    assert Places(c, woken.tables, id, 0);
  }

  /** A placed call alone does not undo finality: when the timeout task placed it and no callback secret is
      configured, the cancel that stops the task is final. */
  lemma TimerCallIsStopped(c: Settings, id: string) returns (steps: seq<Step>)
    requires AsksProvider(c) && !c.webhooks
    ensures WasCalled(Run(c, steps).tables, id) && CancelledForever(c, steps, id)
  {
    var s1 := FreshlyConfirmed(c, id);
    var s2 := s1 + [Observe(id)];
    var s3 := s2 + [Fire(0, 0)];
    var s4 := s3 + [TimerCall(0, 0)];
    steps := s4 + [Cancel(id, "testing", false, 0)];
    RunSnoc(c, s1, Observe(id));
    RunSnoc(c, s2, Fire(0, 0));
    RunSnoc(c, s3, TimerCall(0, 0));
    RunSnoc(c, s4, Cancel(id, "testing", false, 0));
    TimerCalls(c, Run(c, s1), id);
    CancelLeaves(c, Run(c, s4), id, "testing", false, 0);
    CancelIsFinalExactly(c, s4, id, "testing", false, 0);
    assert Run(c, s4).tables.attempts[0].incident == id;
  }
}
