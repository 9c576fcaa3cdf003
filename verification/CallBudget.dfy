/** The call budget: in which runs it holds, and under which settings it holds in all of them. */
module CallBudget {
  import Incident
  import opened Database
  import opened CallPolicy
  import opened CallRuns
  import opened Wrappers

  ghost predicate WithinBudget(c: Settings, t: Tables) {
    forall id :: ActiveCount(t.attempts, id) <= c.maxCalls
  }

  /** A result marks a failed attempt active again although its incident has no call left. */
  predicate OverrunsAt(c: Settings, t: Tables, attempt: nat, status: CallStatus) {
    && attempt < |t.attempts| && t.attempts[attempt].status == FAILED && Active(status)
    && ActiveCount(t.attempts, t.attempts[attempt].incident) >= c.maxCalls
  }

  predicate Overruns(c: Settings, w: World, s: Step) {
    match s
    case Outcome(attempt, status) => CanResolve(w, attempt, status) && OverrunsAt(c, w.tables, attempt, status)
    case Webhook(id, status) =>
      CanReport(c, w, id, status) && OverrunsAt(c, w.tables, LastAttempt(w.tables.attempts, id), status)
    case _ => false
  }

  lemma ResultBudget(c: Settings, t: Tables, attempt: nat, status: CallStatus)
    requires WithinBudget(c, t) && attempt < |t.attempts|
    ensures WithinBudget(c, Attempted(t, attempt, status)) <==> !OverrunsAt(c, t, attempt, status)
  {
    var e := Attempted(t, attempt, status);
    forall id ensures ActiveCount(t.attempts, id) <= c.maxCalls &&
                      (!OverrunsAt(c, t, attempt, status) ==> ActiveCount(e.attempts, id) <= c.maxCalls) {
      CountUpdated(t.attempts, attempt, status, id);
    }
    CountUpdated(t.attempts, attempt, status, t.attempts[attempt].incident);
  }

  lemma CallWithin(c: Settings, w: World, called: string, now: int)
    requires WithinBudget(c, w.tables)
    ensures WithinBudget(c, Called(c, w, called, now).tables)
  {
    if Places(c, w.tables, called, now) {
      PlacesMeans(c, w.tables, called, now);
      var a := Attempt(called, if c.mockProvider then INITIATED else REQUESTED, now);
      forall id ensures ActiveCount(w.tables.attempts + [a], id) <= c.maxCalls {
        CountSnoc(w.tables.attempts, a, id);
      }
    }
  }

  lemma StepBudget(c: Settings, w: World, s: Step)
    requires WithinBudget(c, w.tables)
    ensures WithinBudget(c, Next(c, w, s).tables) <==> !Overruns(c, w, s)
  {
    match s
    case Dispatch(i, now) => CallWithin(c, w, i, now);
    case TimerCall(timer, now) =>
      if timer < |w.timers| && w.timers[timer].Escalated? {
        CallWithin(c, w, w.timers[timer].incident, now);
      }
    case Outcome(attempt, status) =>
      if CanResolve(w, attempt, status) { ResultBudget(c, w.tables, attempt, status); }
    case Webhook(id, status) =>
      if CanReport(c, w, id, status) { ResultBudget(c, w.tables, LastAttempt(w.tables.attempts, id), status); }
    case _ => assert Next(c, w, s).tables.attempts == w.tables.attempts;
  }

  ghost predicate AlwaysWithinBudget(c: Settings, steps: seq<Step>) {
    forall k :: 0 <= k <= |steps| ==> WithinBudget(c, Run(c, steps[..k]).tables)
  }

  ghost predicate NeverOverruns(c: Settings, steps: seq<Step>) {
    forall k :: 0 <= k < |steps| ==> !Overruns(c, Run(c, steps[..k]), steps[k])
  }

  lemma {:induction false} WithinUpTo(c: Settings, steps: seq<Step>, k: nat)
    requires k <= |steps| && forall i :: 0 <= i < k ==> !Overruns(c, Run(c, steps[..i]), steps[i])
    ensures WithinBudget(c, Run(c, steps[..k]).tables)
  {
    if k == 0 {
      assert steps[..0] == [];
    } else {
      WithinUpTo(c, steps, k - 1);
      RunStep(c, steps, k - 1);
      StepBudget(c, Run(c, steps[..k - 1]), steps[k - 1]);
    }
  }

  /** The active attempts of each incident stay within the maximum throughout a run exactly when no
      result revives a failed attempt of an incident that has no call left. */
  lemma BudgetHoldsExactly(c: Settings, steps: seq<Step>)
    ensures AlwaysWithinBudget(c, steps) <==> NeverOverruns(c, steps)
  {
    if NeverOverruns(c, steps) {
      forall k | 0 <= k <= |steps| ensures WithinBudget(c, Run(c, steps[..k]).tables) {
        WithinUpTo(c, steps, k);
      }
    }
    if AlwaysWithinBudget(c, steps) {
      forall k | 0 <= k < |steps| ensures !Overruns(c, Run(c, steps[..k]), steps[k]) {
        RunStep(c, steps, k);
        StepBudget(c, Run(c, steps[..k]), steps[k]);
      }
    }
  }

  /** Every request with the provider is about an attempt that nothing has reported on yet. */
  predicate AllUnanswered(w: World) {
    forall a :: a in w.inFlight ==> a < |w.tables.attempts| && w.tables.attempts[a].status == REQUESTED
  }

  lemma CallUnanswered(c: Settings, w: World, called: string, now: int)
    requires AllUnanswered(w)
    ensures AllUnanswered(Called(c, w, called, now))
  {
  }

  lemma StepUnanswered(c: Settings, w: World, s: Step)
    requires !c.webhooks && AllUnanswered(w)
    ensures AllUnanswered(Next(c, w, s)) && !Overruns(c, w, s)
  {
    match s
    case Dispatch(i, now) => CallUnanswered(c, w, i, now);
    case TimerCall(timer, now) =>
      if timer < |w.timers| && w.timers[timer].Escalated? {
        CallUnanswered(c, w, w.timers[timer].incident, now);
      }
    case _ =>
  }

  lemma {:induction false} AlwaysUnanswered(c: Settings, steps: seq<Step>, k: nat)
    requires !c.webhooks && k <= |steps|
    ensures AllUnanswered(Run(c, steps[..k]))
  {
    if k > 0 {
      AlwaysUnanswered(c, steps, k - 1);
      StepUnanswered(c, Run(c, steps[..k - 1]), steps[k - 1]);
      RunStep(c, steps, k - 1);
    }
  }

  /** While no secret for callbacks is configured, the budget holds in every run. */
  lemma BudgetHoldsWithoutWebhooks(c: Settings, steps: seq<Step>)
    requires !c.webhooks
    ensures AlwaysWithinBudget(c, steps)
  {
    forall k | 0 <= k < |steps| ensures !Overruns(c, Run(c, steps[..k]), steps[k]) {
      AlwaysUnanswered(c, steps, k);
      StepUnanswered(c, Run(c, steps[..k]), steps[k]);
    }
    BudgetHoldsExactly(c, steps);
  }

  // ---------------------------------------------------------------- when the budget can break

  lemma FirstReportedFailed(c: Settings, w: World, id: string)
    requires c.webhooks && IsConfirmed(w.tables, id) && |w.tables.attempts| == 1 && w.tables.attempts[0].incident == id
    ensures var e := Next(c, w, Webhook(id, FAILED));
            && e.armed == w.armed && e.inFlight == w.inFlight && IsConfirmed(e.tables, id)
            && e.tables.incidents[id].response == Incident.CallFailed
            && e.tables.attempts == [w.tables.attempts[0].(status := FAILED)]
  {
  }

  lemma NoneActive(attempts: seq<Attempt>, id: string)
    requires |attempts| == 1 && attempts[0].status == FAILED
    ensures ActiveCount(attempts, id) == 0 && LatestActive(attempts).None?
  {
    assert attempts[..0] == [];
    assert ActiveCount(attempts[..0], id) == 0 && LatestActive(attempts[..0]).None?;
  }

  /** The incident may be called while its budget lasts. */
  predicate Callable(w: World, id: string) {
    w.armed && IsConfirmed(w.tables, id) && w.tables.incidents[id].response != Incident.Cancelled
  }

  lemma PlacedAgain(c: Settings, w: World, id: string) returns (now: int)
    requires AsksProvider(c) && Callable(w, id) && ActiveCount(w.tables.attempts, id) < c.maxCalls
    ensures var e := Next(c, w, Dispatch(id, now));
            Callable(e, id) && e.tables.attempts == w.tables.attempts + [Attempt(id, REQUESTED, now)] &&
            w.inFlight <= e.inFlight
  {
    var latest := LatestActive(w.tables.attempts);
    now := if latest.Some? then latest.value + c.cooldown else 0;
    assert Places(c, w.tables, id, now);
  }

  /** As many further calls as the budget allows, each after the cooldown. */
  lemma {:induction false} CallsAgain(c: Settings, steps: seq<Step>, id: string, n: nat) returns (longer: seq<Step>)
    requires AsksProvider(c) && Callable(Run(c, steps), id)
    requires ActiveCount(Run(c, steps).tables.attempts, id) + n <= c.maxCalls
    ensures var w, e := Run(c, steps), Run(c, longer);
            && Callable(e, id) && w.tables.attempts <= e.tables.attempts && w.inFlight <= e.inFlight
            && ActiveCount(e.tables.attempts, id) == ActiveCount(w.tables.attempts, id) + n
  {
    if n == 0 {
      longer := steps;
    } else {
      var most := CallsAgain(c, steps, id, n - 1);
      var now := PlacedAgain(c, Run(c, most), id);
      longer := most + [Dispatch(id, now)];
      RunSnoc(c, most, Dispatch(id, now));
      CountSnoc(Run(c, most).tables.attempts, Attempt(id, REQUESTED, now), id);
    }
  }

  /** The budget can be overrun: the first call is reported as failed, all calls of the budget are placed
      again, and then the provider's late answer revives the first. */
  lemma BudgetCanBreak(c: Settings, id: string) returns (steps: seq<Step>)
    requires AsksProvider(c) && c.webhooks
    ensures ActiveCount(Run(c, steps).tables.attempts, id) == c.maxCalls + 1
  {
    var s1 := FreshlyConfirmed(c, id);
    var s2 := s1 + [Dispatch(id, 0)];
    var s3 := s2 + [Webhook(id, FAILED)];
    RunSnoc(c, s1, Dispatch(id, 0));
    RunSnoc(c, s2, Webhook(id, FAILED));
    FirstCallPlaced(c, Run(c, s1), id, 0);
    CallConfirmsNothing(c, Run(c, s1), id, 0, id);
    FirstReportedFailed(c, Run(c, s2), id);
    NoneActive(Run(c, s3).tables.attempts, id);
    var s4 := CallsAgain(c, s3, id, c.maxCalls);
    steps := s4 + [Outcome(0, INITIATED)];
    RunSnoc(c, s4, Outcome(0, INITIATED));
    assert Run(c, s4).tables.attempts[0] == Run(c, s3).tables.attempts[0];
    CountUpdated(Run(c, s4).tables.attempts, 0, INITIATED, id);
  }

  /** An incident whose last call failed has one left. */
  predicate OneLeft(c: Settings, attempts: seq<Attempt>, id: string) {
    var k := LastAttempt(attempts, id);
    k < |attempts| && attempts[k].status == FAILED ==> ActiveCount(attempts, id) < c.maxCalls
  }

  /** With the mock provider nothing is in flight, and a failed last call can be taken back. */
  ghost predicate LastCallFree(c: Settings, w: World) {
    w.inFlight == {} && forall id :: OneLeft(c, w.tables.attempts, id)
  }

  lemma LastOfSnoc(attempts: seq<Attempt>, a: Attempt, id: string)
    ensures LastAttempt(attempts + [a], id) ==
            if a.incident == id then |attempts|
            else if LastAttempt(attempts, id) < |attempts| then LastAttempt(attempts, id)
            else |attempts| + 1
  {
    assert (attempts + [a])[..|attempts|] == attempts;
  }

  lemma LastOfUpdated(attempts: seq<Attempt>, k: nat, status: CallStatus, id: string)
    requires k < |attempts|
    ensures LastAttempt(attempts[k := attempts[k].(status := status)], id) == LastAttempt(attempts, id)
  {
    var changed := attempts[k := attempts[k].(status := status)];
    assert forall m :: 0 <= m < |attempts| ==> changed[m].incident == attempts[m].incident;
  }

  lemma MockCall(c: Settings, w: World, called: string, now: int)
    requires c.mockProvider && LastCallFree(c, w)
    ensures LastCallFree(c, Called(c, w, called, now))
  {
    if Places(c, w.tables, called, now) {
      PlacesMeans(c, w.tables, called, now);
      var a := Attempt(called, INITIATED, now);
      forall id ensures OneLeft(c, w.tables.attempts + [a], id) {
        assert OneLeft(c, w.tables.attempts, id);
        LastOfSnoc(w.tables.attempts, a, id);
        CountSnoc(w.tables.attempts, a, id);
      }
    }
  }

  /** A report on an incident's last call leaves every incident whose last call failed one. */
  lemma OneLeftAfter(c: Settings, attempts: seq<Attempt>, id: string, status: CallStatus, i: string)
    requires LastAttempt(attempts, id) < |attempts|
    requires OneLeft(c, attempts, i) && ActiveCount(attempts, i) <= c.maxCalls
    ensures var n := LastAttempt(attempts, id); OneLeft(c, attempts[n := attempts[n].(status := status)], i)
  {
    var n := LastAttempt(attempts, id);
    LastOfUpdated(attempts, n, status, i);
    CountUpdated(attempts, n, status, i);
  }

  lemma MockReport(c: Settings, w: World, id: string, status: CallStatus)
    requires LastCallFree(c, w) && WithinBudget(c, w.tables)
    ensures LastCallFree(c, Next(c, w, Webhook(id, status))) && !Overruns(c, w, Webhook(id, status))
  {
    if CanReport(c, w, id, status) {
      var all := Next(c, w, Webhook(id, status)).tables.attempts;
      assert OneLeft(c, w.tables.attempts, id);
      forall i ensures OneLeft(c, all, i) {
        assert OneLeft(c, w.tables.attempts, i) && ActiveCount(w.tables.attempts, i) <= c.maxCalls;
        OneLeftAfter(c, w.tables.attempts, id, status, i);
      }
    }
  }

  lemma MockStep(c: Settings, w: World, s: Step)
    requires c.mockProvider && LastCallFree(c, w) && WithinBudget(c, w.tables)
    ensures LastCallFree(c, Next(c, w, s)) && !Overruns(c, w, s)
  {
    match s
    case Dispatch(i, now) => MockCall(c, w, i, now);
    case TimerCall(timer, now) =>
      if timer < |w.timers| && w.timers[timer].Escalated? {
        MockCall(c, w, w.timers[timer].incident, now);
      }
    case Webhook(i, status) => MockReport(c, w, i, status);
    case _ =>
  }

  lemma {:induction false} MockNeverOverruns(c: Settings, steps: seq<Step>, k: nat)
    requires c.mockProvider && k <= |steps|
    ensures LastCallFree(c, Run(c, steps[..k])) && WithinBudget(c, Run(c, steps[..k]).tables)
  {
    if k > 0 {
      MockNeverOverruns(c, steps, k - 1);
      RunStep(c, steps, k - 1);
      MockStep(c, Run(c, steps[..k - 1]), steps[k - 1]);
      StepBudget(c, Run(c, steps[..k - 1]), steps[k - 1]);
    }
  }

  /** Where a call cannot pass its guards, none is ever placed. */
  lemma {:induction false} NoCalls(c: Settings, steps: seq<Step>)
    requires !AsksProvider(c) && !c.mockProvider
    ensures Run(c, steps).tables.attempts == []
  {
    if steps != [] {
      var w, s := Run(c, steps[..|steps| - 1]), steps[|steps| - 1];
      NoCalls(c, steps[..|steps| - 1]);
      if |Next(c, w, s).tables.attempts| != 0 {
        var id, now := StepPlaces(c, w, s);
        PlacesMeans(c, w.tables, id, now);
      }
    }
  }

  /** The budget holds in every run exactly when the provider is the mock, or no callback secret is
      configured, or calls are not possible at all. */
  lemma BudgetIsSafeExactly(c: Settings)
    ensures (forall steps :: AlwaysWithinBudget(c, steps)) <==> !(AsksProvider(c) && c.webhooks)
  {
    if AsksProvider(c) && c.webhooks {
      var steps := BudgetCanBreak(c, "");
      assert steps[..|steps|] == steps;
      assert !WithinBudget(c, Run(c, steps[..|steps|]).tables);
      assert !AlwaysWithinBudget(c, steps);
    } else {
      forall steps ensures AlwaysWithinBudget(c, steps) {
        SafeBudget(c, steps);
      }
    }
  }

  lemma SafeBudget(c: Settings, steps: seq<Step>)
    requires !(AsksProvider(c) && c.webhooks)
    ensures AlwaysWithinBudget(c, steps)
  {
    if c.mockProvider {
      forall k | 0 <= k <= |steps| ensures WithinBudget(c, Run(c, steps[..k]).tables) {
        MockNeverOverruns(c, steps, k);
      }
    } else if c.webhooks {
      forall k | 0 <= k <= |steps| ensures WithinBudget(c, Run(c, steps[..k]).tables) {
        NoCalls(c, steps[..k]);
      }
    } else {
      BudgetHoldsWithoutWebhooks(c, steps);
    }
  }
}
