/** Whole runs of the call policy: what every call was preceded by, the timers, and the answers. */
module CallRuns {
  import Incident
  import opened Database
  import opened CallPolicy
  import opened Wrappers

  // ---------------------------------------------------------------- every call is lawful

  /** Step `j` was a device update that reported the incident as confirmed, while the system was armed. */
  predicate Reported(c: Settings, steps: seq<Step>, j: nat, id: string) {
    && j < |steps| && steps[j].DeviceUpdate? && steps[j].id == id && steps[j].update.hazard == Incident.Confirmed
    && Run(c, steps[..j]).armed
  }

  predicate IsConfirmed(t: Tables, id: string) {
    id in t.incidents && t.incidents[id].confirmedAt.Some?
  }

  predicate ReportsNow(w: World, s: Step, id: string) {
    s.DeviceUpdate? && s.id == id && s.update.hazard == Incident.Confirmed && w.armed
  }

  lemma CallConfirmsNothing(c: Settings, w: World, called: string, now: int, id: string)
    ensures IsConfirmed(Called(c, w, called, now).tables, id) <==> IsConfirmed(w.tables, id)
  {
  }

  lemma StepConfirms(c: Settings, w: World, s: Step, id: string)
    requires IsConfirmed(Next(c, w, s).tables, id)
    ensures IsConfirmed(w.tables, id) || ReportsNow(w, s, id)
  {
    match s
    case Dispatch(i, now) => CallConfirmsNothing(c, w, i, now, id);
    case TimerCall(timer, now) =>
      if timer < |w.timers| && w.timers[timer].Escalated? {
        CallConfirmsNothing(c, w, w.timers[timer].incident, now, id);
      }
    case _ =>
  }

  /** An incident counts as confirmed only if some earlier device update said so. */
  lemma {:induction false} ConfirmedWasReported(c: Settings, steps: seq<Step>, id: string)
    requires IsConfirmed(Run(c, steps).tables, id)
    ensures exists j: nat :: Reported(c, steps, j, id)
  {
    if steps != [] {
      var n := |steps| - 1;
      var front := steps[..n];
      StepConfirms(c, Run(c, front), steps[n], id);
      if IsConfirmed(Run(c, front).tables, id) {
        ConfirmedWasReported(c, front, id);
        var j: nat :| Reported(c, front, j, id);
        assert steps[..j] == front[..j];
        assert Reported(c, steps, j, id);
      } else {
        assert Reported(c, steps, n, id);
      }
    }
  }

  lemma StepKeepsConfirmation(c: Settings, w: World, s: Step, id: string)
    requires IsConfirmed(w.tables, id)
    ensures IsConfirmed(Next(c, w, s).tables, id)
    ensures Next(c, w, s).tables.incidents[id].confirmedAt == w.tables.incidents[id].confirmedAt
  {
  }

  /** Nothing erases a visual confirmation: not a cancel, a reset, a later update or a failed call. */
  lemma {:induction false} ConfirmationIsPermanent(c: Settings, steps: seq<Step>, i: nat, j: nat, id: string)
    requires i <= j <= |steps| && IsConfirmed(Run(c, steps[..i]).tables, id)
    ensures IsConfirmed(Run(c, steps[..j]).tables, id)
    ensures Run(c, steps[..j]).tables.incidents[id].confirmedAt == Run(c, steps[..i]).tables.incidents[id].confirmedAt
  {
    if i < j {
      ConfirmationIsPermanent(c, steps, i, j - 1, id);
      RunStep(c, steps, j - 1);
      StepKeepsConfirmation(c, Run(c, steps[..j - 1]), steps[j - 1], id);
    }
  }

  predicate IsConnected(t: Tables, id: string) {
    id in t.incidents && t.incidents[id].response == Incident.CallConnected
  }

  /** The provider's callback, or the device itself, said that the call is connected. */
  predicate SaysConnected(s: Step, id: string) {
    || (s.Webhook? && s.id == id && s.status == CONNECTED)
    || (s.DeviceUpdate? && s.id == id && s.update.response == Incident.CallConnected)
  }

  lemma StepConnects(c: Settings, w: World, s: Step, id: string)
    requires IsConnected(Next(c, w, s).tables, id)
    ensures IsConnected(w.tables, id) || SaysConnected(s, id)
  {
  }

  /** Connection is never inferred: a connected call was reported by a provider callback or by the
      device, whatever requests were accepted before. */
  lemma {:induction false} ConnectedWasReported(c: Settings, steps: seq<Step>, id: string)
    requires IsConnected(Run(c, steps).tables, id)
    ensures exists j :: 0 <= j < |steps| && SaysConnected(steps[j], id)
  {
    if steps != [] {
      var n := |steps| - 1;
      StepConnects(c, Run(c, steps[..n]), steps[n], id);
      if IsConnected(Run(c, steps[..n]).tables, id) {
        ConnectedWasReported(c, steps[..n], id);
        var j :| 0 <= j < n && SaysConnected(steps[..n][j], id);
        assert SaysConnected(steps[j], id);
      } else {
        assert SaysConnected(steps[n], id);
      }
    }
  }

  /** After the guards of a request, its reservation is refused only for the budget or the cooldown. */
  lemma ReservationRefusedOnlyFor(c: Settings, t: Tables, id: string, now: int)
    requires Guards(c, t, id).None?
    ensures var verdict := CallVerdict(c, t, id, now);
            && (verdict == Some(DuplicateOrMaxCallsReached) <==> ActiveCount(t.attempts, id) >= c.maxCalls)
            && (verdict == Some(GlobalCallCooldown) <==>
                  ActiveCount(t.attempts, id) < c.maxCalls && InCooldown(t.attempts, c.cooldown, now))
            && (verdict.Some? ==> verdict.value == DuplicateOrMaxCallsReached || verdict.value == GlobalCallCooldown)
  {
  }

  /** What a call that is placed requires and does. */
  lemma PlacesMeans(c: Settings, t: Tables, id: string, now: int)
    requires Places(c, t, id, now)
    ensures IsConfirmed(t, id) && t.incidents[id].response != Incident.Cancelled
    ensures ActiveCount(t.attempts, id) < c.maxCalls
    ensures forall i :: 0 <= i < |t.attempts| && Active(t.attempts[i].status) ==>
              t.attempts[i].requestedAt + c.cooldown <= now
    ensures CallPlaced(c, t, id, now).attempts ==
            t.attempts + [Attempt(id, if c.mockProvider then INITIATED else REQUESTED, now)]
  {
    CooldownMeans(t.attempts, c.cooldown, now);
  }

  /** The only steps that place calls: a dispatch while armed, and an escalated timer's one request. */
  predicate Requests(w: World, s: Step, id: string, now: int) {
    || (s == Dispatch(id, now) && w.armed)
    || (s.TimerCall? && s.now == now && s.timer < |w.timers| && w.timers[s.timer] == Escalated(id))
  }

  lemma StepPlaces(c: Settings, w: World, s: Step) returns (id: string, now: int)
    requires |Next(c, w, s).tables.attempts| != |w.tables.attempts|
    ensures Requests(w, s, id, now) && Places(c, w.tables, id, now)
    ensures Next(c, w, s).tables == CallPlaced(c, w.tables, id, now)
  {
    id, now := "", 0;
    match s
    case Dispatch(i, n) => id, now := i, n;
    case TimerCall(timer, n) => id, now := w.timers[timer].incident, n;
    case _ =>
  }

  /** Every reservation in every run is for one incident that an earlier device update reported as
      confirmed and that is not cancelled, within the budget, and at least the cooldown after every
      other active attempt. */
  lemma EveryCallIsLawful(c: Settings, steps: seq<Step>, s: Step) returns (id: string, now: int)
    requires |Next(c, Run(c, steps), s).tables.attempts| != |Run(c, steps).tables.attempts|
    ensures var t := Run(c, steps).tables;
            && Requests(Run(c, steps), s, id, now)
            && (exists j: nat :: Reported(c, steps, j, id))
            && id in t.incidents && t.incidents[id].response != Incident.Cancelled
            && ActiveCount(t.attempts, id) < c.maxCalls
            && (forall i :: 0 <= i < |t.attempts| && t.attempts[i].status != FAILED ==>
                  t.attempts[i].requestedAt + c.cooldown <= now)
            && Next(c, Run(c, steps), s).tables.attempts ==
               t.attempts + [Attempt(id, if c.mockProvider then INITIATED else REQUESTED, now)]
  {
    id, now := StepPlaces(c, Run(c, steps), s);
    PlacesMeans(c, Run(c, steps).tables, id, now);
    ConfirmedWasReported(c, steps, id);
  }

  // ---------------------------------------------------------------- timers

  predicate Running(t: Timer) {
    t.Escalated? || t.Calling? || t.Stopping?
  }

  /** A sleeping timer is the one in the manager's dictionary, and a timer that is past its sleep has
      a decided incident and no sleeping companion. */
  ghost predicate TimersKept(w: World) {
    && (forall n :: 0 <= n < |w.timers| && w.timers[n].Sleeping? ==>
          w.timers[n].incident in w.tasks && w.tasks[w.timers[n].incident] == n)
    && (forall n :: 0 <= n < |w.timers| && Running(w.timers[n]) ==> IsDecided(w.tables, w.timers[n].incident))
    && (forall n, m :: 0 <= n < |w.timers| && 0 <= m < |w.timers| && w.timers[n].Sleeping? && Running(w.timers[m]) ==>
          w.timers[n].incident != w.timers[m].incident)
    && (forall id :: id in w.tasks ==>
          w.tasks[id] < |w.timers| && (w.timers[w.tasks[id]].Over? || w.timers[w.tasks[id]].incident == id))
  }

  /** The same timers over tables that keep decided what was decided. */
  lemma TimersUnderTables(w: World, e: World)
    requires TimersKept(w) && e.tasks == w.tasks && e.timers == w.timers
    requires forall id :: IsDecided(w.tables, id) ==> IsDecided(e.tables, id)
    ensures TimersKept(e)
  {
  }

  lemma EndedKeeps(w: World, timer: nat)
    requires TimersKept(w) && timer < |w.timers| && !w.timers[timer].Over?
    ensures TimersKept(Ended(w, timer, w.timers[timer].incident))
  {
  }

  lemma FiredKeeps(w: World, timer: nat, now: int)
    requires TimersKept(w) && timer < |w.timers| && w.timers[timer].Sleeping?
    ensures TimersKept(Fired(w, timer, now))
  {
    if CanEscalate(w.tables, w.timers[timer].incident) {
    } else {
      EndedKeeps(w, timer);
    }
  }

  lemma ObserveKeeps(c: Settings, w: World, id: string)
    requires TimersKept(w)
    ensures TimersKept(Next(c, w, Observe(id)))
  {
  }

  /** The answer to an incident stops its timer and decides it. */
  lemma CancelledKeeps(w: World, id: string, t: Tables)
    requires TimersKept(w) && IsDecided(t, id)
    requires forall i :: IsDecided(w.tables, i) ==> IsDecided(t, i)
    ensures TimersKept(TimerCancelled(w, id).(tables := t))
  {
  }

  lemma DecisionsKept(c: Settings, w: World, s: Step)
    ensures forall id :: IsDecided(w.tables, id) ==> IsDecided(Next(c, w, s).tables, id)
  {
    forall id | IsDecided(w.tables, id) ensures IsDecided(Next(c, w, s).tables, id) {
      StepSettles(c, w, s, id);
    }
  }

  lemma TimerCallKeeps(c: Settings, w: World, timer: nat, now: int)
    requires TimersKept(w)
    ensures TimersKept(Next(c, w, TimerCall(timer, now)))
  {
    DecisionsKept(c, w, TimerCall(timer, now));
  }

  lemma StepKeepsTimers(c: Settings, w: World, s: Step)
    requires TimersKept(w)
    ensures TimersKept(Next(c, w, s))
  {
    DecisionsKept(c, w, s);
    var e := Next(c, w, s);
    match s
    case Observe(id) => ObserveKeeps(c, w, id);
    case Fire(timer, now) =>
      if timer < |w.timers| && w.timers[timer].Sleeping? { FiredKeeps(w, timer, now); }
    case TimerCall(timer, now) => TimerCallKeeps(c, w, timer, now);
    case TimerEnd(timer) =>
      if CanEnd(w, timer) { EndedKeeps(w, timer); }
    case Confirm(id, voice, now) =>
      if CanConfirm(w.tables, id) { CancelledKeeps(w, id, e.tables); }
    case Cancel(id, reason, voice, now) =>
      if CanCancel(w.tables, id) { CancelledKeeps(w, id, e.tables); }
    case Dispatch(id, now) => TimersUnderTables(w, e);
    case _ => TimersUnderTables(w, e);
  }

  lemma {:induction false} AlwaysKept(c: Settings, steps: seq<Step>)
    ensures TimersKept(Run(c, steps))
  {
    if steps != [] {
      AlwaysKept(c, steps[..|steps| - 1]);
      StepKeepsTimers(c, Run(c, steps[..|steps| - 1]), steps[|steps| - 1]);
    }
  }

  /** At most one timer of an incident is ever asleep, and it is the one an answer would stop: although
      a task that ends drops its incident's entry whatever it is, no sleeping timer is orphaned. */
  lemma OneSleepingTimer(c: Settings, steps: seq<Step>, n: nat, m: nat)
    requires var w := Run(c, steps);
             n < |w.timers| && m < |w.timers| && w.timers[n].Sleeping? && w.timers[m].Sleeping?
    requires Run(c, steps).timers[n].incident == Run(c, steps).timers[m].incident
    ensures n == m
    ensures var w := Run(c, steps); w.timers[n].incident in w.tasks && w.tasks[w.timers[n].incident] == n
  {
    AlwaysKept(c, steps);
  }

  // ---------------------------------------------------------------- answers

  /** An occupant's answer that passes its guard. */
  predicate Answers(w: World, s: Step, id: string) {
    || (s.Confirm? && s.id == id && CanConfirm(w.tables, id))
    || (s.Cancel? && s.id == id && CanCancel(w.tables, id))
  }

  lemma ConfirmDecides(c: Settings, w: World, id: string, voice: bool, now: int)
    requires CanConfirm(w.tables, id)
    ensures var e := Next(c, w, Confirm(id, voice, now));
            IsDecided(e.tables, id) && Timeouts(e.tables.events, id) == Timeouts(w.tables.events, id)
  {
    SourcesDiffer();
    TimeoutsSnoc(w.tables.events, Event(id, "OCCUPANT_CONFIRMED", Origin(voice)), id);
  }

  lemma CancelDecides(c: Settings, w: World, id: string, reason: string, voice: bool, now: int)
    requires CanCancel(w.tables, id)
    ensures var e := Next(c, w, Cancel(id, reason, voice, now));
            IsDecided(e.tables, id) && Timeouts(e.tables.events, id) == Timeouts(w.tables.events, id)
  {
    SourcesDiffer();
    TimeoutsSnoc(w.tables.events, Event(id, "ESCALATION_CANCELLED", Origin(voice)), id);
  }

  lemma AnswerDecides(c: Settings, w: World, s: Step, id: string)
    requires Answers(w, s, id)
    ensures IsDecided(Next(c, w, s).tables, id)
    ensures Timeouts(Next(c, w, s).tables.events, id) == Timeouts(w.tables.events, id)
  {
    match s
    case Confirm(_, voice, now) => ConfirmDecides(c, w, id, voice, now);
    case Cancel(_, reason, voice, now) => CancelDecides(c, w, id, reason, voice, now);
    case _ =>
  }

  /** An occupant's answer that is accepted ends the timeout for good: whatever follows, the incident
      stays decided and gets no further timeout event. */
  lemma AnswerSilencesTimeout(c: Settings, steps: seq<Step>, k: nat, id: string)
    requires k < |steps| && Answers(Run(c, steps[..k]), steps[k], id)
    ensures IsDecided(Run(c, steps).tables, id)
    ensures Timeouts(Run(c, steps).tables.events, id) == Timeouts(Run(c, steps[..k]).tables.events, id)
  {
    AnswerDecides(c, Run(c, steps[..k]), steps[k], id);
    RunStep(c, steps, k);
    DecidedStays(c, steps, k + 1, |steps|, id);
    assert steps[..|steps|] == steps;
  }

  // ---------------------------------------------------------------- a first call

  /** A call is requested from the provider, not from the mock. */
  predicate AsksProvider(c: Settings) {
    c.demoCalls && c.destinationAllowed && !c.mockProvider && c.providerConfigured && c.maxCalls > 0
  }

  lemma FirstCallPlaced(c: Settings, w: World, id: string, now: int)
    requires AsksProvider(c)
    requires w.armed && IsConfirmed(w.tables, id) && !Decided(w.tables.incidents[id].response) &&
             w.tables.attempts == []
    ensures var e := Next(c, w, Dispatch(id, now));
            && e.tables.attempts == [Attempt(id, REQUESTED, now)] && 0 in e.inFlight && CanCancel(e.tables, id)
            && e.tasks == w.tasks
  {
    assert ActiveCount(w.tables.attempts, id) == 0 && LatestActive(w.tables.attempts).None?;
  }

  /** The world of a freshly confirmed incident, reached from the start. */
  lemma FreshlyConfirmed(c: Settings, id: string) returns (steps: seq<Step>)
    ensures |steps| == 2
    ensures var w := Run(c, steps);
            && w.armed && IsConfirmed(w.tables, id) && w.tables.attempts == []
            && CanEscalate(w.tables, id) && w.tasks == map[] && w.timers == [] && w.inFlight == {}
  {
    var update := DeviceUpdate(id, Update(Incident.Confirmed, Incident.AwaitingResponse), 0);
    steps := [] + [Arm(true)] + [update];
    RunSnoc(c, [], Arm(true));
    RunSnoc(c, [] + [Arm(true)], update);
  }

  lemma RunSnoc(c: Settings, steps: seq<Step>, s: Step)
    ensures Run(c, steps + [s]) == Next(c, Run(c, steps), s)
  {
    assert (steps + [s])[..|steps|] == steps;
  }
}
