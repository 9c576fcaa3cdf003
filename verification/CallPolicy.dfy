/** The response and call policy of the backend as a step system: device updates, the response
    timeout, the occupant's and operator's actions, call requests and provider results, in any
    interleaving.  A stretch of code between two suspension points is one step. */
module CallPolicy {
  import Incident
  import opened Database
  import opened Wrappers

  /** `destinationAllowed` is the outcome of the checks on the configured number; `webhooks` is whether a
      secret for the provider's callbacks is configured, without which all of them are refused. */
  datatype Settings = Settings(
    demoCalls: bool,
    destinationAllowed: bool,
    mockProvider: bool,
    providerConfigured: bool,
    webhooks: bool,
    cooldown: int,
    maxCalls: nat)

  /** A timeout task sleeps, has escalated its incident and may still request its call, has requested it
      and awaits the provider's answer about an attempt if there is one, was asked to stop, or is over. */
  datatype Timer =
    | Sleeping(incident: string)
    | Escalated(incident: string)
    | Calling(incident: string, attempt: Option<nat>)
    | Stopping(incident: string)
    | Over

  /** `tasks` is the manager's dictionary; `inFlight` holds the attempts whose provider may still answer. */
  datatype World = World(tables: Tables, tasks: map<string, nat>, timers: seq<Timer>, inFlight: set<nat>, armed: bool)

  const START := World(EMPTY, map[], [], {}, false)

  datatype Step =
    | Arm(on: bool)
    | DeviceUpdate(id: string, update: Update, now: int)
    | DeviceEvent(id: string, eventType: string)
    | Observe(id: string)
    | Fire(timer: nat, now: int)
    | TimerCall(timer: nat, now: int)
    | TimerEnd(timer: nat)
    | Confirm(id: string, voice: bool, now: int)
    | Cancel(id: string, reason: string, voice: bool, now: int)
    | Reset(id: string, now: int)
    | Dispatch(id: string, now: int)
    | Outcome(attempt: nat, status: CallStatus)
    | Lost(attempt: nat)
    | Webhook(id: string, status: CallStatus)

  const TIMEOUT := "backend_timeout"

  function Origin(voice: bool): string {
    if voice then "voice_agent" else "manual"
  }

  predicate VisuallyConfirmed(h: Hazard) {
    h == Incident.Confirmed || h == Incident.VisualSignatureLost
  }

  // ---------------------------------------------------------------- guards

  predicate CanObserve(w: World, id: string) {
    && id in w.tables.incidents && w.tables.incidents[id].response == Incident.AwaitingResponse
    && (id in w.tasks ==> w.tasks[id] >= |w.timers| || w.timers[w.tasks[id]].Over?)
  }

  predicate CanEscalate(t: Tables, id: string) {
    && id in t.incidents && t.incidents[id].response == Incident.AwaitingResponse
    && VisuallyConfirmed(t.incidents[id].hazard)
  }

  predicate CanConfirm(t: Tables, id: string) {
    id in t.incidents && VisuallyConfirmed(t.incidents[id].hazard) && t.incidents[id].response != Incident.Cancelled
  }

  predicate CanCancel(t: Tables, id: string) {
    && id in t.incidents && t.incidents[id].response != Incident.CallConnected
    && t.incidents[id].response != Incident.CallCompleted
  }

  predicate CanReset(t: Tables, id: string) {
    && id in t.incidents
    && (t.incidents[id].response == Incident.Cancelled || t.incidents[id].response == Incident.CallCompleted ||
        t.incidents[id].response == Incident.CallFailed)
  }

  predicate CanResolve(w: World, attempt: nat, status: CallStatus) {
    && attempt in w.inFlight && attempt < |w.tables.attempts|
    && (status == INITIATED || status == UNKNOWN || status == FAILED)
  }

  predicate CanReport(c: Settings, w: World, id: string, status: CallStatus) {
    && c.webhooks && LastAttempt(w.tables.attempts, id) < |w.tables.attempts|
    && (status == CONNECTED || status == COMPLETED || status == FAILED)
  }

  // ---------------------------------------------------------------- request_demo_call

  /** The guards of a call request, in their order, before the reservation is tried. */
  function Guards(c: Settings, t: Tables, id: string): Option<CallError> {
    if !c.demoCalls then Some(DemoCallsDisabled)
    else if !c.destinationAllowed then Some(DestinationRefused)
    else if id !in t.incidents then Some(IncidentNotFound)
    else if t.incidents[id].confirmedAt.None? then Some(NotVisuallyConfirmed)
    else if t.incidents[id].response == Incident.Cancelled then Some(IncidentCancelled)
    else if !c.mockProvider && !c.providerConfigured then Some(ProviderNotConfigured)
    else None
  }

  function CallVerdict(c: Settings, t: Tables, id: string, now: int): Option<CallError> {
    if Guards(c, t, id).Some? then Guards(c, t, id) else ReserveVerdict(t, id, c.cooldown, c.maxCalls, now)
  }

  predicate Places(c: Settings, t: Tables, id: string, now: int) {
    CallVerdict(c, t, id, now).None?
  }

  /** A call that passes is reserved; the mock provider accepts it at once. */
  function CallPlaced(c: Settings, t: Tables, id: string, now: int): Tables
    requires id in t.incidents
  {
    if c.mockProvider then Attempted(Reserved(t, id, now), |t.attempts|, INITIATED) else Reserved(t, id, now)
  }

  function Called(c: Settings, w: World, id: string, now: int): World {
    if Places(c, w.tables, id, now) then
      w.(tables := CallPlaced(c, w.tables, id, now),
         inFlight := if c.mockProvider then w.inFlight else w.inFlight + {|w.tables.attempts|})
    else w
  }

  /** The attempt about which the call leaves a request with the provider. */
  function Asked(c: Settings, w: World, id: string, now: int): Option<nat> {
    if Places(c, w.tables, id, now) && !c.mockProvider then Some(|w.tables.attempts|) else None
  }

  // ---------------------------------------------------------------- the timeout manager

  function Interrupted(t: Timer): Timer {
    match t
    case Sleeping(id) => Stopping(id)
    case Escalated(id) => Stopping(id)
    case Calling(id, _) => Stopping(id)
    case Stopping(id) => t
    case Over => t
  }

  /** The attempt about which a task awaits the provider's answer. */
  function Awaited(t: Timer): set<nat> {
    if t.Calling? && t.attempt.Some? then {t.attempt.value} else {}
  }

  /** The attempt whose provider request ends with the incident's task. */
  function Abandoned(w: World, id: string): set<nat> {
    if id in w.tasks && w.tasks[id] < |w.timers| then Awaited(w.timers[w.tasks[id]]) else {}
  }

  /** `cancel`: forget the incident's task and ask it to stop, which interrupts its provider request. */
  function TimerCancelled(w: World, id: string): World {
    w.(tasks := w.tasks - {id},
       inFlight := w.inFlight - Abandoned(w, id),
       timers := if id in w.tasks && w.tasks[id] < |w.timers|
                 then w.timers[w.tasks[id] := Interrupted(w.timers[w.tasks[id]])]
                 else w.timers)
  }

  /** The end of a task drops whatever task its incident has in the dictionary by then. */
  function Ended(w: World, timer: nat, id: string): World
    requires timer < |w.timers|
  {
    w.(tasks := w.tasks - {id}, timers := w.timers[timer := Over])
  }

  /** A task that was asked to stop, or is past its sleep and awaits no answer. */
  predicate CanEnd(w: World, timer: nat) {
    && timer < |w.timers|
    && (w.timers[timer].Escalated? || w.timers[timer].Calling? || w.timers[timer].Stopping?)
    && Awaited(w.timers[timer]) !! w.inFlight
  }

  function Escalation(t: Tables, id: string, now: int): Tables
    requires id in t.incidents
  {
    WithEvent(Responded(t, id, Incident.Escalating, Some("no_response"), now),
              Event(id, "NO_OCCUPANT_RESPONSE", TIMEOUT))
  }

  function Fired(w: World, timer: nat, now: int): World
    requires timer < |w.timers| && w.timers[timer].Sleeping?
  {
    var id := w.timers[timer].incident;
    if CanEscalate(w.tables, id) then
      w.(tables := Escalation(w.tables, id, now), timers := w.timers[timer := Escalated(id)])
    else Ended(w, timer, id)
  }

  // ---------------------------------------------------------------- the step function

  /** A step whose guard fails changes nothing. */
  function Next(c: Settings, w: World, s: Step): World {
    match s
    case Arm(on) => w.(armed := on)
    case DeviceUpdate(id, u, now) => if w.armed then w.(tables := Upserted(w.tables, id, u, now)) else w
    case DeviceEvent(id, eventType) =>
      if id in w.tables.incidents then w.(tables := WithEvent(w.tables, Event(id, eventType, "qnx"))) else w
    case Observe(id) =>
      if CanObserve(w, id) then w.(timers := w.timers + [Sleeping(id)], tasks := w.tasks[id := |w.timers|]) else w
    case Fire(timer, now) =>
      if timer < |w.timers| && w.timers[timer].Sleeping? then Fired(w, timer, now) else w
    case TimerCall(timer, now) =>
      if timer < |w.timers| && w.timers[timer].Escalated? && c.demoCalls then
        var id := w.timers[timer].incident;
        Called(c, w, id, now).(timers := w.timers[timer := Calling(id, Asked(c, w, id, now))])
      else w
    case TimerEnd(timer) => if CanEnd(w, timer) then Ended(w, timer, w.timers[timer].incident) else w
    case Confirm(id, voice, now) =>
      if CanConfirm(w.tables, id) then
        TimerCancelled(w, id).(tables :=
          WithEvent(Responded(w.tables, id, Incident.Escalating, Some("confirmed"), now),
                    Event(id, "OCCUPANT_CONFIRMED", Origin(voice))))
      else w
    case Cancel(id, reason, voice, now) =>
      if CanCancel(w.tables, id) then
        TimerCancelled(w, id).(tables :=
          WithEvent(Responded(w.tables, id, Incident.Cancelled, Some(reason), now),
                    Event(id, "ESCALATION_CANCELLED", Origin(voice))))
      else w
    case Reset(id, now) =>
      if CanReset(w.tables, id) then
        var row := w.tables.incidents[id];
        w.(tables :=
          WithEvent(RespondedWithHazard(w.tables, id, row.response, row.occupantResponse, Incident.Resolved, now),
                    Event(id, "MANUAL_RESET", "manual")))
      else w
    case Dispatch(id, now) => if w.armed then Called(c, w, id, now) else w
    case Outcome(attempt, status) =>
      if CanResolve(w, attempt, status)
      then w.(tables := Attempted(w.tables, attempt, status), inFlight := w.inFlight - {attempt})
      else w
    case Lost(attempt) => w.(inFlight := w.inFlight - {attempt})
    case Webhook(id, status) =>
      if CanReport(c, w, id, status)
      then w.(tables := Attempted(w.tables, LastAttempt(w.tables.attempts, id), status))
      else w
  }

  function Run(c: Settings, steps: seq<Step>): World {
    if steps == [] then START else Next(c, Run(c, steps[..|steps| - 1]), steps[|steps| - 1])
  }

  lemma RunStep(c: Settings, steps: seq<Step>, k: nat)
    requires k < |steps|
    ensures Run(c, steps[..k + 1]) == Next(c, Run(c, steps[..k]), steps[k])
  {
    assert steps[..k + 1][..k] == steps[..k];
  }

  // ---------------------------------------------------------------- decided responses

  predicate IsDecided(t: Tables, id: string) {
    id in t.incidents && Decided(t.incidents[id].response)
  }

  function Timeouts(events: seq<Event>, id: string): nat {
    if events == [] then 0
    else
      var e := events[|events| - 1];
      Timeouts(events[..|events| - 1], id) + if e.incident == id && e.source == TIMEOUT then 1 else 0
  }

  lemma TimeoutsSnoc(events: seq<Event>, e: Event, id: string)
    ensures Timeouts(events + [e], id) ==
            Timeouts(events, id) + if e.incident == id && e.source == TIMEOUT then 1 else 0
  {
    assert (events + [e])[..|events|] == events;
  }

  /** A decided response stays decided, and only the timeout of an undecided incident adds a timeout
      event, which decides it. */
  predicate Settles(t: Tables, e: Tables, id: string) {
    && (IsDecided(t, id) ==> IsDecided(e, id))
    && (IsDecided(t, id) || !IsDecided(e, id) ==> Timeouts(e.events, id) == Timeouts(t.events, id))
    && Timeouts(t.events, id) <= Timeouts(e.events, id) <= Timeouts(t.events, id) + 1
  }

  lemma AnswerSettles(t: Tables, e: Tables, event: Event, id: string)
    requires e.events == t.events + [event] && event.source != TIMEOUT
    requires IsDecided(t, id) ==> IsDecided(e, id)
    ensures Settles(t, e, id)
  {
    TimeoutsSnoc(t.events, event, id);
  }

  lemma SourcesDiffer()
    ensures Origin(true) != TIMEOUT && Origin(false) != TIMEOUT && "qnx" != TIMEOUT && "manual" != TIMEOUT
  {
    assert |Origin(true)| != |TIMEOUT| && |Origin(false)| != |TIMEOUT| && |"qnx"| != |TIMEOUT|;
  }

  lemma EscalationSettles(t: Tables, escalated: string, now: int, id: string)
    requires CanEscalate(t, escalated)
    ensures Settles(t, Escalation(t, escalated, now), id)
  {
    TimeoutsSnoc(t.events, Event(escalated, "NO_OCCUPANT_RESPONSE", TIMEOUT), id);
  }

  lemma CallSettles(c: Settings, w: World, called: string, now: int, id: string)
    ensures Settles(w.tables, Called(c, w, called, now).tables, id)
  {
  }

  lemma ConfirmSettles(c: Settings, w: World, i: string, voice: bool, now: int, id: string)
    ensures Settles(w.tables, Next(c, w, Confirm(i, voice, now)).tables, id)
  {
    SourcesDiffer();
    if CanConfirm(w.tables, i) {
      AnswerSettles(w.tables, Next(c, w, Confirm(i, voice, now)).tables,
                    Event(i, "OCCUPANT_CONFIRMED", Origin(voice)), id);
    }
  }

  lemma CancelSettles(c: Settings, w: World, i: string, reason: string, voice: bool, now: int, id: string)
    ensures Settles(w.tables, Next(c, w, Cancel(i, reason, voice, now)).tables, id)
  {
    SourcesDiffer();
    if CanCancel(w.tables, i) {
      AnswerSettles(w.tables, Next(c, w, Cancel(i, reason, voice, now)).tables,
                    Event(i, "ESCALATION_CANCELLED", Origin(voice)), id);
    }
  }

  lemma ResetSettles(c: Settings, w: World, i: string, now: int, id: string)
    ensures Settles(w.tables, Next(c, w, Reset(i, now)).tables, id)
  {
    SourcesDiffer();
    if CanReset(w.tables, i) {
      AnswerSettles(w.tables, Next(c, w, Reset(i, now)).tables, Event(i, "MANUAL_RESET", "manual"), id);
    }
  }

  lemma DeviceEventSettles(c: Settings, w: World, i: string, eventType: string, id: string)
    ensures Settles(w.tables, Next(c, w, DeviceEvent(i, eventType)).tables, id)
  {
    SourcesDiffer();
    if i in w.tables.incidents {
      AnswerSettles(w.tables, Next(c, w, DeviceEvent(i, eventType)).tables, Event(i, eventType, "qnx"), id);
    }
  }

  lemma FireSettles(c: Settings, w: World, timer: nat, now: int, id: string)
    ensures Settles(w.tables, Next(c, w, Fire(timer, now)).tables, id)
  {
    if timer < |w.timers| && w.timers[timer].Sleeping? && CanEscalate(w.tables, w.timers[timer].incident) {
      EscalationSettles(w.tables, w.timers[timer].incident, now, id);
    }
  }

  lemma TimerCallSettles(c: Settings, w: World, timer: nat, now: int, id: string)
    ensures Settles(w.tables, Next(c, w, TimerCall(timer, now)).tables, id)
  {
    if timer < |w.timers| && w.timers[timer].Escalated? {
      CallSettles(c, w, w.timers[timer].incident, now, id);
    }
  }

  lemma StepSettles(c: Settings, w: World, s: Step, id: string)
    ensures Settles(w.tables, Next(c, w, s).tables, id)
  {
    match s
    case Dispatch(i, now) => CallSettles(c, w, i, now, id);
    case TimerCall(timer, now) => TimerCallSettles(c, w, timer, now, id);
    case Fire(timer, now) => FireSettles(c, w, timer, now, id);
    case DeviceEvent(i, eventType) => DeviceEventSettles(c, w, i, eventType, id);
    case Confirm(i, voice, now) => ConfirmSettles(c, w, i, voice, now, id);
    case Cancel(i, reason, voice, now) => CancelSettles(c, w, i, reason, voice, now, id);
    case Reset(i, now) => ResetSettles(c, w, i, now, id);
    case _ =>
  }

  lemma DecidedOnward(c: Settings, steps: seq<Step>, k: nat, id: string)
    requires k < |steps| && IsDecided(Run(c, steps[..k]).tables, id)
    ensures IsDecided(Run(c, steps[..k + 1]).tables, id)
    ensures Timeouts(Run(c, steps[..k + 1]).tables.events, id) == Timeouts(Run(c, steps[..k]).tables.events, id)
  {
    var w, s := Run(c, steps[..k]), steps[k];
    StepSettles(c, w, s, id);
    RunStep(c, steps, k);
  }

  /** Decided responses are absorbing: once an incident's response is decided it stays so under every
      interleaving, and no timeout event follows. */
  lemma {:induction false} DecidedStays(c: Settings, steps: seq<Step>, i: nat, j: nat, id: string)
    requires i <= j <= |steps| && IsDecided(Run(c, steps[..i]).tables, id)
    ensures IsDecided(Run(c, steps[..j]).tables, id)
    ensures Timeouts(Run(c, steps[..j]).tables.events, id) == Timeouts(Run(c, steps[..i]).tables.events, id)
  {
    if i < j {
      DecidedStays(c, steps, i, j - 1, id);
      DecidedOnward(c, steps, j - 1, id);
    }
  }

  /** Each incident gets at most one timeout event, and only together with a decided response. */
  lemma {:induction false} AtMostOneTimeout(c: Settings, steps: seq<Step>, id: string)
    ensures Timeouts(Run(c, steps).tables.events, id) <= 1
    ensures Timeouts(Run(c, steps).tables.events, id) == 1 ==> IsDecided(Run(c, steps).tables, id)
  {
    if steps != [] {
      var front := steps[..|steps| - 1];
      AtMostOneTimeout(c, front, id);
      StepSettles(c, Run(c, front), steps[|steps| - 1], id);
    }
  }
}
