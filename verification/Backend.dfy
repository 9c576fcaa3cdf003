/** The backend's objects: the response timeout manager and the request handlers over the store.  Each
    method is one stretch between two suspension points, and does what its step in `CallPolicy` says. */
module Backend {
  import Incident
  import opened Database
  import opened CallPolicy
  import RateLimit
  import SlidingBudget
  import opened Wrappers

  /** `ResponseTimeoutManager`; `timers` stands for the tasks the event loop runs. */
  class TimeoutManager {
    const store: Store
    var tasks: map<string, nat>
    var timers: seq<Timer>

    constructor (store: Store)
      ensures this.store == store && tasks == map[] && timers == []
    {
      this.store, tasks, timers := store, map[], [];
    }

    method Observe(id: string)
      modifies this
      ensures old(CanObserve(World(store.View(), tasks, timers, {}, false), id)) ==>
                tasks == old(tasks)[id := |old(timers)|] && timers == old(timers) + [Sleeping(id)]
      ensures !old(CanObserve(World(store.View(), tasks, timers, {}, false), id)) ==>
                tasks == old(tasks) && timers == old(timers)
    {
      if id !in store.incidents || store.incidents[id].response != Incident.AwaitingResponse {
        return;
      }
      if id !in tasks || tasks[id] >= |timers| || timers[tasks[id]].Over? {
        tasks := tasks[id := |timers|];
        timers := timers + [Sleeping(id)];
      }
    }

    /** `stopped` is the attempt whose provider request the cancellation of the task interrupts. */
    method Cancel(id: string) returns (stopped: set<nat>)
      modifies this
      ensures forall w: World :: w.tasks == old(tasks) && w.timers == old(timers) ==>
                tasks == TimerCancelled(w, id).tasks && timers == TimerCancelled(w, id).timers &&
                stopped == Abandoned(w, id)
    {
      stopped := {};
      if id in tasks && tasks[id] < |timers| {
        stopped := Awaited(timers[tasks[id]]);
        timers := timers[tasks[id] := Interrupted(timers[tasks[id]])];
      }
      tasks := tasks - {id};
    }

    /** `_wait` from the end of its sleep to its next suspension or its end. */
    method Wake(timer: nat, now: int)
      requires timer < |timers| && timers[timer].Sleeping?
      modifies this, store
      ensures var w := old(World(store.View(), tasks, timers, {}, false));
              store.View() == Fired(w, timer, now).tables && tasks == Fired(w, timer, now).tasks &&
              timers == Fired(w, timer, now).timers
    {
      var id := timers[timer].incident;
      if id !in store.incidents {
        End(timer);
        return;
      }
      if store.incidents[id].response != Incident.AwaitingResponse {
        End(timer);
        return;
      }
      if store.incidents[id].hazard != Incident.Confirmed &&
         store.incidents[id].hazard != Incident.VisualSignatureLost {
        End(timer);
        return;
      }
      var found := store.UpdateIncidentResponse(id, Incident.Escalating, Some("no_response"), None, now);
      store.AddEvent(Event(id, "NO_OCCUPANT_RESPONSE", TIMEOUT));
      timers := timers[timer := Escalated(id)];
    }

    /** The `finally` clause of a task. */
    method End(timer: nat)
      requires timer < |timers| && !timers[timer].Over?
      modifies this
      ensures tasks == old(tasks) - {old(timers)[timer].incident} && timers == old(timers)[timer := Over]
    {
      tasks := tasks - {timers[timer].incident};
      timers := timers[timer := Over];
    }
  }

  /** The handlers, with the call requests whose provider has not answered. */
  class Api {
    const settings: Settings
    const store: Store
    const timeouts: TimeoutManager
    const limiter: RateLimit.RateLimiter
    var inFlight: set<nat>
    var armed: bool

    ghost predicate Valid() {
      timeouts.store == store
    }

    ghost function View(): World
      reads this, store, timeouts
    {
      World(store.View(), timeouts.tasks, timeouts.timers, inFlight, armed)
    }

    /** The client has actions left in the window that ends now. */
    ghost predicate MayAct(client: string, clock: real)
      reads limiter
    {
      SlidingBudget.Grants(limiter.Rule(), RateLimit.Get(limiter.requests, client), clock)
    }

    /** The limiter's requests after this action is granted or refused. */
    ghost function Charged(client: string, clock: real): map<string, seq<real>>
      reads limiter
    {
      limiter.requests[client :=
        SlidingBudget.Attempted(limiter.Rule(), RateLimit.Get(limiter.requests, client), clock)]
    }

    constructor (settings: Settings, actionsPerMinute: int)
      ensures Valid() && View() == START && this.settings == settings
      ensures fresh(store) && fresh(timeouts) && fresh(limiter)
      ensures limiter.requests == map[] && limiter.Rule() == SlidingBudget.Budget(actionsPerMinute, 60.0, false)
    {
      var s := new Store();
      var t := new TimeoutManager(s);
      var l := new RateLimit.RateLimiter(actionsPerMinute, 60.0);
      this.settings, store, timeouts, limiter, inFlight, armed := settings, s, t, l, {}, false;
    }

    method PutArming(client: string, clock: real, on: bool) returns (done: bool)
      modifies this, limiter
      ensures limiter.requests == old(Charged(client, clock))
      ensures done == old(MayAct(client, clock))
      ensures View() == if done then Next(settings, old(View()), Arm(on)) else old(View())
    {
      done := limiter.Allow(client, clock);
      if done {
        armed := on;
      }
    }

    /** An incident update from the device; it is dropped while the system is not armed. */
    method ReceiveUpdate(id: string, u: Update, now: int)
      requires Valid()
      modifies store
      ensures View() == Next(settings, old(View()), DeviceUpdate(id, u, now))
    {
      if !armed {
        return;
      }
      store.UpsertIncident(id, u, now);
    }

    /** The observer the update's stretch ends with. */
    method ObserveIncident(id: string)
      requires Valid()
      modifies timeouts
      ensures View() == Next(settings, old(View()), CallPolicy.Observe(id))
    {
      timeouts.Observe(id);
    }

    /** The incident's task is cancelled, and with it the provider request that it awaits. */
    method StopTimer(id: string)
      requires Valid()
      modifies this`inFlight, timeouts
      ensures View() == TimerCancelled(old(View()), id)
    {
      var stopped := timeouts.Cancel(id);
      inFlight := inFlight - stopped;
    }

    method Confirm(client: string, clock: real, id: string, voice: bool, now: int) returns (done: bool)
      requires Valid()
      modifies this`inFlight, store, timeouts, limiter
      ensures limiter.requests == old(Charged(client, clock))
      ensures done == (old(MayAct(client, clock)) && CanConfirm(old(View()).tables, id))
      ensures View() == if old(MayAct(client, clock))
              then Next(settings, old(View()), CallPolicy.Confirm(id, voice, now)) else old(View())
    {
      var allowed := limiter.Allow(client, clock);
      if !allowed {
        return false;
      }
      if id !in store.incidents {
        return false;
      }
      var stored := store.incidents[id];
      if stored.hazard != Incident.Confirmed && stored.hazard != Incident.VisualSignatureLost {
        return false;
      }
      if stored.response == Incident.Cancelled {
        return false;
      }
      StopTimer(id);
      var found := store.UpdateIncidentResponse(id, Incident.Escalating, Some("confirmed"), None, now);
      store.AddEvent(Event(id, "OCCUPANT_CONFIRMED", Origin(voice)));
      return true;
    }

    method Cancel(client: string, clock: real, id: string, reason: string, voice: bool, now: int) returns (done: bool)
      requires Valid()
      modifies this`inFlight, store, timeouts, limiter
      ensures limiter.requests == old(Charged(client, clock))
      ensures done == (old(MayAct(client, clock)) && CanCancel(old(View()).tables, id))
      ensures View() == if old(MayAct(client, clock))
              then Next(settings, old(View()), CallPolicy.Cancel(id, reason, voice, now)) else old(View())
    {
      var allowed := limiter.Allow(client, clock);
      if !allowed {
        return false;
      }
      if id !in store.incidents {
        return false;
      }
      var stored := store.incidents[id];
      if stored.response == Incident.CallConnected || stored.response == Incident.CallCompleted {
        return false;
      }
      StopTimer(id);
      var found := store.UpdateIncidentResponse(id, Incident.Cancelled, Some(reason), None, now);
      store.AddEvent(Event(id, "ESCALATION_CANCELLED", Origin(voice)));
      return true;
    }

    method Reset(client: string, clock: real, id: string, now: int) returns (done: bool)
      requires Valid()
      modifies store, limiter
      ensures limiter.requests == old(Charged(client, clock))
      ensures done == (old(MayAct(client, clock)) && CanReset(old(View()).tables, id))
      ensures View() == if old(MayAct(client, clock))
              then Next(settings, old(View()), CallPolicy.Reset(id, now)) else old(View())
    {
      var allowed := limiter.Allow(client, clock);
      if !allowed {
        return false;
      }
      if id !in store.incidents {
        return false;
      }
      var stored := store.incidents[id];
      if stored.response != Incident.Cancelled && stored.response != Incident.CallCompleted &&
         stored.response != Incident.CallFailed {
        return false;
      }
      var found := store.UpdateIncidentResponse(id, stored.response, stored.occupantResponse,
          Some(Incident.Resolved), now);
      store.AddEvent(Event(id, "MANUAL_RESET", "manual"));
      return true;
    }

    /** `request_demo_call` up to the provider's request, or to its end for the mock provider. */
    method RequestDemoCall(id: string, now: int) returns (refusal: Option<CallError>)
      requires Valid()
      modifies this, store
      ensures refusal == CallVerdict(settings, old(View()).tables, id, now)
      ensures View() == Called(settings, old(View()), id, now)
    {
      if !settings.demoCalls {
        return Some(DemoCallsDisabled);
      }
      if !settings.destinationAllowed {
        return Some(DestinationRefused);
      }
      if id !in store.incidents {
        return Some(IncidentNotFound);
      }
      var incident := store.incidents[id];
      if incident.confirmedAt.None? {
        return Some(NotVisuallyConfirmed);
      }
      if incident.response == Incident.Cancelled {
        return Some(IncidentCancelled);
      }
      if !settings.mockProvider && !settings.providerConfigured {
        return Some(ProviderNotConfigured);
      }
      var reserved := store.ReserveCallAttempt(id, settings.cooldown, settings.maxCalls, now);
      if reserved.Failure? {
        return Some(reserved.error);
      }
      if settings.mockProvider {
        var done := store.UpdateCallAttempt(reserved.value, INITIATED);
      } else {
        inFlight := inFlight + {reserved.value};
      }
      return None;
    }

    method CallDemoDispatch(client: string, clock: real, id: string, now: int) returns (refusal: Option<CallError>)
      requires Valid()
      modifies this, store, limiter
      ensures limiter.requests == old(Charged(client, clock))
      ensures View() == if old(MayAct(client, clock))
              then Next(settings, old(View()), Dispatch(id, now)) else old(View())
      ensures old(!MayAct(client, clock)) ==> refusal == Some(ActionRateLimitExceeded)
      ensures old(MayAct(client, clock) && !armed) ==> refusal == Some(SystemUnarmed)
      ensures old(MayAct(client, clock) && armed) ==> refusal.None? == Places(settings, old(View()).tables, id, now)
    {
      var allowed := limiter.Allow(client, clock);
      if !allowed {
        return Some(ActionRateLimitExceeded);
      }
      if !armed {
        return Some(SystemUnarmed);
      }
      if id !in store.incidents {
        return Some(IncidentNotFound);
      }
      refusal := RequestDemoCall(id, now);
    }

    /** The provider's answer to a request: accepted, timed out, or refused. */
    method ResolveCall(attempt: nat, status: CallStatus)
      requires Valid() && CanResolve(View(), attempt, status)
      modifies this, store
      ensures View() == Next(settings, old(View()), Outcome(attempt, status))
    {
      var done := store.UpdateCallAttempt(attempt, status);
      inFlight := inFlight - {attempt};
    }

    /** A request whose answer cannot be read, or whose handler fails, is not heard of again. */
    method LoseCall(attempt: nat)
      requires Valid()
      modifies this`inFlight
      ensures View() == Next(settings, old(View()), Lost(attempt))
    {
      inFlight := inFlight - {attempt};
    }

    /** `matches` is whether the callback carried the configured secret; without one none is accepted. */
    method ProviderCallStatus(matches: bool, id: string, status: CallStatus) returns (accepted: bool)
      requires Valid() && (status == CONNECTED || status == COMPLETED || status == FAILED)
      modifies store
      ensures accepted == (matches && CanReport(settings, old(View()), id, status))
      ensures View() == if matches then Next(settings, old(View()), Webhook(id, status)) else old(View())
    {
      if !settings.webhooks || !matches {
        return false;
      }
      var k := LastAttempt(store.attempts, id);
      if k == |store.attempts| {
        return false;
      }
      accepted := store.UpdateCallAttempt(k, status);
    }

    /** The timeout of an incident ends its sleep. */
    method FireTimer(timer: nat, now: int)
      requires Valid() && timer < |timeouts.timers| && timeouts.timers[timer].Sleeping?
      modifies store, timeouts
      ensures View() == Next(settings, old(View()), Fire(timer, now))
    {
      timeouts.Wake(timer, now);
    }

    /** The call of an escalated task, up to the provider's request. */
    method CallFromTimer(timer: nat, now: int)
      requires Valid() && timer < |timeouts.timers| && timeouts.timers[timer].Escalated?
      modifies this, store, timeouts
      ensures View() == Next(settings, old(View()), TimerCall(timer, now))
    {
      if !settings.demoCalls {
        return;
      }
      var id := timeouts.timers[timer].incident;
      var attempt := |store.attempts|;
      var refusal := RequestDemoCall(id, now);
      var asked := if refusal.None? && !settings.mockProvider then Some(attempt) else None;
      timeouts.timers := timeouts.timers[timer := Calling(id, asked)];
    }

    /** The end of a task that was asked to stop or awaits no answer. */
    method EndTimer(timer: nat)
      requires Valid() && CanEnd(View(), timer)
      modifies timeouts
      ensures View() == Next(settings, old(View()), TimerEnd(timer))
    {
      timeouts.End(timer);
    }
  }
}
