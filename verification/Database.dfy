/** The backend's tables and the transactions on them. */
module Database {
  import Incident
  import opened Wrappers

  type Hazard = Incident.Hazard
  type Response = Incident.Response

  datatype CallStatus = REQUESTED | INITIATED | UNKNOWN | CONNECTED | COMPLETED | FAILED

  /** The columns of an incident that the response and call policy read or write. */
  datatype Row = Row(
    hazard: Hazard,
    response: Response,
    confirmedAt: Option<int>,
    resolvedAt: Option<int>,
    occupantResponse: Option<string>,
    callStatus: Option<CallStatus>)

  datatype Attempt = Attempt(incident: string, status: CallStatus, requestedAt: int)

  datatype Event = Event(incident: string, eventType: string, source: string)

  /** The id of an attempt is its place in the table. */
  datatype Tables = Tables(incidents: map<string, Row>, attempts: seq<Attempt>, events: seq<Event>)

  const EMPTY := Tables(map[], [], [])

  /** A response that device updates no longer overwrite. */
  predicate Decided(r: Response) {
    r != Incident.Idle && r != Incident.AwaitingResponse
  }

  /** Every status but FAILED is in the list of active ones. */
  predicate Active(s: CallStatus) {
    s == REQUESTED || s == INITIATED || s == UNKNOWN || s == CONNECTED || s == COMPLETED
  }

  // ---------------------------------------------------------------- upsert_incident

  datatype Update = Update(hazard: Hazard, response: Response)

  function Merged(t: Tables, id: string, u: Update, now: int): Row {
    var known := id in t.incidents;
    var row := if known then t.incidents[id] else Row(u.hazard, u.response, None, None, None, None);
    Row(hazard := u.hazard,
        response := if known && Decided(row.response) then row.response else u.response,
        confirmedAt := if row.confirmedAt.Some? then row.confirmedAt
                       else if u.hazard == Incident.Confirmed then Some(now) else None,
        resolvedAt := if u.hazard == Incident.Resolved then Some(now) else row.resolvedAt,
        occupantResponse := row.occupantResponse,
        callStatus := row.callStatus)
  }

  function Upserted(t: Tables, id: string, u: Update, now: int): Tables {
    t.(incidents := t.incidents[id := Merged(t, id, u, now)])
  }

  // ---------------------------------------------------------------- update_incident_response

  function Responded(t: Tables, id: string, response: Response, occupant: Option<string>, now: int): Tables
    requires id in t.incidents
  {
    var row := t.incidents[id];
    t.(incidents := t.incidents[id := row.(
      response := response,
      occupantResponse := if occupant.Some? then occupant else row.occupantResponse)])
  }

  /** The form that also sets the hazard state, as the reset does. */
  function RespondedWithHazard(t: Tables, id: string, response: Response, occupant: Option<string>,
                               hazard: Hazard, now: int)
    : Tables
    requires id in t.incidents
  {
    var row := t.incidents[id];
    t.(incidents := t.incidents[id := row.(
      response := response,
      occupantResponse := occupant,
      hazard := hazard,
      resolvedAt := if hazard == Incident.Resolved then Some(now) else row.resolvedAt)])
  }

  function WithEvent(t: Tables, e: Event): Tables {
    t.(events := t.events + [e])
  }

  // ---------------------------------------------------------------- reserve_call_attempt

  datatype CallError =
    | ActionRateLimitExceeded | SystemUnarmed | DemoCallsDisabled | DestinationRefused
    | IncidentNotFound | NotVisuallyConfirmed | IncidentCancelled
    | ProviderNotConfigured | DuplicateOrMaxCallsReached | GlobalCallCooldown

  function ActiveCount(attempts: seq<Attempt>, id: string): nat {
    if attempts == [] then 0
    else
      var a := attempts[|attempts| - 1];
      ActiveCount(attempts[..|attempts| - 1], id) + if a.incident == id && Active(a.status) then 1 else 0
  }

  /** The latest request time among the active attempts of all incidents. */
  function LatestActive(attempts: seq<Attempt>): Option<int> {
    if attempts == [] then None
    else
      var earlier, a := LatestActive(attempts[..|attempts| - 1]), attempts[|attempts| - 1];
      if Active(a.status) && (earlier.None? || a.requestedAt > earlier.value) then Some(a.requestedAt) else earlier
  }

  predicate InCooldown(attempts: seq<Attempt>, cooldown: int, now: int) {
    LatestActive(attempts).Some? && LatestActive(attempts).value + cooldown > now
  }

  function ReserveVerdict(t: Tables, id: string, cooldown: int, maxCalls: nat, now: int): Option<CallError> {
    if id !in t.incidents then Some(IncidentNotFound)
    else if t.incidents[id].confirmedAt.None? then Some(NotVisuallyConfirmed)
    else if t.incidents[id].response == Incident.Cancelled then Some(IncidentCancelled)
    else if ActiveCount(t.attempts, id) >= maxCalls then Some(DuplicateOrMaxCallsReached)
    else if InCooldown(t.attempts, cooldown, now) then Some(GlobalCallCooldown)
    else None
  }

  function Reserved(t: Tables, id: string, now: int): Tables
    requires id in t.incidents
  {
    t.(attempts := t.attempts + [Attempt(id, REQUESTED, now)],
       incidents := t.incidents[id :=
         t.incidents[id].(response := Incident.CallRequested, callStatus := Some(REQUESTED))])
  }

  // ---------------------------------------------------------------- update_call_attempt

  function ResponseOf(s: CallStatus): Response {
    match s
    case REQUESTED => Incident.CallRequested
    case INITIATED => Incident.CallInitiated
    case UNKNOWN => Incident.CallInitiated
    case CONNECTED => Incident.CallConnected
    case COMPLETED => Incident.CallCompleted
    case FAILED => Incident.CallFailed
  }

  function Attempted(t: Tables, attempt: nat, status: CallStatus): Tables
    requires attempt < |t.attempts|
  {
    var id := t.attempts[attempt].incident;
    t.(attempts := t.attempts[attempt := t.attempts[attempt].(status := status)],
       incidents := if id in t.incidents
                    then t.incidents[id := t.incidents[id].(response := ResponseOf(status), callStatus := Some(status))]
                    else t.incidents)
  }

  /** The last attempt of an incident, or the number of attempts when it has none. */
  function LastAttempt(attempts: seq<Attempt>, id: string): (k: nat)
    ensures k <= |attempts|
    ensures k < |attempts| ==> attempts[k].incident == id
    ensures forall i :: k < i < |attempts| ==> attempts[i].incident != id
    ensures k == |attempts| ==> forall i :: 0 <= i < |attempts| ==> attempts[i].incident != id
  {
    if attempts == [] then 0
    else
      var n := |attempts| - 1;
      if attempts[n].incident == id then n
      else
        var k := LastAttempt(attempts[..n], id);
        if k < n then k else |attempts|
  }

  // ---------------------------------------------------------------- the object

  class Store {
    var incidents: map<string, Row>
    var attempts: seq<Attempt>
    var events: seq<Event>

    function View(): Tables
      reads this
    {
      Tables(incidents, attempts, events)
    }

    constructor ()
      ensures View() == EMPTY
    {
      incidents, attempts, events := map[], [], [];
    }

    method UpsertIncident(id: string, u: Update, now: int)
      modifies this`incidents
      ensures View() == Upserted(old(View()), id, u, now)
    {
      var confirmedAt := if u.hazard == Incident.Confirmed then Some(now) else None;
      var resolvedAt := if u.hazard == Incident.Resolved then Some(now) else None;
      if id !in incidents {
        incidents := incidents[id := Row(u.hazard, u.response, confirmedAt, resolvedAt, None, None)];
      } else {
        var row := incidents[id];
        incidents := incidents[id := row.(
          hazard := u.hazard,
          response := if Decided(row.response) then row.response else u.response,
          confirmedAt := if row.confirmedAt.Some? then row.confirmedAt else confirmedAt,
          resolvedAt := if resolvedAt.Some? then resolvedAt else row.resolvedAt)];
      }
    }

    method UpdateIncidentResponse(id: string, response: Response, occupant: Option<string>,
                                  hazard: Option<Hazard>, now: int)
      returns (found: bool)
      modifies this`incidents
      ensures found == (id in old(incidents))
      ensures View() == if !found then old(View())
                        else if hazard.Some? then
                          RespondedWithHazard(old(View()), id, response, occupant, hazard.value, now)
                        else Responded(old(View()), id, response, occupant, now)
    {
      if id !in incidents {
        return false;
      }
      var row := incidents[id];
      if hazard.Some? {
        var resolvedAt := if hazard.value == Incident.Resolved then Some(now) else row.resolvedAt;
        row := row.(response := response, occupantResponse := occupant, hazard := hazard.value,
                    resolvedAt := resolvedAt);
      } else {
        row := row.(response := response,
                    occupantResponse := if occupant.Some? then occupant else row.occupantResponse);
      }
      incidents := incidents[id := row];
      return true;
    }

    method AddEvent(e: Event)
      modifies this`events
      ensures View() == WithEvent(old(View()), e)
    {
      events := events + [e];
    }

    method ReserveCallAttempt(id: string, cooldown: int, maxCalls: nat, now: int) returns (r: Result<nat, CallError>)
      modifies this`incidents, this`attempts
      ensures var verdict := ReserveVerdict(old(View()), id, cooldown, maxCalls, now);
              && (verdict.Some? ==> r == Failure(verdict.value) && View() == old(View()))
              && (verdict.None? ==> r == Success(|old(attempts)|) && View() == Reserved(old(View()), id, now))
    {
      if id !in incidents {
        return Failure(IncidentNotFound);
      }
      if incidents[id].confirmedAt.None? {
        return Failure(NotVisuallyConfirmed);
      }
      if incidents[id].response == Incident.Cancelled {
        return Failure(IncidentCancelled);
      }
      if ActiveCount(attempts, id) >= maxCalls {
        return Failure(DuplicateOrMaxCallsReached);
      }
      var latest := LatestActive(attempts);
      if latest.Some? && latest.value + cooldown > now {
        return Failure(GlobalCallCooldown);
      }
      r := Success(|attempts|);
      attempts := attempts + [Attempt(id, REQUESTED, now)];
      incidents := incidents[id := incidents[id].(response := Incident.CallRequested, callStatus := Some(REQUESTED))];
    }

    /** A status that no outcome has, REQUESTED, is refused like an unknown attempt. */
    method UpdateCallAttempt(attempt: nat, status: CallStatus) returns (done: bool)
      modifies this`incidents, this`attempts
      ensures done == (attempt < |old(attempts)| && status != REQUESTED)
      ensures View() == if done then Attempted(old(View()), attempt, status) else old(View())
    {
      if attempt >= |attempts| || status == REQUESTED {
        return false;
      }
      var id := attempts[attempt].incident;
      attempts := attempts[attempt := attempts[attempt].(status := status)];
      if id in incidents {
        incidents := incidents[id := incidents[id].(response := ResponseOf(status), callStatus := Some(status))];
      }
      return true;
    }
  }

  // ---------------------------------------------------------------- counting attempts

  lemma {:induction false} NoLaterThanLatest(attempts: seq<Attempt>, i: nat)
    requires i < |attempts| && Active(attempts[i].status)
    ensures LatestActive(attempts).Some? && attempts[i].requestedAt <= LatestActive(attempts).value
  {
    if i < |attempts| - 1 {
      NoLaterThanLatest(attempts[..|attempts| - 1], i);
    }
  }

  lemma CountSnoc(attempts: seq<Attempt>, a: Attempt, id: string)
    ensures ActiveCount(attempts + [a], id) ==
            ActiveCount(attempts, id) + if a.incident == id && Active(a.status) then 1 else 0
  {
    assert (attempts + [a])[..|attempts|] == attempts;
  }

  /** A changed status changes the count of its own incident by what it says. */
  lemma {:induction false} CountUpdated(attempts: seq<Attempt>, k: nat, status: CallStatus, id: string)
    requires k < |attempts|
    ensures ActiveCount(attempts[k := attempts[k].(status := status)], id) ==
            ActiveCount(attempts, id)
            - (if attempts[k].incident == id && Active(attempts[k].status) then 1 else 0)
            + (if attempts[k].incident == id && Active(status) then 1 else 0)
  {
    var n := |attempts| - 1;
    var changed := attempts[k := attempts[k].(status := status)];
    if k < n {
      CountUpdated(attempts[..n], k, status, id);
      assert changed[..n] == attempts[..n][k := attempts[k].(status := status)];
    } else {
      assert changed[..n] == attempts[..n];
    }
  }

  /** A reservation that is not in cooldown comes at least the cooldown after every active attempt. */
  lemma CooldownMeans(attempts: seq<Attempt>, cooldown: int, now: int)
    requires !InCooldown(attempts, cooldown, now)
    ensures forall i :: 0 <= i < |attempts| && Active(attempts[i].status) ==> attempts[i].requestedAt + cooldown <= now
  {
    forall i: nat | i < |attempts| && Active(attempts[i].status)
      ensures attempts[i].requestedAt + cooldown <= now
    {
      NoLaterThanLatest(attempts, i);
    }
  }
}
