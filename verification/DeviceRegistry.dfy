/** Device connections on the backend: the registry, the stored device rows, and their agreement in
    every interleaving of connections.  A stretch of code between two suspension points is one step;
    the registry's lock is never contended, so taking it does not suspend. */
module DeviceRegistry {

  /** What a HELLO packet says, the token aside from its comparison. */
  datatype Hello = Hello(complete: bool, version: int, deviceId: string, bootId: string, tokenMatches: bool)

  datatype Rejection = MissingFields | VersionMismatch | UnknownDevice | AuthenticationFailed

  datatype Verdict = Accepted | Rejected(why: Rejection)

  function Check(expected: string, h: Hello): Verdict {
    if !h.complete then Rejected(MissingFields)
    else if h.version != 1 then Rejected(VersionMismatch)
    else if h.deviceId != expected then Rejected(UnknownDevice)
    else if !h.tokenMatches then Rejected(AuthenticationFailed)
    else Accepted
  }

  /** A connection is known by its writer. */
  datatype Connection = Connection(deviceId: string, bootId: string, writer: nat)

  datatype Device = Device(bootId: string, connected: bool)

  /** The registry, the device table and the writers that were closed. */
  datatype Tables = Tables(connections: map<string, Connection>, devices: map<string, Device>, closed: set<nat>)

  const EMPTY := Tables(map[], map[], {})

  function Holder(t: Tables, deviceId: string): set<nat> {
    if deviceId in t.connections then {t.connections[deviceId].writer} else {}
  }

  function Registered(t: Tables, c: Connection): Tables {
    t.(connections := t.connections[c.deviceId := c], closed := t.closed + (Holder(t, c.deviceId) - {c.writer}))
  }

  predicate IsCurrent(t: Tables, deviceId: string, writer: nat) {
    deviceId in t.connections && t.connections[deviceId].writer == writer
  }

  function Unregistered(t: Tables, deviceId: string, writer: nat): Tables {
    if IsCurrent(t, deviceId, writer) then t.(connections := t.connections - {deviceId}) else t
  }

  function Upserted(t: Tables, h: Hello): Tables {
    t.(devices := t.devices[h.deviceId := Device(h.bootId, true)])
  }

  function Marked(t: Tables, deviceId: string, bootId: string): Tables {
    if deviceId in t.devices && t.devices[deviceId].bootId == bootId
    then t.(devices := t.devices[deviceId := Device(bootId, false)])
    else t
  }

  function Admitted(t: Tables, writer: nat, h: Hello): Tables {
    Upserted(Registered(t, Connection(h.deviceId, h.bootId, writer)), h)
  }

  /** The end of an authenticated connection. */
  function TornDown(t: Tables, writer: nat, h: Hello): Tables {
    var after := Unregistered(t, h.deviceId, writer);
    var marked := if IsCurrent(t, h.deviceId, writer) then Marked(after, h.deviceId, h.bootId) else after;
    marked.(closed := marked.closed + {writer})
  }

  class Server {
    const expected: string
    var connections: map<string, Connection>
    var devices: map<string, Device>
    var closed: set<nat>

    ghost function View(): Tables
      reads this
    {
      Tables(connections, devices, closed)
    }

    constructor (expected: string)
      ensures View() == EMPTY && this.expected == expected
    {
      this.expected, connections, devices, closed := expected, map[], map[], {};
    }

    method Register(c: Connection)
      modifies this`connections, this`closed
      ensures View() == Registered(old(View()), c)
    {
      if c.deviceId in connections {
        var previous := connections[c.deviceId];
        connections := connections[c.deviceId := c];
        if previous.writer != c.writer && previous.writer !in closed {
          closed := closed + {previous.writer};
        }
      } else {
        connections := connections[c.deviceId := c];
      }
    }

    method Unregister(deviceId: string, writer: nat) returns (wasCurrent: bool)
      modifies this`connections
      ensures View() == Unregistered(old(View()), deviceId, writer)
      ensures wasCurrent == IsCurrent(old(View()), deviceId, writer)
    {
      if deviceId in connections && connections[deviceId].writer == writer {
        connections := connections - {deviceId};
        return true;
      }
      return false;
    }

    method UpsertDevice(h: Hello)
      modifies this`devices
      ensures View() == Upserted(old(View()), h)
    {
      devices := devices[h.deviceId := Device(h.bootId, true)];
    }

    method MarkDeviceDisconnected(deviceId: string, bootId: string)
      modifies this`devices
      ensures View() == Marked(old(View()), deviceId, bootId)
    {
      if deviceId in devices && devices[deviceId].bootId == bootId {
        devices := devices[deviceId := Device(bootId, false)];
      }
    }

    method Authenticate(writer: nat, h: Hello) returns (verdict: Verdict)
      modifies this
      ensures verdict == Check(expected, h)
      ensures View() == if verdict == Accepted then Admitted(old(View()), writer, h) else old(View())
    {
      if !h.complete {
        return Rejected(MissingFields);
      }
      if h.version != 1 {
        return Rejected(VersionMismatch);
      }
      if h.deviceId != expected {
        return Rejected(UnknownDevice);
      }
      if !h.tokenMatches {
        return Rejected(AuthenticationFailed);
      }
      Register(Connection(h.deviceId, h.bootId, writer));
      UpsertDevice(h);
      return Accepted;
    }

    method Teardown(writer: nat, h: Hello)
      modifies this
      ensures View() == TornDown(old(View()), writer, h)
    {
      var wasCurrent := Unregister(h.deviceId, writer);
      if wasCurrent {
        MarkDeviceDisconnected(h.deviceId, h.bootId);
      }
      closed := closed + {writer};
    }
  }

  // ---------------------------------------------------------------- interleavings

  /** A connection waits for its HELLO, acknowledges it, serves the device, or has ended. */
  datatype Phase = Waiting | Acknowledging(hello: Hello) | Serving(hello: Hello) | Ended

  datatype World = World(tables: Tables, phases: map<nat, Phase>)

  /** `Interrupt` is any exception that escapes while the acknowledgement is sent and announced, before the
      connection remembers its HELLO: a cancellation of its task, or an error of the socket other than a
      broken connection or a time-out. */
  datatype Event =
    | Connect(writer: nat)
    | Greet(writer: nat, hello: Hello)
    | Acknowledge(writer: nat)
    | Disconnect(writer: nat)
    | Interrupt(writer: nat)

  function PhaseOf(w: World, writer: nat): Phase {
    if writer in w.phases then w.phases[writer] else Ended
  }

  function Close(w: World, writer: nat): World {
    World(w.tables.(closed := w.tables.closed + {writer}), w.phases[writer := Ended])
  }

  /** One step; one that does not fit the connection's phase changes nothing. */
  function Step(expected: string, w: World, e: Event): World {
    match e
    case Connect(c) => if c in w.phases then w else w.(phases := w.phases[c := Waiting])
    case Greet(c, h) =>
      if !PhaseOf(w, c).Waiting? then w
      else if Check(expected, h) == Accepted then World(Admitted(w.tables, c, h), w.phases[c := Acknowledging(h)])
      else Close(w, c)
    case Acknowledge(c) =>
      if PhaseOf(w, c).Acknowledging? then w.(phases := w.phases[c := Serving(PhaseOf(w, c).hello)]) else w
    case Disconnect(c) =>
      if PhaseOf(w, c).Serving? then World(TornDown(w.tables, c, PhaseOf(w, c).hello), w.phases[c := Ended])
      else if PhaseOf(w, c).Waiting? then Close(w, c)
      else w
    case Interrupt(c) => if PhaseOf(w, c).Acknowledging? then Close(w, c) else w
  }

  function Run(expected: string, events: seq<Event>): World {
    if events == [] then World(EMPTY, map[])
    else Step(expected, Run(expected, events[..|events| - 1]), events[|events| - 1])
  }

  predicate Greeted(p: Phase) {
    p.Acknowledging? || p.Serving?
  }

  /** The registry and the stored row say the same, and whatever else was greeted has been closed. */
  ghost predicate Agreement(expected: string, w: World) {
    var t := w.tables;
    && (forall d :: d in t.connections ==> d == expected)
    && (expected in t.connections ==>
          var c := t.connections[expected];
          && c.deviceId == expected && expected in t.devices && t.devices[expected] == Device(c.bootId, true)
          && (PhaseOf(w, c.writer).Ended? || Greeted(PhaseOf(w, c.writer)))
          && (Greeted(PhaseOf(w, c.writer)) ==> PhaseOf(w, c.writer).hello.bootId == c.bootId)
          && c.writer in w.phases)
    && (expected !in t.connections && expected in t.devices ==> !t.devices[expected].connected)
    && (forall c :: c in w.phases && Greeted(w.phases[c]) ==> w.phases[c].hello.deviceId == expected)
    && (forall c :: c in w.phases && Greeted(w.phases[c]) && !IsCurrent(t, expected, c) ==> c in t.closed)
  }

  lemma GreetKeeps(expected: string, w: World, c: nat, h: Hello)
    requires Agreement(expected, w)
    ensures Agreement(expected, Step(expected, w, Greet(c, h)))
  {
  }

  lemma StepKeeps(expected: string, w: World, e: Event)
    requires Agreement(expected, w)
    ensures Agreement(expected, Step(expected, w, e))
  {
    match e
    case Greet(c, h) => GreetKeeps(expected, w, c, h);
    case _ =>
  }

  lemma {:induction false} AlwaysAgree(expected: string, events: seq<Event>)
    ensures Agreement(expected, Run(expected, events))
  {
    if events != [] {
      AlwaysAgree(expected, events[..|events| - 1]);
      StepKeeps(expected, Run(expected, events[..|events| - 1]), events[|events| - 1]);
    }
  }

  predicate ShownConnected(w: World, deviceId: string) {
    deviceId in w.tables.devices && w.tables.devices[deviceId].connected
  }

  /** A connection that passed authentication and whose writer was not closed. */
  predicate Open(w: World, c: nat) {
    c in w.phases && Greeted(w.phases[c]) && c !in w.tables.closed
  }

  /** Connection truth: in every interleaving the stored flag is set exactly when the registry holds a
      connection, and at most one greeted connection is open. */
  lemma ConnectionTruth(expected: string, events: seq<Event>)
    ensures var w := Run(expected, events);
            && (ShownConnected(w, expected) <==> expected in w.tables.connections)
            && (forall c, d :: Open(w, c) && Open(w, d) ==> c == d)
  {
    AlwaysAgree(expected, events);
  }

  /** The end of a replaced connection touches neither the registry nor the stored row of its successor. */
  lemma ReplacedEndsQuietly(expected: string, events: seq<Event>, c: nat)
    requires !IsCurrent(Run(expected, events).tables, expected, c)
    ensures var w := Run(expected, events); var e := Run(expected, events + [Disconnect(c)]);
            e.tables.connections == w.tables.connections && e.tables.devices == w.tables.devices
  {
    AlwaysAgree(expected, events);
    assert (events + [Disconnect(c)])[..|events|] == events;
  }

  /** The end of the current connection does both. */
  lemma CurrentEndsVisibly(expected: string, events: seq<Event>, c: nat)
    requires IsCurrent(Run(expected, events).tables, expected, c) && PhaseOf(Run(expected, events), c).Serving?
    ensures var e := Run(expected, events + [Disconnect(c)]);
            expected !in e.tables.connections && !ShownConnected(e, expected)
  {
    AlwaysAgree(expected, events);
    assert (events + [Disconnect(c)])[..|events|] == events;
  }

  /** An interrupted acknowledgement leaves its dead connection behind: the device stays shown as connected. */
  lemma InterruptLeavesBehind(expected: string, events: seq<Event>, c: nat)
    requires IsCurrent(Run(expected, events).tables, expected, c) && PhaseOf(Run(expected, events), c).Acknowledging?
    ensures var w := Run(expected, events + [Interrupt(c)]);
            IsCurrent(w.tables, expected, c) && ShownConnected(w, expected) && PhaseOf(w, c).Ended?
  {
    AlwaysAgree(expected, events);
    assert (events + [Interrupt(c)])[..|events|] == events;
  }

  /** The accepted HELLO of a waiting connection: the registry takes a live connection, whatever it held. */
  predicate Renews(expected: string, w: World, e: Event) {
    e.Greet? && PhaseOf(w, e.writer).Waiting? && Check(expected, e.hello) == Accepted
  }

  /** The interrupted acknowledgement of the connection that the registry holds. */
  predicate Orphans(expected: string, w: World, e: Event) {
    e.Interrupt? && IsCurrent(w.tables, expected, e.writer) && PhaseOf(w, e.writer).Acknowledging?
  }

  /** The last event that renewed or orphaned the registry's connection orphaned it. */
  predicate Orphaned(expected: string, events: seq<Event>) {
    if events == [] then false
    else
      var front, e := events[..|events| - 1], events[|events| - 1];
      var w := Run(expected, front);
      !Renews(expected, w, e) && (Orphans(expected, w, e) || Orphaned(expected, front))
  }

  predicate HoldsDead(expected: string, w: World) {
    expected in w.tables.connections && PhaseOf(w, w.tables.connections[expected].writer).Ended?
  }

  lemma StepOrphans(expected: string, w: World, e: Event)
    requires Agreement(expected, w)
    ensures HoldsDead(expected, Step(expected, w, e)) <==>
            !Renews(expected, w, e) && (Orphans(expected, w, e) || HoldsDead(expected, w))
  {
  }

  /** In every run the registry holds a connection that has ended, and so shows the device as connected
      when it is not, exactly when the acknowledgement of the current connection was interrupted and no
      HELLO has been accepted since. */
  lemma {:induction false} HoldsDeadExactly(expected: string, events: seq<Event>)
    ensures HoldsDead(expected, Run(expected, events)) <==> Orphaned(expected, events)
    ensures Orphaned(expected, events) ==> ShownConnected(Run(expected, events), expected)
  {
    AlwaysAgree(expected, events);
    if events != [] {
      var front, e := events[..|events| - 1], events[|events| - 1];
      HoldsDeadExactly(expected, front);
      AlwaysAgree(expected, front);
      StepOrphans(expected, Run(expected, front), e);
    }
  }

  /** What the registry holds is a connection that is still there, unless it was orphaned. */
  lemma HeldIsAlive(expected: string, events: seq<Event>)
    requires expected in Run(expected, events).tables.connections
    ensures var w := Run(expected, events);
            Greeted(PhaseOf(w, w.tables.connections[expected].writer)) <==> !Orphaned(expected, events)
  {
    AlwaysAgree(expected, events);
    HoldsDeadExactly(expected, events);
  }

  lemma RunSnoc(expected: string, events: seq<Event>, e: Event)
    ensures Run(expected, events + [e]) == Step(expected, Run(expected, events), e)
  {
    assert (events + [e])[..|events|] == events;
  }

  /** Such a run exists, and the next accepted HELLO repairs it. */
  lemma DeadThenRepaired(expected: string, bootId: string)
    ensures var h := Hello(true, 1, expected, bootId, true);
            var dead := [Connect(0), Greet(0, h), Interrupt(0)];
            && HoldsDead(expected, Run(expected, dead))
            && !HoldsDead(expected, Run(expected, dead + [Connect(1)] + [Greet(1, h)]))
  {
    var h := Hello(true, 1, expected, bootId, true);
    var dead := [] + [Connect(0)] + [Greet(0, h)] + [Interrupt(0)];
    assert dead == [Connect(0), Greet(0, h), Interrupt(0)];
    RunSnoc(expected, [], Connect(0));
    RunSnoc(expected, [] + [Connect(0)], Greet(0, h));
    RunSnoc(expected, [] + [Connect(0)] + [Greet(0, h)], Interrupt(0));
    RunSnoc(expected, dead, Connect(1));
    RunSnoc(expected, dead + [Connect(1)], Greet(1, h));
  }
}
