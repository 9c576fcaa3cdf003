/** The watchdog's restart budget, one for each child. */
module Watchdog {
  import opened SlidingBudget

  const RESTARTS := Budget(3, 60.0, true)

  datatype ChildState = ChildState(pid: int, restarts: seq<real>, exhausted: bool)

  /** What a pass finds out about a child: whether it exited, the clock, and how a spawn would end. */
  datatype Look = Look(exited: bool, now: real, spawned: bool, pid: int)

  predicate Supervises(c: ChildState, l: Look) {
    c.pid > 0 && !c.exhausted && l.exited
  }

  predicate Restarts(c: ChildState, l: Look) {
    Supervises(c, l) && Grants(RESTARTS, c.restarts, l.now)
  }

  function Watched(c: ChildState, l: Look): ChildState {
    var acts, restarts := Supervises(c, l), Restarts(c, l);
    ChildState(
      pid := if restarts then l.pid else if acts then -1 else c.pid,
      restarts := if acts then Attempted(RESTARTS, c.restarts, l.now) else c.restarts,
      exhausted := c.exhausted || (acts && !(restarts && l.spawned)))
  }

  class Child {
    var pid: int
    var restarts: seq<real>
    var exhausted: bool

    function View(): ChildState
      reads this
    {
      ChildState(pid, restarts, exhausted)
    }

    constructor (pid: int, started: bool)
      ensures View() == ChildState(pid, [], !started)
    {
      this.pid, restarts, exhausted := pid, [], !started;
    }
  }

  method WatchOne(child: Child, l: Look)
    modifies child
    ensures child.View() == Watched(old(child.View()), l)
  {
    if child.pid <= 0 || child.exhausted {
      return;
    }
    if !l.exited {
      return;
    }
    ghost var before := child.restarts;
    while child.restarts != [] && l.now - child.restarts[0] > 60.0
      invariant Trimmed(RESTARTS, l.now, child.restarts) == Trimmed(RESTARTS, l.now, before)
      invariant child.pid == old(child.pid) && !child.exhausted
      decreases |child.restarts|
    {
      child.restarts := child.restarts[1..];
    }
    if |child.restarts| >= 3 {
      child.exhausted := true;
      child.pid := -1;
      return;
    }
    child.restarts := child.restarts + [l.now];
    child.pid := l.pid;
    if !l.spawned {
      child.exhausted := true;
    }
  }

  /** One pass over all children. */
  method Pass(children: seq<Child>, looks: seq<Look>)
    requires |looks| == |children|
    requires forall i, j :: 0 <= i < j < |children| ==> children[i] != children[j]
    modifies children
    ensures forall i :: 0 <= i < |children| ==> children[i].View() == Watched(old(children[i].View()), looks[i])
  {
    var i := 0;
    while i < |children|
      invariant i <= |children|
      invariant forall j :: 0 <= j < i ==> children[j].View() == Watched(old(children[j].View()), looks[j])
      invariant forall j :: i <= j < |children| ==> children[j].View() == old(children[j].View())
    {
      WatchOne(children[i], looks[i]);
      i := i + 1;
    }
  }

  function Run(c: ChildState, looks: seq<Look>): ChildState {
    if looks == [] then c else Watched(Run(c, looks[..|looks| - 1]), looks[|looks| - 1])
  }

  /** The times at which a child was found dead while still supervised, and those of its restarts. */
  function Deaths(c: ChildState, looks: seq<Look>): seq<real> {
    if looks == [] then []
    else
      var front, l := looks[..|looks| - 1], looks[|looks| - 1];
      if Supervises(Run(c, front), l) then Deaths(c, front) + [l.now] else Deaths(c, front)
  }

  function RestartTimes(c: ChildState, looks: seq<Look>): seq<real> {
    if looks == [] then []
    else
      var front, l := looks[..|looks| - 1], looks[|looks| - 1];
      if Restarts(Run(c, front), l) then RestartTimes(c, front) + [l.now] else RestartTimes(c, front)
  }

  lemma {:induction false} ChildFollowsBudget(c: ChildState, looks: seq<Look>)
    requires c.restarts == []
    ensures Run(c, looks).restarts == Queue(RESTARTS, Deaths(c, looks))
    ensures RestartTimes(c, looks) == Granted(RESTARTS, Deaths(c, looks))
  {
    if looks != [] {
      var front, l := looks[..|looks| - 1], looks[|looks| - 1];
      ChildFollowsBudget(c, front);
      var deaths := Deaths(c, front);
      assert (deaths + [l.now])[..|deaths|] == deaths;
    }
  }

  lemma {:induction false} DeathsSorted(c: ChildState, looks: seq<Look>, now: real)
    requires forall i, j :: 0 <= i < j < |looks| ==> looks[i].now <= looks[j].now
    requires forall i :: 0 <= i < |looks| ==> looks[i].now <= now
    ensures SortedUpTo(Deaths(c, looks), now)
  {
    if looks != [] {
      DeathsSorted(c, looks[..|looks| - 1], looks[|looks| - 1].now);
    }
  }

  /** A child's third restart after any other comes strictly more than a minute later. */
  lemma RestartsAreSpaced(c: ChildState, looks: seq<Look>, i: nat)
    requires c.restarts == [] && forall i, j :: 0 <= i < j < |looks| ==> looks[i].now <= looks[j].now
    requires i + 3 < |RestartTimes(c, looks)|
    ensures RestartTimes(c, looks)[i + 3] > RestartTimes(c, looks)[i] + 60.0
  {
    ChildFollowsBudget(c, looks);
    DeathsSorted(c, looks, looks[|looks| - 1].now);
    GrantsAreSpaced(RESTARTS, Deaths(c, looks), i);
  }

  /** An exhausted child is never touched again. */
  lemma {:induction false} ExhaustedStays(c: ChildState, looks: seq<Look>)
    requires c.exhausted
    ensures Run(c, looks) == c && RestartTimes(c, looks) == []
  {
    if looks != [] {
      ExhaustedStays(c, looks[..|looks| - 1]);
    }
  }
}
