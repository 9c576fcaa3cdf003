/** The proof-of-concept fire gate: a bounded deque of relevance flags and one replaceable state. */
module FireVerifier {
  import Folds

  datatype Detection = Detection(className: string, confidence: real)

  datatype Config = Config(
    window: nat,
    required: nat,
    fireThreshold: real,
    smokeThreshold: real,
    confirm: int,
    clear: int,
    reset: int)

  datatype Hazard = Clear | Suspected | Verifying | Confirmed | VisualSignatureLost

  /** Incident 0 is the absent incident; the text id is the device, the boot and this number. */
  datatype FireState = FireState(
    hazard: Hazard,
    incident: nat,
    firstDetection: int,
    lastRelevant: int,
    confirmed: bool,
    fire: real,
    smoke: real,
    secondsPersistent: real)

  const FRESH := FireState(Clear, 0, 0, 0, false, 0.0, 0.0, 0.0)

  datatype Gate = Gate(window: seq<bool>, counter: nat, state: FireState)

  const START := Gate([], 0, FRESH)

  /** One call of `update`: its time and the best confidence of each class. */
  datatype Sighting = Sighting(time: int, fire: real, smoke: real)

  predicate Relevant(c: Config, u: Sighting) {
    u.fire >= c.fireThreshold || u.smoke >= c.smokeThreshold
  }

  function Hits(flags: seq<bool>): nat {
    if flags == [] then 0 else Hits(flags[..|flags| - 1]) + if flags[|flags| - 1] then 1 else 0
  }

  function AtLeastThree(n: nat): nat {
    if n < 3 then 3 else n
  }

  function Pushed(c: Config, window: seq<bool>, flag: bool): seq<bool> {
    Folds.LastOf(window + [flag], c.window)
  }

  /** The signature was away for so long that the incident is forgotten. */
  predicate Forgets(c: Config, g: Gate, u: Sighting) {
    && !Relevant(c, u) && g.state.incident != 0
    && u.time - g.state.lastRelevant >= if g.state.confirmed then c.reset else c.clear
  }

  function First(g: Gate, u: Sighting): int {
    if g.state.incident == 0 then u.time else g.state.firstDetection
  }

  predicate EnoughHits(c: Config, g: Gate, u: Sighting) {
    Relevant(c, u) && Hits(Pushed(c, g.window, true)) >= c.required && u.time - First(g, u) >= c.confirm
  }

  predicate SomeHits(c: Config, g: Gate, u: Sighting) {
    Relevant(c, u) && Hits(Pushed(c, g.window, true)) >= AtLeastThree(c.required / 2)
  }

  function NextHazard(c: Config, g: Gate, u: Sighting): Hazard {
    var s := g.state;
    if Relevant(c, u) then
      if EnoughHits(c, g, u) then Confirmed
      else if SomeHits(c, g, u) && !s.confirmed then Verifying
      else if s.incident == 0 then Suspected
      else s.hazard
    else if s.incident != 0 && s.confirmed && u.time - s.lastRelevant >= c.clear then VisualSignatureLost
    else s.hazard
  }

  function Next(c: Config, g: Gate, u: Sighting): Gate {
    var s, relevant, forgets := g.state, Relevant(c, u), Forgets(c, g, u);
    var begins := relevant && s.incident == 0;
    Gate(
      window := if forgets then [] else Pushed(c, g.window, relevant),
      counter := if begins then g.counter + 1 else g.counter,
      state :=
        if forgets then FRESH
        else FireState(
          hazard := NextHazard(c, g, u),
          incident := if begins then g.counter + 1 else s.incident,
          firstDetection := if begins then u.time else s.firstDetection,
          lastRelevant := if relevant then u.time else s.lastRelevant,
          confirmed := s.confirmed || EnoughHits(c, g, u),
          fire := u.fire,
          smoke := u.smoke,
          secondsPersistent := if relevant then (u.time - First(g, u)) as real / 1000000000.0 else s.secondsPersistent))
  }

  // ---------------------------------------------------------------- the object

  /** The greatest confidence of a class, 0 when nothing of that class was detected. */
  function Best(detections: seq<Detection>, className: string): real {
    if detections == [] then 0.0
    else
      var front, d := detections[..|detections| - 1], detections[|detections| - 1];
      if d.className != className then Best(front, className)
      else if !Detected(front, className) || d.confidence > Best(front, className) then d.confidence
      else Best(front, className)
  }

  predicate Detected(detections: seq<Detection>, className: string) {
    exists i :: 0 <= i < |detections| && detections[i].className == className
  }

  lemma {:induction false} BestIsGreatest(detections: seq<Detection>, className: string)
    ensures !Detected(detections, className) ==> Best(detections, className) == 0.0
    ensures forall i :: 0 <= i < |detections| && detections[i].className == className ==>
              detections[i].confidence <= Best(detections, className)
    ensures Detected(detections, className) ==>
              exists i :: 0 <= i < |detections| && detections[i] == Detection(className, Best(detections, className))
  {
    if detections != [] {
      var front, d := detections[..|detections| - 1], detections[|detections| - 1];
      BestIsGreatest(front, className);
      if d.className != className && Detected(detections, className) {
        assert Detected(front, className);
      }
      if Detected(front, className) {
        var i :| 0 <= i < |front| && front[i] == Detection(className, Best(front, className));
        assert detections[i] == front[i] && Detected(detections, className);
      }
    }
  }

  lemma DetectedStep(detections: seq<Detection>, i: nat, className: string)
    requires i < |detections|
    ensures detections[..i + 1][..i] == detections[..i]
    ensures Detected(detections[..i + 1], className) <==>
            Detected(detections[..i], className) || detections[i].className == className
  {
    var before, after := detections[..i], detections[..i + 1];
    assert after[i] == detections[i];
    if Detected(before, className) {
      var j :| 0 <= j < |before| && before[j].className == className;
      assert after[j] == before[j];
    }
    if Detected(after, className) {
      var j :| 0 <= j < |after| && after[j].className == className;
      assert j < i ==> before[j] == after[j];
    }
  }

  class Verifier {
    const config: Config
    var window: seq<bool>
    var counter: nat
    var state: FireState

    ghost function View(): Gate
      reads this
    {
      Gate(window, counter, state)
    }

    predicate Valid()
      reads this
    {
      |window| <= config.window
    }

    constructor (config: Config)
      ensures Valid() && View() == START && this.config == config
    {
      this.config := config;
      window, counter, state := [], 0, FRESH;
    }

    method Append(flag: bool)
      requires Valid()
      modifies this`window
      ensures Valid() && window == Pushed(config, old(window), flag)
    {
      window := window + [flag];
      if |window| > config.window {
        window := window[1..];
      }
    }

    method Sum() returns (hits: nat)
      ensures hits == Hits(window)
    {
      hits := 0;
      var i := 0;
      while i < |window|
        invariant i <= |window| && hits == Hits(window[..i])
      {
        assert window[..i + 1][..i] == window[..i];
        if window[i] {
          hits := hits + 1;
        }
        i := i + 1;
      }
      assert window[..i] == window;
    }

    method Greatest(detections: seq<Detection>, className: string) returns (best: real)
      ensures best == Best(detections, className)
    {
      best := 0.0;
      var found := false;
      var i := 0;
      while i < |detections|
        invariant i <= |detections| && best == Best(detections[..i], className)
        invariant found == Detected(detections[..i], className)
      {
        var d := detections[i];
        DetectedStep(detections, i, className);
        if d.className == className {
          if !found || d.confidence > best {
            best := d.confidence;
          }
          found := true;
        }
        i := i + 1;
      }
      assert detections[..i] == detections;
    }

    method Update(time: int, detections: seq<Detection>) returns (result: FireState)
      requires Valid()
      modifies this
      ensures Valid() && result == state
      ensures View() == Next(config, old(View()), Sighting(time, Best(detections, "fire"), Best(detections, "smoke")))
    {
      var fire := Greatest(detections, "fire");
      var smoke := Greatest(detections, "smoke");
      Apply(Sighting(time, fire, smoke));
      return state;
    }

    method Apply(u: Sighting)
      requires Valid()
      modifies this
      ensures Valid() && View() == Next(config, old(View()), u)
    {
      var relevant := u.fire >= config.fireThreshold || u.smoke >= config.smokeThreshold;
      Append(relevant);
      state := state.(fire := u.fire, smoke := u.smoke);
      if relevant {
        Notice(u.time);
      } else if state.incident != 0 {
        Miss(u.time - state.lastRelevant);
      }
    }

    /** The branch of an irrelevant frame during an incident. */
    method Miss(missing: int)
      modifies this`window, this`state
      ensures var s := old(state);
              var forgets := missing >= if s.confirmed then config.reset else config.clear;
              && window == (if forgets then [] else old(window))
              && state == (if forgets then FRESH
                           else if s.confirmed && missing >= config.clear then s.(hazard := VisualSignatureLost)
                           else s)
    {
      if state.confirmed && missing >= config.reset {
        window := [];
        state := FRESH;
      } else if state.confirmed && missing >= config.clear {
        state := state.(hazard := VisualSignatureLost);
      } else if !state.confirmed && missing >= config.clear {
        window := [];
        state := FRESH;
      }
    }

    /** The branch of a relevant frame; its own flag is already in the window. */
    method Notice(time: int)
      modifies this`counter, this`state
      ensures counter == old(counter) + if old(state.incident) == 0 then 1 else 0
      ensures state == Noticed(config, Hits(window), time, counter, old(state))
    {
      state := state.(lastRelevant := time);
      if state.incident == 0 {
        counter := counter + 1;
        state := state.(incident := counter, firstDetection := time, hazard := Suspected);
      }
      state := state.(secondsPersistent := (time - state.firstDetection) as real / 1000000000.0);
      var hits := Sum();
      if hits >= AtLeastThree(config.required / 2) && !state.confirmed {
        state := state.(hazard := Verifying);
      }
      if hits >= config.required && time - state.firstDetection >= config.confirm {
        state := state.(hazard := Confirmed, confirmed := true);
      }
    }
  }

  function Noticed(c: Config, hits: nat, time: int, counter: nat, s: FireState): FireState {
    var begins := s.incident == 0;
    var first := if begins then time else s.firstDetection;
    var confirms := hits >= c.required && time - first >= c.confirm;
    s.(lastRelevant := time,
       incident := if begins then counter else s.incident,
       firstDetection := first,
       secondsPersistent := (time - first) as real / 1000000000.0,
       confirmed := s.confirmed || confirms,
       hazard := if confirms then Confirmed
                 else if hits >= AtLeastThree(c.required / 2) && !s.confirmed then Verifying
                 else if begins then Suspected
                 else s.hazard)
  }

  // ---------------------------------------------------------------- the whole history

  function Run(c: Config, updates: seq<Sighting>): Gate {
    if updates == [] then START else Next(c, Run(c, updates[..|updates| - 1]), updates[|updates| - 1])
  }

  /** The updates since the gate last forgot an incident. */
  function Since(c: Config, updates: seq<Sighting>): seq<Sighting> {
    if updates == [] then []
    else
      var front, u := updates[..|updates| - 1], updates[|updates| - 1];
      if Forgets(c, Run(c, front), u) then [] else Since(c, front) + [u]
  }

  function Flags(c: Config, h: seq<Sighting>): (flags: seq<bool>)
    ensures |flags| == |h|
  {
    seq(|h|, i requires 0 <= i < |h| => Relevant(c, h[i]))
  }

  /** The index of the first relevant update, |h| when there is none. */
  function Opening(c: Config, h: seq<Sighting>): (k: nat)
    ensures k <= |h|
    ensures k < |h| ==> Relevant(c, h[k])
    ensures forall i :: 0 <= i < k ==> !Relevant(c, h[i])
  {
    if h == [] then 0
    else
      var k := Opening(c, h[..|h| - 1]);
      if k < |h| - 1 || Relevant(c, h[|h| - 1]) then k else |h|
  }

  /** The relevant updates among the last ones, up to and including the k-th. */
  function HitsAt(c: Config, h: seq<Sighting>, k: nat): nat
    requires k < |h|
  {
    Hits(Folds.LastOf(Flags(c, h[..k + 1]), c.window))
  }

  /** At the k-th update the incident had enough hits and had lasted long enough. */
  predicate ConfirmsAt(c: Config, h: seq<Sighting>, k: nat) {
    && k < |h| && Relevant(c, h[k]) && HitsAt(c, h, k) >= c.required
    && h[k].time - h[Opening(c, h)].time >= c.confirm
  }

  predicate VerifiesAt(c: Config, h: seq<Sighting>, k: nat) {
    k < |h| && Relevant(c, h[k]) && HitsAt(c, h, k) >= AtLeastThree(c.required / 2)
  }

  ghost predicate EverConfirms(c: Config, h: seq<Sighting>) {
    exists k :: ConfirmsAt(c, h, k)
  }

  ghost predicate EverVerifies(c: Config, h: seq<Sighting>) {
    exists k :: VerifiesAt(c, h, k)
  }

  lemma FlagsGrow(c: Config, h: seq<Sighting>, u: Sighting)
    ensures Flags(c, h + [u]) == Flags(c, h) + [Relevant(c, u)]
    ensures Pushed(c, Folds.LastOf(Flags(c, h), c.window), Relevant(c, u)) == Folds.LastOf(Flags(c, h + [u]), c.window)
  {
  }

  /** Earlier updates look the same in a longer history. */
  lemma HistoryGrows(c: Config, h: seq<Sighting>, u: Sighting)
    ensures (h + [u])[..|h|] == h && (h + [u])[..|h| + 1] == h + [u]
    ensures Opening(c, h) < |h| ==> Opening(c, h + [u]) == Opening(c, h)
    ensures Opening(c, h) == |h| ==> Opening(c, h + [u]) == if Relevant(c, u) then |h| else |h| + 1
    ensures forall k: nat :: k < |h| ==> (ConfirmsAt(c, h + [u], k) <==> ConfirmsAt(c, h, k))
    ensures forall k: nat :: k < |h| ==> (VerifiesAt(c, h + [u], k) <==> VerifiesAt(c, h, k))
  {
    var all := h + [u];
    assert all[..|h|] == h;
    forall k: nat | k < |h|
      ensures ConfirmsAt(c, all, k) <==> ConfirmsAt(c, h, k)
      ensures VerifiesAt(c, all, k) <==> VerifiesAt(c, h, k)
    {
      assert all[..k + 1] == h[..k + 1];
      assert Relevant(c, h[k]) ==> Opening(c, h) <= k;
    }
  }

  /** The k-th update is the last relevant one. */
  predicate LastRelevantAt(c: Config, h: seq<Sighting>, k: nat) {
    k < |h| && Relevant(c, h[k]) && forall i :: k < i < |h| ==> !Relevant(c, h[i])
  }

  /** What the gate holds is a function of the updates since it last forgot an incident. */
  ghost predicate Reflects(c: Config, g: Gate, h: seq<Sighting>) {
    var k := Opening(c, h);
    && g.window == Folds.LastOf(Flags(c, h), c.window)
    && (g.state.incident != 0 <==> k < |h|)
    && (g.state.incident != 0 ==> g.state.incident == g.counter && g.state.firstDetection == h[k].time)
    && (g.state.confirmed <==> EverConfirms(c, h))
    && (g.state.hazard == Clear <==> g.state.incident == 0)
    && (g.state.hazard == Suspected <==> g.state.incident != 0 && !EverConfirms(c, h) && !EverVerifies(c, h))
    && (g.state.hazard == Verifying <==> !EverConfirms(c, h) && EverVerifies(c, h))
  }

  /** An incident remembers the time of its last relevant update. */
  ghost predicate RemembersLast(c: Config, g: Gate, h: seq<Sighting>) {
    g.state.incident != 0 ==> exists k: nat :: LastRelevantAt(c, h, k) && g.state.lastRelevant == h[k].time
  }

  lemma RemembersNext(c: Config, g: Gate, h: seq<Sighting>, u: Sighting)
    requires RemembersLast(c, g, h) && !Forgets(c, g, u)
    ensures RemembersLast(c, Next(c, g, u), h + [u])
  {
    var all := h + [u];
    if Relevant(c, u) {
      assert LastRelevantAt(c, all, |h|);
    } else if g.state.incident != 0 {
      var k: nat :| LastRelevantAt(c, h, k) && g.state.lastRelevant == h[k].time;
      assert LastRelevantAt(c, all, k);
    }
  }

  lemma HitsNow(c: Config, window: seq<bool>, h: seq<Sighting>, u: Sighting)
    requires window == Folds.LastOf(Flags(c, h), c.window)
    ensures HitsAt(c, h + [u], |h|) == Hits(Pushed(c, window, Relevant(c, u)))
  {
    FlagsGrow(c, h, u);
    assert (h + [u])[..|h| + 1] == h + [u];
  }

  /** Whether there were ever enough hits is decided by the earlier updates and by this one. */
  lemma EverConfirmsNext(c: Config, h: seq<Sighting>, u: Sighting)
    ensures EverConfirms(c, h + [u]) <==> EverConfirms(c, h) || ConfirmsAt(c, h + [u], |h|)
  {
    HistoryGrows(c, h, u);
    if k: nat :| ConfirmsAt(c, h, k) {
      assert ConfirmsAt(c, h + [u], k);
    }
    if k: nat :| ConfirmsAt(c, h + [u], k) && k != |h| {
      assert ConfirmsAt(c, h, k);
    }
  }

  lemma EverVerifiesNext(c: Config, h: seq<Sighting>, u: Sighting)
    ensures EverVerifies(c, h + [u]) <==> EverVerifies(c, h) || VerifiesAt(c, h + [u], |h|)
  {
    HistoryGrows(c, h, u);
    if k: nat :| VerifiesAt(c, h, k) {
      assert VerifiesAt(c, h + [u], k);
    }
    if k: nat :| VerifiesAt(c, h + [u], k) && k != |h| {
      assert VerifiesAt(c, h, k);
    }
  }

  lemma NowConfirms(c: Config, g: Gate, h: seq<Sighting>, u: Sighting)
    requires Reflects(c, g, h)
    ensures ConfirmsAt(c, h + [u], |h|) <==> EnoughHits(c, g, u)
    ensures VerifiesAt(c, h + [u], |h|) <==> SomeHits(c, g, u)
  {
    HitsNow(c, g.window, h, u);
    HistoryGrows(c, h, u);
    assert (h + [u])[|h|] == u;
  }

  lemma ReflectsNext(c: Config, g: Gate, h: seq<Sighting>, u: Sighting)
    requires Reflects(c, g, h) && !Forgets(c, g, u)
    ensures Reflects(c, Next(c, g, u), h + [u])
  {
    FlagsGrow(c, h, u);
    HistoryGrows(c, h, u);
    EverConfirmsNext(c, h, u);
    EverVerifiesNext(c, h, u);
    NowConfirms(c, g, h, u);
  }

  /** The time of the last relevant update, 0 when there is none. */
  function LastTime(c: Config, h: seq<Sighting>): int {
    if h == [] then 0
    else if Relevant(c, h[|h| - 1]) then h[|h| - 1].time
    else LastTime(c, h[..|h| - 1])
  }

  lemma {:induction false} LastTimeFound(c: Config, h: seq<Sighting>, k: nat)
    requires LastRelevantAt(c, h, k)
    ensures LastTime(c, h) == h[k].time
  {
    if k < |h| - 1 {
      LastTimeFound(c, h[..|h| - 1], k);
    }
  }

  /** The k-th update found a confirmed incident out of sight for the clear time. */
  ghost predicate LosesAt(c: Config, h: seq<Sighting>, k: nat) {
    k < |h| && !Relevant(c, h[k]) && EverConfirms(c, h[..k]) && h[k].time - LastTime(c, h[..k]) >= c.clear
  }

  /** It was lost at some update and not confirmed again since. */
  ghost predicate Lost(c: Config, h: seq<Sighting>) {
    exists k: nat :: LosesAt(c, h, k) && Unconfirmed(c, h, k)
  }

  lemma LosesEarlier(c: Config, h: seq<Sighting>, u: Sighting, k: nat)
    requires k < |h|
    ensures LosesAt(c, h + [u], k) <==> LosesAt(c, h, k)
  {
    assert (h + [u])[..k] == h[..k];
  }

  /** No confirmation after the k-th update. */
  ghost predicate Unconfirmed(c: Config, h: seq<Sighting>, k: nat) {
    forall i: nat :: k < i ==> !ConfirmsAt(c, h, i)
  }

  lemma UnconfirmedNext(c: Config, h: seq<Sighting>, u: Sighting, k: nat)
    requires k < |h|
    ensures Unconfirmed(c, h + [u], k) <==> Unconfirmed(c, h, k) && !ConfirmsAt(c, h + [u], |h|)
  {
    var all := h + [u];
    HistoryGrows(c, h, u);
    assert forall i: nat :: ConfirmsAt(c, all, i) ==> i < |h| || i == |h|;
  }

  lemma LostNext(c: Config, h: seq<Sighting>, u: Sighting)
    ensures Lost(c, h + [u]) <==>
            LosesAt(c, h + [u], |h|) || (Lost(c, h) && !ConfirmsAt(c, h + [u], |h|))
  {
    var all := h + [u];
    if Lost(c, all) && !LosesAt(c, all, |h|) {
      var k: nat :| LosesAt(c, all, k) && Unconfirmed(c, all, k);
      LosesEarlier(c, h, u, k);
      UnconfirmedNext(c, h, u, k);
    }
    if Lost(c, h) && !ConfirmsAt(c, all, |h|) {
      var k: nat :| LosesAt(c, h, k) && Unconfirmed(c, h, k);
      LosesEarlier(c, h, u, k);
      UnconfirmedNext(c, h, u, k);
    }
    if LosesAt(c, all, |h|) {
      assert Unconfirmed(c, all, |h|);
    }
  }

  /** Which of the two confirmed states is shown. */
  ghost predicate ShowsLoss(c: Config, g: Gate, h: seq<Sighting>) {
    g.state.hazard == VisualSignatureLost <==> Lost(c, h)
  }

  lemma LosesNow(c: Config, g: Gate, h: seq<Sighting>, u: Sighting)
    requires Reflects(c, g, h) && RemembersLast(c, g, h)
    ensures LosesAt(c, h + [u], |h|) <==>
            !Relevant(c, u) && g.state.confirmed && u.time - g.state.lastRelevant >= c.clear
  {
    assert (h + [u])[..|h|] == h;
    if g.state.incident != 0 {
      var k: nat :| LastRelevantAt(c, h, k) && g.state.lastRelevant == h[k].time;
      LastTimeFound(c, h, k);
    } else {
      NeverConfirmed(c, h);
    }
  }

  lemma NeverConfirmed(c: Config, h: seq<Sighting>)
    requires Opening(c, h) == |h|
    ensures !EverConfirms(c, h)
  {
  }

  lemma ShowsLossNext(c: Config, g: Gate, h: seq<Sighting>, u: Sighting)
    requires Reflects(c, g, h) && RemembersLast(c, g, h) && ShowsLoss(c, g, h) && !Forgets(c, g, u)
    requires Orderly(g)
    ensures ShowsLoss(c, Next(c, g, u), h + [u])
  {
    LostNext(c, h, u);
    LosesNow(c, g, h, u);
    NowConfirms(c, g, h, u);
  }

  /** The gate refines its full history. Its window holds the flags of the last updates since it last
      forgot an incident; there is an incident exactly when one of them was relevant, and it began at
      the first and remembers the last; it is confirmed exactly when at some relevant update there were enough hits and
      enough time, and verifying exactly when at some there were half the hits, at least three, and at
      none enough. */
  lemma {:induction false} RefinesHistory(c: Config, updates: seq<Sighting>)
    ensures Reflects(c, Run(c, updates), Since(c, updates)) && RemembersLast(c, Run(c, updates), Since(c, updates))
  {
    if updates != [] {
      var front, u := updates[..|updates| - 1], updates[|updates| - 1];
      RefinesHistory(c, front);
      if Forgets(c, Run(c, front), u) {
        assert !EverConfirms(c, []) && !EverVerifies(c, []);
      } else {
        ReflectsNext(c, Run(c, front), Since(c, front), u);
        RemembersNext(c, Run(c, front), Since(c, front), u);
      }
    }
  }

  lemma {:induction false} NoHits(flags: seq<bool>)
    ensures Hits(flags) == 0 <==> forall i :: 0 <= i < |flags| ==> !flags[i]
  {
    if flags != [] {
      NoHits(flags[..|flags| - 1]);
    }
  }

  /** Without an incident the gate is clear, unconfirmed, and its window holds no hit. */
  lemma NoIncidentIsClear(c: Config, updates: seq<Sighting>)
    requires Run(c, updates).state.incident == 0
    ensures var g := Run(c, updates);
            g.state.hazard == Clear && !g.state.confirmed && Hits(g.window) == 0 &&
            forall i :: 0 <= i < |g.window| ==> !g.window[i]
  {
    RefinesHistory(c, updates);
    var g, h := Run(c, updates), Since(c, updates);
    forall i | 0 <= i < |g.window| ensures !g.window[i] {
      assert g.window[i] == Flags(c, h)[|h| - |g.window| + i];
    }
    NoHits(g.window);
  }

  /** The order of the states within an incident. */
  function Stage(h: Hazard): nat {
    match h
    case Clear => 0
    case Suspected => 1
    case Verifying => 2
    case Confirmed => 3
    case VisualSignatureLost => 3
  }

  predicate Orderly(g: Gate) {
    && g.state.incident <= g.counter
    && (g.state.confirmed <==> Stage(g.state.hazard) == 3)
    && (g.state.incident == 0 <==> Stage(g.state.hazard) == 0)
  }

  lemma NextInOrder(c: Config, g: Gate, u: Sighting)
    requires Orderly(g)
    ensures Orderly(Next(c, g, u))
    ensures g.counter <= Next(c, g, u).counter <= g.counter + 1
    ensures Next(c, g, u).state.incident == g.state.incident ==>
              Stage(g.state.hazard) <= Stage(Next(c, g, u).state.hazard)
    ensures Next(c, g, u).state.incident != g.state.incident ==>
              Next(c, g, u).state.incident == 0 ||
              (g.state.incident == 0 && Next(c, g, u).state.incident == g.counter + 1)
  {
  }

  lemma {:induction false} AlwaysOrderly(c: Config, updates: seq<Sighting>)
    ensures Orderly(Run(c, updates))
  {
    if updates != [] {
      AlwaysOrderly(c, updates[..|updates| - 1]);
      NextInOrder(c, Run(c, updates[..|updates| - 1]), updates[|updates| - 1]);
    }
  }

  /** A confirmed incident is shown as lost exactly when some irrelevant update found it out of sight for
      the clear time and none confirmed it again since; otherwise it is shown as confirmed. */
  lemma {:induction false} LossRefinesHistory(c: Config, updates: seq<Sighting>)
    ensures var g := Run(c, updates);
            var h := Since(c, updates);
            && (g.state.hazard == VisualSignatureLost <==> Lost(c, h))
            && (g.state.hazard == Confirmed <==> EverConfirms(c, h) && !Lost(c, h))
  {
    var g, h := Run(c, updates), Since(c, updates);
    RefinesHistory(c, updates);
    AlwaysOrderly(c, updates);
    if updates == [] {
      assert !Lost(c, []);
    } else {
      var front, u := updates[..|updates| - 1], updates[|updates| - 1];
      LossRefinesHistory(c, front);
      RefinesHistory(c, front);
      AlwaysOrderly(c, front);
      if Forgets(c, Run(c, front), u) {
        assert !Lost(c, []);
      } else {
        ShowsLossNext(c, Run(c, front), Since(c, front), u);
      }
    }
  }

  lemma RunStep(c: Config, updates: seq<Sighting>, k: nat)
    requires k < |updates|
    ensures Run(c, updates[..k + 1]) == Next(c, Run(c, updates[..k]), updates[k])
  {
    assert updates[..k + 1][..k] == updates[..k];
  }

  lemma {:induction false} CounterGrows(c: Config, updates: seq<Sighting>, i: nat, j: nat)
    requires i <= j <= |updates|
    ensures Run(c, updates[..i]).counter <= Run(c, updates[..j]).counter
    decreases j - i
  {
    if i < j {
      AlwaysOrderly(c, updates[..i]);
      RunStep(c, updates, i);
      NextInOrder(c, Run(c, updates[..i]), updates[i]);
      CounterGrows(c, updates, i + 1, j);
    }
  }

  /** An incident id that is gone, or that was passed over, never comes back. */
  lemma {:induction false} IdsNeverReturn(c: Config, updates: seq<Sighting>, i: nat, j: nat, id: nat)
    requires i <= j <= |updates| && 0 < id <= Run(c, updates[..i]).counter
    requires Run(c, updates[..i]).state.incident != id
    ensures Run(c, updates[..j]).state.incident != id
    decreases j - i
  {
    if i < j {
      AlwaysOrderly(c, updates[..i]);
      RunStep(c, updates, i);
      NextInOrder(c, Run(c, updates[..i]), updates[i]);
      IdsNeverReturn(c, updates, i + 1, j, id);
    }
  }

  /** The updates of one incident are consecutive. */
  lemma SameIncidentBetween(c: Config, updates: seq<Sighting>, i: nat, k: nat, j: nat)
    requires i <= k <= j <= |updates|
    requires Run(c, updates[..i]).state.incident == Run(c, updates[..j]).state.incident != 0
    ensures Run(c, updates[..k]).state.incident == Run(c, updates[..i]).state.incident
  {
    var id := Run(c, updates[..i]).state.incident;
    AlwaysOrderly(c, updates[..i]);
    CounterGrows(c, updates, i, k);
    if Run(c, updates[..k]).state.incident != id {
      IdsNeverReturn(c, updates, k, j, id);
    }
  }

  /** Along one incident the state only moves forward. */
  lemma {:induction false} StatesMoveForward(c: Config, updates: seq<Sighting>, i: nat, j: nat)
    requires i <= j <= |updates|
    requires Run(c, updates[..i]).state.incident == Run(c, updates[..j]).state.incident != 0
    ensures Stage(Run(c, updates[..i]).state.hazard) <= Stage(Run(c, updates[..j]).state.hazard)
    decreases j - i
  {
    if i < j {
      SameIncidentBetween(c, updates, i, i + 1, j);
      AlwaysOrderly(c, updates[..i]);
      RunStep(c, updates, i);
      NextInOrder(c, Run(c, updates[..i]), updates[i]);
      StatesMoveForward(c, updates, i + 1, j);
    }
  }
}
