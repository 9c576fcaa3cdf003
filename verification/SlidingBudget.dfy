/** A budget of events over a sliding interval: the deque of recent times that is trimmed in front
    before each attempt, and what that deque is a function of. */
module SlidingBudget {

  /** At most `limit` events over `span`; a closed budget still counts an event exactly `span` old. */
  datatype Budget = Budget(limit: int, span: real, closed: bool)

  predicate Stale(b: Budget, now: real, t: real) {
    if b.closed then now - t > b.span else t <= now - b.span
  }

  function Trimmed(b: Budget, now: real, queue: seq<real>): seq<real> {
    if queue != [] && Stale(b, now, queue[0]) then Trimmed(b, now, queue[1..]) else queue
  }

  predicate Grants(b: Budget, queue: seq<real>, now: real) {
    |Trimmed(b, now, queue)| < b.limit
  }

  function Attempted(b: Budget, queue: seq<real>, now: real): seq<real> {
    if Grants(b, queue, now) then Trimmed(b, now, queue) + [now] else Trimmed(b, now, queue)
  }

  /** The deque after a run of attempts. */
  function Queue(b: Budget, attempts: seq<real>): seq<real> {
    if attempts == [] then [] else Attempted(b, Queue(b, attempts[..|attempts| - 1]), attempts[|attempts| - 1])
  }

  /** The attempts that were granted, over the whole run. */
  function Granted(b: Budget, attempts: seq<real>): seq<real> {
    if attempts == [] then []
    else
      var front, now := attempts[..|attempts| - 1], attempts[|attempts| - 1];
      if Grants(b, Queue(b, front), now) then Granted(b, front) + [now] else Granted(b, front)
  }

  /** The times that still count at `now`, in order. */
  function Live(b: Budget, now: real, times: seq<real>): seq<real> {
    if times == [] then []
    else
      var t := times[|times| - 1];
      var earlier := Live(b, now, times[..|times| - 1]);
      if !Stale(b, now, t) && t <= now then earlier + [t] else earlier
  }

  ghost predicate Sorted(times: seq<real>) {
    forall i, j :: 0 <= i < j < |times| ==> times[i] <= times[j]
  }

  /** The clock never went back, and `now` is its latest value. */
  ghost predicate SortedUpTo(times: seq<real>, now: real) {
    Sorted(times) && forall i :: 0 <= i < |times| ==> times[i] <= now
  }

  // ---------------------------------------------------------------- live times

  lemma LiveSnoc(b: Budget, now: real, times: seq<real>, t: real)
    ensures Live(b, now, times + [t]) ==
            if !Stale(b, now, t) && t <= now then Live(b, now, times) + [t] else Live(b, now, times)
  {
    assert (times + [t])[..|times|] == times;
  }

  lemma {:induction false} LiveAppend(b: Budget, now: real, first: seq<real>, second: seq<real>)
    ensures Live(b, now, first + second) == Live(b, now, first) + Live(b, now, second)
  {
    if second == [] {
      assert first + second == first;
    } else {
      var front, t := second[..|second| - 1], second[|second| - 1];
      assert first + second == (first + front) + [t] && second == front + [t];
      LiveAppend(b, now, first, front);
      LiveSnoc(b, now, first + front, t);
      LiveSnoc(b, now, front, t);
    }
  }

  lemma {:induction false} AllLive(b: Budget, now: real, times: seq<real>)
    requires SortedUpTo(times, now) && (times == [] || !Stale(b, now, times[0]))
    ensures Live(b, now, times) == times
  {
    if times != [] {
      AllLive(b, now, times[..|times| - 1]);
    }
  }

  /** Trimming a sorted deque in front keeps exactly what still counts. */
  lemma {:induction false} TrimmedIsLive(b: Budget, now: real, queue: seq<real>)
    requires SortedUpTo(queue, now)
    ensures Trimmed(b, now, queue) == Live(b, now, queue)
    decreases |queue|
  {
    if queue == [] || !Stale(b, now, queue[0]) {
      AllLive(b, now, queue);
    } else {
      TrimmedIsLive(b, now, queue[1..]);
      assert queue == [queue[0]] + queue[1..];
      LiveAppend(b, now, [queue[0]], queue[1..]);
      LiveSnoc(b, now, [], queue[0]);
      assert [] + [queue[0]] == [queue[0]];
    }
  }

  lemma {:induction false} LiveSorted(b: Budget, now: real, times: seq<real>, latest: real)
    requires SortedUpTo(times, latest)
    ensures SortedUpTo(Live(b, now, times), latest)
  {
    if times != [] {
      LiveSorted(b, now, times[..|times| - 1], times[|times| - 1]);
    }
  }

  /** What counts later already counted earlier. */
  lemma {:induction false} LiveOfLive(b: Budget, earlier: real, later: real, times: seq<real>)
    requires earlier <= later && SortedUpTo(times, earlier)
    ensures Live(b, later, Live(b, earlier, times)) == Live(b, later, times)
  {
    if times != [] {
      var front, t := times[..|times| - 1], times[|times| - 1];
      LiveOfLive(b, earlier, later, front);
      if !Stale(b, earlier, t) {
        LiveSnoc(b, later, Live(b, earlier, front), t);
      }
    }
  }

  lemma {:induction false} LiveFewer(b: Budget, earlier: real, later: real, times: seq<real>)
    requires SortedUpTo(times, earlier) && earlier <= later
    ensures |Live(b, later, times)| <= |Live(b, earlier, times)|
  {
    if times != [] {
      LiveFewer(b, earlier, later, times[..|times| - 1]);
    }
  }

  // ---------------------------------------------------------------- the deque refines the history

  lemma {:induction false} GrantedSorted(b: Budget, attempts: seq<real>, now: real)
    requires SortedUpTo(attempts, now)
    ensures SortedUpTo(Granted(b, attempts), now)
  {
    if attempts != [] {
      var front, last := attempts[..|attempts| - 1], attempts[|attempts| - 1];
      GrantedSorted(b, front, last);
    }
  }

  /** What counted at `last`, with or without the attempt at `last`, tells what counts at `now`. */
  lemma KeptIsLive(b: Budget, granted: seq<real>, last: real, now: real)
    requires last <= now && SortedUpTo(granted, last)
    ensures SortedUpTo(Live(b, last, granted), last) && SortedUpTo(Live(b, last, granted) + [last], now)
    ensures Live(b, now, Live(b, last, granted)) == Live(b, now, granted)
    ensures Live(b, now, Live(b, last, granted) + [last]) == Live(b, now, granted + [last])
  {
    var kept := Live(b, last, granted);
    LiveSorted(b, last, granted, last);
    LiveOfLive(b, last, now, granted);
    LiveSnoc(b, now, kept, last);
    LiveSnoc(b, now, granted, last);
  }

  /** One attempt, for a deque that holds what counted when it was last trimmed. */
  lemma AttemptedIsLive(b: Budget, queue: seq<real>, granted: seq<real>, last: real, now: real)
    requires last <= now && SortedUpTo(granted, last)
    requires Trimmed(b, last, queue) == Live(b, last, granted)
    ensures SortedUpTo(Attempted(b, queue, last), now)
    ensures Trimmed(b, now, Attempted(b, queue, last)) ==
            Live(b, now, if Grants(b, queue, last) then granted + [last] else granted)
  {
    var kept := Live(b, last, granted);
    KeptIsLive(b, granted, last, now);
    if Grants(b, queue, last) {
      TrimmedIsLive(b, now, kept + [last]);
    } else {
      TrimmedIsLive(b, now, kept);
    }
  }

  /** At any later moment the trimmed deque is exactly the granted times that still count. */
  lemma {:induction false} QueueIsLive(b: Budget, attempts: seq<real>, now: real)
    requires SortedUpTo(attempts, now)
    ensures SortedUpTo(Queue(b, attempts), now)
    ensures Trimmed(b, now, Queue(b, attempts)) == Live(b, now, Granted(b, attempts))
  {
    if attempts != [] {
      var front, last := attempts[..|attempts| - 1], attempts[|attempts| - 1];
      QueueIsLive(b, front, last);
      GrantedSorted(b, front, last);
      AttemptedIsLive(b, Queue(b, front), Granted(b, front), last, now);
    }
  }

  /** An attempt is granted exactly when fewer than `limit` of all the granted ones still count. */
  lemma GrantsExactly(b: Budget, attempts: seq<real>, now: real)
    requires SortedUpTo(attempts, now)
    ensures Grants(b, Queue(b, attempts), now) <==> |Live(b, now, Granted(b, attempts))| < b.limit
  {
    QueueIsLive(b, attempts, now);
  }

  /** No interval of length `span`, wherever it ends, ever holds more than `limit` granted attempts. */
  lemma {:induction false} NeverMoreThanLimit(b: Budget, attempts: seq<real>, x: real)
    requires Sorted(attempts) && b.limit >= 0
    ensures |Live(b, x, Granted(b, attempts))| <= b.limit
  {
    if attempts != [] {
      var front, last := attempts[..|attempts| - 1], attempts[|attempts| - 1];
      NeverMoreThanLimit(b, front, x);
      GrantedSorted(b, front, last);
      if Grants(b, Queue(b, front), last) {
        LiveSnoc(b, x, Granted(b, front), last);
        if last <= x {
          GrantsExactly(b, front, last);
          LiveFewer(b, last, x, Granted(b, front));
        }
      }
    }
  }

  lemma {:induction false} LiveTail(b: Budget, now: real, times: seq<real>, i: nat)
    requires SortedUpTo(times, now) && i < |times| && !Stale(b, now, times[i])
    ensures |Live(b, now, times)| >= |times| - i
  {
    if i < |times| - 1 {
      LiveTail(b, now, times[..|times| - 1], i);
    }
  }

  /** The granted attempt `limit` places further on comes only when the first no longer counts. */
  lemma {:induction false} GrantsAreSpaced(b: Budget, attempts: seq<real>, i: nat)
    requires Sorted(attempts) && b.limit >= 0 && i + b.limit < |Granted(b, attempts)|
    ensures Stale(b, Granted(b, attempts)[i + b.limit], Granted(b, attempts)[i])
  {
    var front, last := attempts[..|attempts| - 1], attempts[|attempts| - 1];
    var granted := Granted(b, front);
    if i + b.limit < |granted| {
      GrantsAreSpaced(b, front, i);
    } else {
      GrantedSorted(b, front, last);
      GrantsExactly(b, front, last);
      if b.limit > 0 && !Stale(b, last, granted[i]) {
        LiveTail(b, last, granted, i);
      }
    }
  }
}
