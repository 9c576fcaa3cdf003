/** `RateLimiter`: one deque a key. */
module RateLimit {
  import opened SlidingBudget

  function Get(requests: map<string, seq<real>>, key: string): seq<real> {
    if key in requests then requests[key] else []
  }

  datatype Request = Request(key: string, time: real)

  function Run(b: Budget, calls: seq<Request>): map<string, seq<real>> {
    if calls == [] then map[]
    else
      var before, c := Run(b, calls[..|calls| - 1]), calls[|calls| - 1];
      before[c.key := Attempted(b, Get(before, c.key), c.time)]
  }

  function TimesOf(calls: seq<Request>, key: string): seq<real> {
    if calls == [] then []
    else
      var c := calls[|calls| - 1];
      var earlier := TimesOf(calls[..|calls| - 1], key);
      if c.key == key then earlier + [c.time] else earlier
  }

  class RateLimiter {
    const limit: int
    const window: real
    var requests: map<string, seq<real>>

    function Rule(): Budget {
      Budget(limit, window, false)
    }

    constructor (limit: int, window: real)
      ensures this.limit == limit && this.window == window && requests == map[]
    {
      this.limit, this.window, requests := limit, window, map[];
    }

    /** `now` is the monotonic clock. */
    method Allow(key: string, now: real) returns (allowed: bool)
      modifies this
      ensures allowed == Grants(Rule(), Get(old(requests), key), now)
      ensures requests == old(requests)[key := Attempted(Rule(), Get(old(requests), key), now)]
    {
      var queue := Get(requests, key);
      ghost var before := queue;
      while queue != [] && queue[0] <= now - window
        invariant Trimmed(Rule(), now, queue) == Trimmed(Rule(), now, before)
        decreases |queue|
      {
        queue := queue[1..];
      }
      allowed := |queue| < limit;
      if allowed {
        queue := queue + [now];
      }
      requests := requests[key := queue];
    }
  }

  /** Each key has a budget of its own. */
  lemma {:induction false} KeysAreIndependent(b: Budget, calls: seq<Request>, key: string)
    ensures Get(Run(b, calls), key) == Queue(b, TimesOf(calls, key))
  {
    if calls != [] {
      var front, c := calls[..|calls| - 1], calls[|calls| - 1];
      KeysAreIndependent(b, front, key);
      if c.key == key {
        var times := TimesOf(front, key);
        assert (times + [c.time])[..|times|] == times;
      }
    }
  }

  /** A request is allowed exactly when fewer than `limit` allowed requests of its key lie in the
      window that ends now, and no window ever holds more. */
  lemma AllowsWithinWindow(limit: nat, window: real, calls: seq<Request>, key: string, now: real)
    requires SortedUpTo(TimesOf(calls, key), now)
    ensures var b := Budget(limit, window, false);
            var allowed := Granted(b, TimesOf(calls, key));
            && (Grants(b, Get(Run(b, calls), key), now) <==> |Live(b, now, allowed)| < limit)
            && forall x :: |Live(b, x, allowed)| <= limit
  {
    var b := Budget(limit, window, false);
    KeysAreIndependent(b, calls, key);
    GrantsExactly(b, TimesOf(calls, key), now);
    forall x ensures |Live(b, x, Granted(b, TimesOf(calls, key)))| <= limit {
      NeverMoreThanLimit(b, TimesOf(calls, key), x);
    }
  }
}
