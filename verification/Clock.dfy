/** Unsigned 64-bit nanosecond clocks. */
module Clock {

  const WRAP := 0x1_0000_0000_0000_0000

  /** Subtraction of 64-bit times, which wraps when the clock ran backwards. */
  function Elapsed(now: nat, since: nat): nat {
    (now - since) % WRAP
  }

  /** Elapsed times are plain differences exactly when the clock did not run backwards. */
  lemma ElapsedIsDifference(now: nat, since: nat)
    requires now < WRAP && since < WRAP
    ensures Elapsed(now, since) == now - since <==> since <= now
    ensures now < since ==> Elapsed(now, since) == now + WRAP - since
  {
    if now < since {
      assert (now - since + WRAP) % WRAP == (now - since) % WRAP;
    }
  }
}
