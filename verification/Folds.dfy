/** Iteration of a step function, over a count or over a sequence of inputs; the pieces of a list's
    elements joined, and the end of a list.

    The lemmas take the step as a parameter, so that what is proved about a whole run rests on
    the named one-step laws alone. */
module Folds {

  function Iterate<R>(step: R -> R, r: R, n: nat): R
    decreases n
  {
    if n == 0 then r else Iterate(step, step(r), n - 1)
  }

  function Run<R, I>(step: (R, I) -> R, r: R, inputs: seq<I>): R
    decreases |inputs|
  {
    if inputs == [] then r else Run(step, step(r, inputs[0]), inputs[1..])
  }

  lemma {:induction false} RunAppend<R, I>(step: (R, I) -> R, r: R, a: seq<I>, b: seq<I>)
    ensures Run(step, r, a + b) == Run(step, Run(step, r, a), b)
    decreases |a|
  {
    if a == [] {
      assert a + b == b;
    } else {
      assert (a + b)[1..] == a[1..] + b;
      RunAppend(step, step(r, a[0]), a[1..], b);
    }
  }

  /** A step that is injective for each input keeps different states apart. */
  lemma {:induction false} RunInjective<R(!new), I(!new)>(step: (R, I) -> R, c: R, d: R, inputs: seq<I>)
    requires forall c, d, i {:trigger step(c, i), step(d, i)} :: step(c, i) == step(d, i) ==> c == d
    requires Run(step, c, inputs) == Run(step, d, inputs)
    ensures c == d
    decreases |inputs|
  {
    if inputs != [] {
      RunInjective(step, step(c, inputs[0]), step(d, inputs[0]), inputs[1..]);
    }
  }

  /** If states that are close to degree `k + 1` after a step were close to degree `k` before it,
      states that meet after `n` steps were close to degree `limit - n`. */
  lemma {:induction false} RunMeeting<R(!new), I(!new)>(
    step: (R, I) -> R, close: (R, R, nat) -> bool, limit: nat, c: R, d: R, u: seq<I>, v: seq<I>)
    requires forall r {:trigger close(r, r, limit)} :: close(r, r, limit)
    requires forall c, d, i, j, k: nat {:trigger step(c, i), step(d, j), close(c, d, k)} ::
               k < limit && close(step(c, i), step(d, j), k + 1) ==> close(c, d, k)
    requires |u| == |v| <= limit
    requires Run(step, c, u) == Run(step, d, v)
    ensures close(c, d, limit - |u|)
    decreases |u|
  {
    if u == [] {
      assert close(c, c, limit);
    } else {
      RunMeeting(step, close, limit, step(c, u[0]), step(d, v[0]), u[1..], v[1..]);
      assert close(step(c, u[0]), step(d, v[0]), limit - |u| + 1);
    }
  }

  /** A step that distributes over `xor` distributes after any number of steps. */
  lemma {:induction false} IterateLinear<R(!new)>(step: R -> R, xor: (R, R) -> R, a: R, b: R, n: nat)
    requires forall a, b :: step(xor(a, b)) == xor(step(a), step(b))
    ensures Iterate(step, xor(a, b), n) == xor(Iterate(step, a, n), Iterate(step, b, n))
    decreases n
  {
    if n > 0 {
      IterateLinear(step, xor, step(a), step(b), n - 1);
    }
  }

  lemma {:induction false} IterateLast<R>(step: R -> R, r: R, n: nat)
    ensures Iterate(step, r, n + 1) == step(Iterate(step, r, n))
    decreases n
  {
    if n > 0 {
      IterateLast(step, step(r), n - 1);
    }
  }

  lemma RunOneMore<R, I>(step: (R, I) -> R, r: R, inputs: seq<I>, n: nat)
    requires n < |inputs|
    ensures Run(step, r, inputs[..n + 1]) == step(Run(step, r, inputs[..n]), inputs[n])
  {
    assert inputs[..n + 1] == inputs[..n] + [inputs[n]];
    RunAppend(step, r, inputs[..n], [inputs[n]]);
  }

  /** The pieces of a list's elements, one after the other. */
  function Flat<A, B>(piece: A -> seq<B>, s: seq<A>): seq<B>
    decreases |s|
  {
    if s == [] then [] else piece(s[0]) + Flat(piece, s[1..])
  }

  lemma {:induction false} FlatLength<A(!new), B>(piece: A -> seq<B>, s: seq<A>, width: nat)
    requires forall a :: |piece(a)| == width
    ensures |Flat(piece, s)| == width * |s|
    decreases |s|
  {
    if s != [] {
      FlatLength(piece, s[1..], width);
      assert width * |s| == width * |s[1..]| + width;
    }
  }

  lemma {:induction false} FlatAt<A(!new), B>(piece: A -> seq<B>, s: seq<A>, width: nat, i: nat, k: nat)
    requires (forall a :: |piece(a)| == width) && i < |s| && k < width
    ensures width * i + k < |Flat(piece, s)| && Flat(piece, s)[width * i + k] == piece(s[i])[k]
    decreases |s|
  {
    if i > 0 {
      FlatAt(piece, s[1..], width, i - 1, k);
      assert width * i == width * (i - 1) + width;
    }
  }

  /** The last `n` elements of a list. */
  function LastOf<T>(s: seq<T>, n: nat): seq<T> {
    if |s| <= n then s else s[|s| - n..]
  }

  lemma LastOfPushed<T>(s: seq<T>, x: T, n: nat)
    ensures LastOf(LastOf(s, n) + [x], n) == LastOf(s + [x], n)
  {
  }
}
