/** Option and outcome types shared by every part of the model. */
module Common {

  /** A value that may be absent: a NULL column, a missing attribute, a failed parse. */
  datatype Option<+T> = None | Some(value: T)

  /** A value or an error message (Go's `(T, error)` pair). */
  datatype Result<+T> = Ok(value: T) | Err(msg: string)

  /**
   * How a command that prints lines ended: normally, by returning a Go `error`
   * (whose text is kept), by a run-time panic (a slice bound or an index out
   * of range, a negative shift count), or not at all (a loop that never
   * exits); in the last two cases the lines printed so far are kept.
   */
  datatype Status = Done | Failed(msg: string) | Panicked(reason: string) | Hangs

  /** The lines a command prints, and how it ended. */
  datatype Printed = Printed(lines: seq<string>, status: Status)

  /** The state after one step of a walk, and the error that stopped it, if any. */
  datatype Stepped<S, E> = Stepped(state: S, err: Option<E>)

  /**
   * A Go `for _, x := range xs { if err := step(x); err != nil { return err } }`
   * over a state: the steps in order, stopping at the first error.
   */
  function Walk<S, X, E>(step: (S, X) -> Stepped<S, E>, s: S, xs: seq<X>): Stepped<S, E>
    decreases |xs|
  {
    if |xs| == 0 then Stepped(s, None)
    else
      var r := step(s, xs[0]);
      if r.err.Some? then r else Walk(step, r.state, xs[1..])
  }

  /** Appending is associative; stated once so that proofs over long lines need not rediscover it. */
  lemma AppendAssoc<T>(a: seq<T>, b: seq<T>, c: seq<T>)
    ensures (a + b) + c == a + (b + c)
  {
  }

  /** Walking `xs ++ [x]`: walk `xs`, then take one more step unless it already failed. */
  lemma {:induction false} WalkSnoc<S, X, E>(step: (S, X) -> Stepped<S, E>, s: S, xs: seq<X>, x: X)
    ensures var r := Walk(step, s, xs);
      Walk(step, s, xs + [x]) == if r.err.Some? then r else step(r.state, x)
    decreases |xs|
  {
    if |xs| == 0 {
      assert [x][1..] == [];
    } else {
      var r0 := step(s, xs[0]);
      assert (xs + [x])[0] == xs[0] && (xs + [x])[1..] == xs[1..] + [x];
      if r0.err.None? { WalkSnoc(step, r0.state, xs[1..], x); }
    }
  }

  /** Walking the first `k + 1` elements: walk the first `k`, then take step `k` unless it already failed. */
  lemma WalkPrefixStep<S, X, E>(step: (S, X) -> Stepped<S, E>, s: S, xs: seq<X>, k: nat)
    requires k < |xs|
    ensures var r := Walk(step, s, xs[..k]);
      Walk(step, s, xs[..k + 1]) == if r.err.Some? then r else step(r.state, xs[k])
  {
    assert xs[..k + 1] == xs[..k] + [xs[k]];
    WalkSnoc(step, s, xs[..k], xs[k]);
  }

  /** One loop round over a walk: if step `i` succeeds the walk of the first `i + 1` elements is its result, and if it fails the whole walk is. */
  lemma WalkAdvance<S, X, E>(step: (S, X) -> Stepped<S, E>, s: S, xs: seq<X>, i: nat, cur: S, r: Stepped<S, E>)
    requires i < |xs|
    requires Walk(step, s, xs[..i]) == Stepped(cur, None)
    requires step(cur, xs[i]) == r
    ensures r.err.None? ==> Walk(step, s, xs[..i + 1]) == r
    ensures r.err.Some? ==> Walk(step, s, xs) == r
  {
    WalkPrefixStep(step, s, xs, i);
    if r.err.Some? {
      WalkFailedPrefix(step, s, xs[..i + 1], xs[i + 1..]);
      assert xs[..i + 1] + xs[i + 1..] == xs;
    }
  }

  /** The first failing step ends the walk: whatever follows it is never looked at. */
  lemma WalkStopsAt<S, X, E>(step: (S, X) -> Stepped<S, E>, s: S, xs: seq<X>, k: nat, rest: seq<X>)
    requires k < |xs|
    requires Walk(step, s, xs[..k]).err.None?
    requires step(Walk(step, s, xs[..k]).state, xs[k]).err.Some?
    ensures Walk(step, s, xs[..k + 1] + rest) == step(Walk(step, s, xs[..k]).state, xs[k])
  {
    WalkSnoc(step, s, xs[..k], xs[k]);
    assert xs[..k] + [xs[k]] == xs[..k + 1];
    WalkFailedPrefix(step, s, xs[..k + 1], rest);
  }

  /** Once a prefix has failed, appending more elements changes nothing. */
  lemma {:induction false} WalkFailedPrefix<S, X, E>(step: (S, X) -> Stepped<S, E>, s: S, xs: seq<X>, rest: seq<X>)
    requires Walk(step, s, xs).err.Some?
    ensures Walk(step, s, xs + rest) == Walk(step, s, xs)
    decreases |xs|
  {
    var r0 := step(s, xs[0]);
    assert (xs + rest)[0] == xs[0] && (xs + rest)[1..] == xs[1..] + rest;
    if r0.err.None? { WalkFailedPrefix(step, r0.state, xs[1..], rest); }
  }

  /** A property every step preserves, successful or not, holds after the walk. */
  lemma {:induction false} WalkKeeps<S, X, E>(step: (S, X) -> Stepped<S, E>, s: S, xs: seq<X>, inv: S -> bool)
    requires inv(s)
    requires forall u, x :: inv(u) ==> inv(step(u, x).state)
    ensures inv(Walk(step, s, xs).state)
    decreases |xs|
  {
    if |xs| > 0 {
      var r0 := step(s, xs[0]);
      if r0.err.None? { WalkKeeps(step, r0.state, xs[1..], inv); }
    }
  }

  /** A property every successful step preserves holds after a successful walk. */
  lemma {:induction false} WalkKeepsOnSuccess<S, X, E>(step: (S, X) -> Stepped<S, E>, s: S, xs: seq<X>, inv: S -> bool)
    requires inv(s)
    requires forall u, x :: inv(u) && step(u, x).err.None? ==> inv(step(u, x).state)
    requires Walk(step, s, xs).err.None?
    ensures inv(Walk(step, s, xs).state)
    decreases |xs|
  {
    if |xs| > 0 {
      var r0 := step(s, xs[0]);
      WalkKeepsOnSuccess(step, r0.state, xs[1..], inv);
    }
  }

  /**
   * When each successful step appends `out(x)` to the part `proj` of the
   * state and only succeeds when `ok(x)`, a successful walk appends the
   * outputs of all elements, in order.
   */
  lemma {:induction false} WalkAppends<S, X, E, R>(step: (S, X) -> Stepped<S, E>, s: S, xs: seq<X>,
                                                   proj: S -> seq<R>, out: X -> R, ok: X -> bool)
    requires forall u, x :: step(u, x).err.None? ==> ok(x) && proj(step(u, x).state) == proj(u) + [out(x)]
    requires Walk(step, s, xs).err.None?
    ensures proj(Walk(step, s, xs).state) == proj(s) + seq(|xs|, i requires 0 <= i < |xs| => out(xs[i]))
    ensures forall i :: 0 <= i < |xs| ==> ok(xs[i])
    decreases |xs|
  {
    if |xs| > 0 {
      var r0 := step(s, xs[0]);
      WalkAppends(step, r0.state, xs[1..], proj, out, ok);
      var tail := seq(|xs| - 1, i requires 0 <= i < |xs| - 1 => out(xs[1..][i]));
      assert seq(|xs|, i requires 0 <= i < |xs| => out(xs[i])) == [out(xs[0])] + tail;
      forall i | 1 <= i < |xs| ensures ok(xs[i]) {
        assert xs[1..][i - 1] == xs[i];
      }
    }
  }

  /** The outputs of `xs`, one after the other. */
  function ConcatMap<X, R>(out: X -> seq<R>, xs: seq<X>): seq<R>
    decreases |xs|
  {
    if |xs| == 0 then [] else out(xs[0]) + ConcatMap(out, xs[1..])
  }

  /** A walk whose every step succeeds by appending the element's output appends all outputs, in order. */
  lemma {:induction false} WalkEmits<R, X, E>(step: (seq<R>, X) -> Stepped<seq<R>, E>, s: seq<R>, xs: seq<X>, out: X -> seq<R>)
    requires forall u, i :: 0 <= i < |xs| ==> step(u, xs[i]) == Stepped(u + out(xs[i]), None)
    ensures Walk(step, s, xs) == Stepped(s + ConcatMap(out, xs), None)
    decreases |xs|
  {
    if |xs| == 0 {
      assert s + [] == s;
    } else {
      assert forall i :: 0 <= i < |xs| - 1 ==> xs[1..][i] == xs[i + 1];
      WalkEmits(step, s + out(xs[0]), xs[1..], out);
      assert (s + out(xs[0])) + ConcatMap(out, xs[1..]) == s + ConcatMap(out, xs);
    }
  }

  /**
   * A walk that passes through the states `st(0)`, `st(1)`, ... one element
   * at a time, each step succeeding, ends after `k` elements in `st(k)`.
   */
  lemma {:induction false} WalkFollows<S, X, E>(step: (S, X) -> Stepped<S, E>, st: nat -> S, xs: seq<X>, k: nat)
    requires k <= |xs|
    requires forall i :: 0 <= i < k ==> step(st(i), xs[i]) == Stepped(st(i + 1), None)
    ensures Walk(step, st(0), xs[..k]) == Stepped(st(k), None)
  {
    if k > 0 {
      WalkFollows(step, st, xs, k - 1);
      WalkPrefixStep(step, st(0), xs, k - 1);
    }
  }

  /** A walk whose every step succeeds, from any state, succeeds. */
  lemma {:induction false} WalkSucceeds<S, X, E>(step: (S, X) -> Stepped<S, E>, s: S, xs: seq<X>)
    requires forall u, i :: 0 <= i < |xs| ==> step(u, xs[i]).err.None?
    ensures Walk(step, s, xs).err.None?
    decreases |xs|
  {
    if |xs| > 0 {
      assert forall i :: 0 <= i < |xs| - 1 ==> xs[1..][i] == xs[i + 1];
      WalkSucceeds(step, step(s, xs[0]).state, xs[1..]);
    }
  }

  /** A walk over an element on which every step fails does not succeed. */
  lemma {:induction false} WalkFails<S, X, E>(step: (S, X) -> Stepped<S, E>, s: S, xs: seq<X>, k: nat)
    requires k < |xs|
    requires forall u :: step(u, xs[k]).err.Some?
    ensures Walk(step, s, xs).err.Some?
    decreases |xs|
  {
    var r0 := step(s, xs[0]);
    if r0.err.None? {
      assert xs[1..][k - 1] == xs[k];
      WalkFails(step, r0.state, xs[1..], k - 1);
    }
  }

  /** The error a walk stops with is one its steps can produce on its elements. */
  lemma {:induction false} WalkErrors<S, X, E>(step: (S, X) -> Stepped<S, E>, s: S, xs: seq<X>, possible: E -> bool)
    requires forall u, i :: 0 <= i < |xs| && step(u, xs[i]).err.Some? ==> possible(step(u, xs[i]).err.value)
    ensures Walk(step, s, xs).err.Some? ==> possible(Walk(step, s, xs).err.value)
    decreases |xs|
  {
    if |xs| > 0 {
      var r0 := step(s, xs[0]);
      if r0.err.None? {
        assert forall i :: 0 <= i < |xs| - 1 ==> xs[1..][i] == xs[i + 1];
        WalkErrors(step, r0.state, xs[1..], possible);
      }
    }
  }

  /**
   * A walk commutes with a change of state that every step commutes with:
   * for instance lines printed before the walk stay in front of its output.
   */
  lemma {:induction false} WalkShift<S, X, E>(step: (S, X) -> Stepped<S, E>, shift: S -> S, s: S, xs: seq<X>)
    requires forall u, x :: step(shift(u), x) == Stepped(shift(step(u, x).state), step(u, x).err)
    ensures Walk(step, shift(s), xs) == Stepped(shift(Walk(step, s, xs).state), Walk(step, s, xs).err)
    decreases |xs|
  {
    if |xs| > 0 {
      WalkShift(step, shift, step(s, xs[0]).state, xs[1..]);
    }
  }
}
