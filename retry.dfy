/**
 * `retry(retries, sleep, f)`: call `f` until it returns nil or the attempt
 * counter reaches `retries`, pausing between attempts.
 *
 * A Go closure that updates the variables it captures is modelled as a step
 * `f: S -> (S, Error)` over the captured state: each call of `f` takes the
 * captured state before the call and gives the state after it and the error
 * the closure returned.
 */
module Retrying {
  import opened GoErrors
  import Format

  /** One observable step of `retry`: a call of `f` with its result, or a pause of `duration`. */
  datatype Step = Attempt(result: Error) | Sleep(duration: int)

  /** What `retry` leaves behind: the error it returns, the captured state, and how often `f` ran. */
  datatype Run<S> = Run(err: Error, state: S, calls: nat)

  /** How many times `retry` may call `f`: the first call plus `retries` more, and never fewer than one. */
  function Budget(retries: int): (n: nat)
    ensures n >= 1 && n - 1 >= retries
    ensures retries >= 0 ==> n == retries + 1
  {
    if retries <= 0 then 1 else retries + 1
  }

  /** The captured state after `n` calls of `f`. */
  function StateAfter<S>(f: S -> (S, Error), s0: S, n: nat): S {
    if n == 0 then s0 else f(StateAfter(f, s0, n - 1)).0
  }

  /** The error returned by the call of `f` numbered `k` (from 0). */
  function OutcomeAt<S>(f: S -> (S, Error), s0: S, k: nat): Error {
    f(StateAfter(f, s0, k)).1
  }

  /** The rest of `retry` from the pass of its loop where the counter is `i` and the captured state is `s`. */
  function RetryFrom<S>(retries: int, f: S -> (S, Error), s: S, i: nat): Run<S>
    decreases if i < retries then retries - i else 0
  {
    var (s', e) := f(s);
    if e.Nil? then Run(Nil, s', i + 1)
    else if i >= retries then Run(Fail(Format.RetryMessage(retries, e.message)), s', i + 1)
    else RetryFrom(retries, f, s', i + 1)
  }

  function RetrySpec<S>(retries: int, f: S -> (S, Error), s0: S): Run<S> {
    RetryFrom(retries, f, s0, 0)
  }

  /** The steps of `n` calls of `f` with a pause of `sleep` between consecutive calls. */
  function AttemptTrace<S>(f: S -> (S, Error), s0: S, n: nat, sleep: int): seq<Step> {
    if n == 0 then []
    else if n == 1 then [Attempt(OutcomeAt(f, s0, 0))]
    else AttemptTrace(f, s0, n - 1, sleep) + [Sleep(sleep), Attempt(OutcomeAt(f, s0, n - 1))]
  }

  method Retry<S>(retries: int, sleep: int, f: S -> (S, Error), s0: S)
    returns (err: Error, s: S, ghost calls: nat, ghost trace: seq<Step>)
    ensures err == RetrySpec(retries, f, s0).err && s == RetrySpec(retries, f, s0).state
    ensures calls == RetrySpec(retries, f, s0).calls
    ensures trace == AttemptTrace(f, s0, calls, sleep)
  {
    var i: nat := 0;
    err, s, calls, trace := Nil, s0, 0, [];
    while true
      invariant i == 0 || i <= retries
      invariant s == StateAfter(f, s0, i)
      invariant RetryFrom(retries, f, s, i) == RetrySpec(retries, f, s0)
      invariant trace == if i == 0 then [] else AttemptTrace(f, s0, i, sleep) + [Sleep(sleep)]
      decreases if i < retries then retries - i else 0
    {
      var next := f(s);
      s, err := next.0, next.1;
      calls := i + 1;
      trace := trace + [Attempt(err)];
      if err.Nil? {
        return;
      }
      if i >= retries {
        break;
      }
      trace := trace + [Sleep(sleep)];
      i := i + 1;
    }
    err := Fail(Format.RetryMessage(retries, err.message));
  }

  /** What holds of the loop from pass `i` on, given that every earlier call failed. */
  lemma {:induction false} RetryFromFacts<S>(retries: int, f: S -> (S, Error), s0: S, i: nat)
    requires i == 0 || i <= retries
    ensures var r := RetryFrom(retries, f, StateAfter(f, s0, i), i);
      && i < r.calls <= Budget(retries)
      && r.state == StateAfter(f, s0, r.calls)
      && (forall k :: i <= k < r.calls - 1 ==> OutcomeAt(f, s0, k).Fail?)
      && (r.err.Nil? <==> OutcomeAt(f, s0, r.calls - 1).Nil?)
      && (r.err.Fail? ==>
            r.calls == Budget(retries) &&
            r.err == Fail(Format.RetryMessage(retries, OutcomeAt(f, s0, r.calls - 1).message)))
    decreases if i < retries then retries - i else 0
  {
    var e := OutcomeAt(f, s0, i);
    if e.Fail? && i < retries {
      RetryFromFacts(retries, f, s0, i + 1);
    }
  }

  /** `f` runs at least once and at most `retries + 1` times; exactly once when `retries <= 0`. */
  lemma RetryCallCount<S>(retries: int, f: S -> (S, Error), s0: S)
    ensures var r := RetrySpec(retries, f, s0);
      && 1 <= r.calls
      && (retries <= 0 ==> r.calls == 1)
      && (retries > 0 ==> r.calls <= retries + 1)
  {
    RetryFromFacts(retries, f, s0, 0);
  }

  /** `retry` succeeds exactly when one of the calls its budget allows succeeds. */
  lemma RetrySucceedsIff<S>(retries: int, f: S -> (S, Error), s0: S)
    ensures RetrySpec(retries, f, s0).err.Nil? <==>
            exists k :: 0 <= k < Budget(retries) && OutcomeAt(f, s0, k).Nil?
  {
    RetryFromFacts(retries, f, s0, 0);
    var r := RetrySpec(retries, f, s0);
    if r.err.Nil? {
      assert OutcomeAt(f, s0, r.calls - 1).Nil?;
    }
  }

  /** The first successful call ends `retry`: nil is returned and `f` ran exactly `k + 1` times. */
  lemma RetryStopsAtFirstSuccess<S>(retries: int, f: S -> (S, Error), s0: S, k: nat)
    requires k < Budget(retries)
    requires OutcomeAt(f, s0, k).Nil?
    requires forall j :: 0 <= j < k ==> OutcomeAt(f, s0, j).Fail?
    ensures RetrySpec(retries, f, s0) == Run(Nil, StateAfter(f, s0, k + 1), k + 1)
  {
    RetryFromFacts(retries, f, s0, 0);
  }

  /**
   * When every call fails, `f` ran `Budget(retries)` times and the error names
   * the retry count and the error of the final call.
   */
  lemma RetryExhausted<S>(retries: int, f: S -> (S, Error), s0: S)
    requires forall k :: 0 <= k < Budget(retries) ==> OutcomeAt(f, s0, k).Fail?
    ensures var r := RetrySpec(retries, f, s0);
      && r.calls == Budget(retries)
      && r.state == StateAfter(f, s0, r.calls)
      && r.err == Fail(Format.RetryMessage(retries, OutcomeAt(f, s0, Budget(retries) - 1).message))
      && Format.ParseRetryMessage(r.err.message)
         == Format.Some((retries, OutcomeAt(f, s0, Budget(retries) - 1).message))
  {
    RetryFromFacts(retries, f, s0, 0);
    var r := RetrySpec(retries, f, s0);
    assert OutcomeAt(f, s0, r.calls - 1).Fail?;
    Format.RetryMessageRoundTrip(retries, OutcomeAt(f, s0, Budget(retries) - 1).message);
  }

  /** The number of pauses in a trace. */
  function Sleeps(t: seq<Step>): nat {
    if t == [] then 0 else Sleeps(t[..|t| - 1]) + if t[|t| - 1].Sleep? then 1 else 0
  }

  lemma {:induction false} AttemptTraceShape<S>(f: S -> (S, Error), s0: S, n: nat, sleep: int)
    requires n >= 1
    ensures var t := AttemptTrace(f, s0, n, sleep);
      && |t| == 2 * n - 1
      && Sleeps(t) == n - 1
      && t[|t| - 1] == Attempt(OutcomeAt(f, s0, n - 1))
      && forall j :: 0 <= j < |t| ==>
           t[j] == if j % 2 == 0 then Attempt(OutcomeAt(f, s0, j / 2)) else Sleep(sleep)
  {
    if n > 1 {
      AttemptTraceShape(f, s0, n - 1, sleep);
      var a := AttemptTrace(f, s0, n - 1, sleep);
      var t := AttemptTrace(f, s0, n, sleep);
      assert t[..|t| - 1] == a + [Sleep(sleep)];
      assert (a + [Sleep(sleep)])[..|a|] == a;
    }
  }

  /**
   * `retry` pauses only between a failed call and the next call: one pause
   * fewer than calls, each right after a failure and right before a call.
   */
  lemma RetrySleepsBetweenFailures<S>(retries: int, f: S -> (S, Error), s0: S, sleep: int)
    ensures var r := RetrySpec(retries, f, s0);
      var t := AttemptTrace(f, s0, r.calls, sleep);
      && Sleeps(t) == r.calls - 1
      && forall j :: 0 <= j < |t| && t[j].Sleep? ==>
           0 < j < |t| - 1 && t[j - 1].Attempt? && t[j - 1].result.Fail? && t[j + 1].Attempt?
  {
    var r := RetrySpec(retries, f, s0);
    RetryFromFacts(retries, f, s0, 0);
    AttemptTraceShape(f, s0, r.calls, sleep);
    var t := AttemptTrace(f, s0, r.calls, sleep);
    forall j | 0 <= j < |t| && t[j].Sleep?
      ensures 0 < j < |t| - 1 && t[j - 1].Attempt? && t[j - 1].result.Fail? && t[j + 1].Attempt?
    {
      assert j % 2 == 1;
      assert t[j - 1] == Attempt(OutcomeAt(f, s0, (j - 1) / 2));
      assert (j - 1) / 2 < r.calls - 1;
    }
  }

  /** An operation scripted by the error each of its calls returns; its state counts the calls. */
  function Scripted(outcomes: nat -> Error): nat -> (nat, Error) {
    n => (n + 1, outcomes(n))
  }

  lemma {:induction false} ScriptedOutcomes(outcomes: nat -> Error, k: nat)
    ensures StateAfter(Scripted(outcomes), 0, k) == k
    ensures OutcomeAt(Scripted(outcomes), 0, k) == outcomes(k)
  {
    if k > 0 {
      ScriptedOutcomes(outcomes, k - 1);
    }
  }

  /**
   * An operation that fails `n` times and then succeeds: with a budget that
   * covers the success, `retry` returns nil after `n + 1` calls; otherwise it
   * gives up after `Budget(retries)` calls.
   */
  lemma FailsThenSucceeds(retries: int, outcomes: nat -> Error, n: nat, failure: string)
    requires forall k: nat :: outcomes(k) == if k < n then Fail(failure) else Nil
    ensures var r := RetrySpec(retries, Scripted(outcomes), 0);
      && (n < Budget(retries) ==> r.err == Nil && r.calls == n + 1)
      && (n >= Budget(retries) ==>
            r.calls == Budget(retries) && r.err == Fail(Format.RetryMessage(retries, failure)))
  {
    var f := Scripted(outcomes);
    forall k: nat ensures OutcomeAt(f, 0, k) == outcomes(k) {
      ScriptedOutcomes(outcomes, k);
    }
    if n < Budget(retries) {
      RetryStopsAtFirstSuccess(retries, f, 0, n);
    } else {
      RetryExhausted(retries, f, 0);
    }
  }
}
