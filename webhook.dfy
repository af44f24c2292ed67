/**
 * The `/webhook` handler: decode the request body, send the notification
 * under `retry(1, 2*time.Second, …)` with a re-authentication after every
 * failed send, and answer with a (status, message) JSON response.
 *
 * Decoding, sending and authenticating are calls into code outside this
 * model; each is given as the error that call returns.
 */
module Webhook {
  import opened GoErrors
  import Retrying

  const StatusOK := 200
  const StatusBadRequest := 400
  const StatusUnauthorized := 401

  /** `2*time.Second` as a Go `time.Duration`, which counts nanoseconds. */
  const SendRetryPause := 2_000_000_000

  /** The retry budget the handler passes to `retry`. */
  const SendRetries := 1

  datatype JSONResponse = JSONResponse(status: int, message: string)

  /** What `sendJSONResponse` writes: the header's status code, then the body. */
  datatype Written = Written(header: int, body: JSONResponse)

  /**
   * How one request ends: a written response, or the nil-interface panic of
   * `errAuthentication.Error()` when the last re-authentication returned nil.
   */
  datatype HandlerOutcome = Responded(written: Written) | NilErrorPanic

  function SendJSONResponse(status: int, message: string): (w: Written)
    ensures w.header == w.body.status == status
    ensures w.body.message == message
  {
    Written(status, JSONResponse(status, message))
  }

  /** A call the handler makes to the chat client, with the error it returned. */
  datatype Call = Send(result: Error) | Authenticate(result: Error)

  /** The variables the retried closure captures: what it has called so far, and `errAuthentication`. */
  datatype Captured = Captured(log: seq<Call>, errAuthentication: Error)

  function Sends(log: seq<Call>): nat {
    if log == [] then 0 else Sends(log[..|log| - 1]) + if log[|log| - 1].Send? then 1 else 0
  }

  function Authentications(log: seq<Call>): nat {
    if log == [] then 0 else Authentications(log[..|log| - 1]) + if log[|log| - 1].Authenticate? then 1 else 0
  }

  /** Every authentication comes right after a failed send, and every failed send is followed by one. */
  predicate AuthenticatesAfterFailedSends(log: seq<Call>) {
    && (|log| > 0 ==> !log[0].Authenticate?)
    && (forall j :: 0 <= j < |log| - 1 ==>
          (log[j + 1].Authenticate? <==> log[j].Send? && log[j].result.Fail?))
    && (|log| > 0 ==> !(log[|log| - 1].Send? && log[|log| - 1].result.Fail?))
  }

  /**
   * One call of the closure: send, and after a failed send re-authenticate,
   * overwriting `errAuthentication`. `sends(n)` and `auths(n)` are the
   * errors the n-th send and n-th authentication return.
   */
  function SendAttempt(sends: nat -> Error, auths: nat -> Error, c: Captured): (r: (Captured, Error))
    ensures r.1 == sends(Sends(c.log))
    ensures Sends(r.0.log) == Sends(c.log) + 1
    ensures Authentications(r.0.log) == Authentications(c.log) + if r.1.Fail? then 1 else 0
    ensures r.0.errAuthentication == if r.1.Fail? then auths(Authentications(c.log)) else c.errAuthentication
  {
    var errSend := sends(Sends(c.log));
    if errSend.Fail? then
      var errAuthentication := auths(Authentications(c.log));
      var log := c.log + [Send(errSend), Authenticate(errAuthentication)];
      assert log[..|log| - 1][..|c.log|] == c.log;
      (Captured(log, errAuthentication), errSend)
    else
      var log := c.log + [Send(errSend)];
      assert log[..|log| - 1] == c.log;
      (Captured(log, c.errAuthentication), errSend)
  }

  lemma SendAttemptKeepsOrder(sends: nat -> Error, auths: nat -> Error, c: Captured)
    requires AuthenticatesAfterFailedSends(c.log)
    ensures AuthenticatesAfterFailedSends(SendAttempt(sends, auths, c).0.log)
  {
    var errSend := sends(Sends(c.log));
    var added := if errSend.Fail? then [Send(errSend), Authenticate(auths(Authentications(c.log)))]
                 else [Send(errSend)];
    var log := c.log + added;
    assert SendAttempt(sends, auths, c).0.log == log;
    var n := |c.log|;
    forall j | 0 <= j < |log| - 1
      ensures log[j + 1].Authenticate? <==> log[j].Send? && log[j].result.Fail?
    {
      if j < n - 1 {
        assert log[j] == c.log[j] && log[j + 1] == c.log[j + 1];
      } else if j == n - 1 {
        assert log[j] == c.log[n - 1] && log[j + 1] == Send(errSend);
      } else {
        assert errSend.Fail? && j == n;
        assert log[j] == Send(errSend) && log[j + 1].Authenticate?;
      }
    }
  }

  function Closure(sends: nat -> Error, auths: nat -> Error): Captured -> (Captured, Error) {
    c => SendAttempt(sends, auths, c)
  }

  /** How many of the first `n` sends fail. */
  function FailedSends(sends: nat -> Error, n: nat): (m: nat)
    ensures m <= n
    ensures (forall k :: 0 <= k < n ==> sends(k).Fail?) ==> m == n
  {
    if n == 0 then 0 else FailedSends(sends, n - 1) + if sends(n - 1).Fail? then 1 else 0
  }

  /** The facts ClosureCalls carries from one call of the closure to the next. */
  predicate ClosureInvariant(sends: nat -> Error, auths: nat -> Error, c: Captured, n: nat) {
    && Sends(c.log) == n
    && Authentications(c.log) == FailedSends(sends, n)
    && AuthenticatesAfterFailedSends(c.log)
    && c.errAuthentication == if Authentications(c.log) == 0 then Nil else auths(Authentications(c.log) - 1)
  }

  lemma ClosureStep(sends: nat -> Error, auths: nat -> Error, prev: Captured, n: nat)
    requires ClosureInvariant(sends, auths, prev, n)
    ensures ClosureInvariant(sends, auths, Closure(sends, auths)(prev).0, n + 1)
  {
    SendAttemptKeepsOrder(sends, auths, prev);
  }

  /**
   * After `n` calls of the closure: `n` sends, one authentication per failed
   * send, each right after it, and `errAuthentication` holds the error of
   * the latest authentication (nil before the first).
   */
  lemma {:induction false} ClosureCalls(sends: nat -> Error, auths: nat -> Error, n: nat)
    ensures ClosureInvariant(sends, auths, Retrying.StateAfter(Closure(sends, auths), Captured([], Nil), n), n)
  {
    if n > 0 {
      var prev := Retrying.StateAfter(Closure(sends, auths), Captured([], Nil), n - 1);
      ClosureCalls(sends, auths, n - 1);
      ClosureStep(sends, auths, prev, n - 1);
    }
  }

  /** The closure's call numbered `k` (from 0) returns the error of the k-th send. */
  lemma ClosureOutcome(sends: nat -> Error, auths: nat -> Error, k: nat)
    ensures Retrying.OutcomeAt(Closure(sends, auths), Captured([], Nil), k) == sends(k)
  {
    ClosureCalls(sends, auths, k);
  }

  /**
   * For any retry budget: when every send the budget allows fails, `retry`
   * fails after `Budget(retries)` sends, each followed by an authentication,
   * and `errAuthentication` holds the error of the last of them.
   */
  lemma ExhaustedRetryAuthenticatesAfterEverySend(retries: int, sends: nat -> Error, auths: nat -> Error)
    requires forall k :: 0 <= k < Retrying.Budget(retries) ==> sends(k).Fail?
    ensures var r := Retrying.RetrySpec(retries, Closure(sends, auths), Captured([], Nil));
      && r.err.Fail?
      && Sends(r.state.log) == Retrying.Budget(retries)
      && Authentications(r.state.log) == Retrying.Budget(retries)
      && r.state.errAuthentication == auths(Retrying.Budget(retries) - 1)
  {
    var f := Closure(sends, auths);
    var c0 := Captured([], Nil);
    var n := Retrying.Budget(retries);
    forall k | 0 <= k < n
      ensures Retrying.OutcomeAt(f, c0, k).Fail?
    {
      ClosureOutcome(sends, auths, k);
    }
    Retrying.RetryExhausted(retries, f, c0);
    ClosureCalls(sends, auths, n);
  }

  /** The outcome of `retry(1, …)` over the closure, case by case on the first two sends. */
  lemma SendUnderRetry(sends: nat -> Error, auths: nat -> Error)
    ensures var r := Retrying.RetrySpec(SendRetries, Closure(sends, auths), Captured([], Nil));
      && (sends(0).Nil? ==> r.err == Nil && r.state.log == [Send(Nil)])
      && (sends(0).Fail? && sends(1).Nil? ==>
            r.err == Nil && r.state.log == [Send(sends(0)), Authenticate(auths(0)), Send(Nil)])
      && (sends(0).Fail? && sends(1).Fail? ==>
            r.err.Fail? &&
            r.state == Captured([Send(sends(0)), Authenticate(auths(0)), Send(sends(1)), Authenticate(auths(1))],
                                auths(1)))
  {
    var f := Closure(sends, auths);
    var c0 := Captured([], Nil);
    var c1 := SendAttempt(sends, auths, c0).0;
    assert Retrying.StateAfter(f, c0, 1) == c1;
    assert Retrying.OutcomeAt(f, c0, 0) == sends(0);
    if sends(0).Nil? {
      assert c1.log == [Send(Nil)];
      Retrying.RetryStopsAtFirstSuccess(SendRetries, f, c0, 0);
    } else {
      assert c1 == Captured([Send(sends(0)), Authenticate(auths(0))], auths(0));
      assert Sends(c1.log) == 1 && Authentications(c1.log) == 1 by {
        assert c1.log[..1] == [Send(sends(0))];
      }
      var c2 := SendAttempt(sends, auths, c1).0;
      assert Retrying.StateAfter(f, c0, 2) == c2;
      assert Retrying.OutcomeAt(f, c0, 1) == sends(1);
      if sends(1).Nil? {
        assert c2.log == c1.log + [Send(Nil)];
        Retrying.RetryStopsAtFirstSuccess(SendRetries, f, c0, 1);
      } else {
        assert c2.log == c1.log + [Send(sends(1)), Authenticate(auths(1))];
        Retrying.RetryExhausted(SendRetries, f, c0);
      }
    }
  }

  /** Under `retry(1, …)` the closure sends once or twice and authenticates only after a failed send. */
  lemma RetriedLogShape(sends: nat -> Error, auths: nat -> Error)
    ensures var log := Retrying.RetrySpec(SendRetries, Closure(sends, auths), Captured([], Nil)).state.log;
      && 1 <= Sends(log) <= 2
      && Authentications(log) <= Sends(log)
      && AuthenticatesAfterFailedSends(log)
  {
    var r := Retrying.RetrySpec(SendRetries, Closure(sends, auths), Captured([], Nil));
    Retrying.RetryFromFacts(SendRetries, Closure(sends, auths), Captured([], Nil), 0);
    ClosureCalls(sends, auths, r.calls);
  }

  method Webhook(decodeErr: Error, sends: nat -> Error, auths: nat -> Error)
    returns (outcome: HandlerOutcome, log: seq<Call>)
    ensures decodeErr.Fail? ==>
      log == [] && outcome == Responded(SendJSONResponse(StatusBadRequest, decodeErr.message))
    ensures decodeErr.Nil? && sends(0).Nil? ==>
      log == [Send(Nil)] && outcome == Responded(SendJSONResponse(StatusOK, "Success"))
    ensures decodeErr.Nil? && sends(0).Fail? && sends(1).Nil? ==>
      log == [Send(sends(0)), Authenticate(auths(0)), Send(Nil)] &&
      outcome == Responded(SendJSONResponse(StatusOK, "Success"))
    ensures decodeErr.Nil? && sends(0).Fail? && sends(1).Fail? ==>
      log == [Send(sends(0)), Authenticate(auths(0)), Send(sends(1)), Authenticate(auths(1))] &&
      outcome == if auths(1).Fail? then Responded(SendJSONResponse(StatusUnauthorized, auths(1).message))
                 else NilErrorPanic
    ensures decodeErr.Nil? ==>
      && 1 <= Sends(log) <= 2
      && Authentications(log) <= 2
      && AuthenticatesAfterFailedSends(log)
    ensures decodeErr.Nil? ==>
      (outcome == Responded(SendJSONResponse(StatusOK, "Success")) <==> Send(Nil) in log)
    ensures outcome.Responded? && outcome.written.header == StatusUnauthorized ==>
      |log| > 0 && log[|log| - 1] == Authenticate(Fail(outcome.written.body.message))
    ensures outcome.NilErrorPanic? <==>
      decodeErr.Nil? && Send(Nil) !in log && log[|log| - 1] == Authenticate(Nil)
  {
    if decodeErr.Fail? {
      outcome := Responded(SendJSONResponse(StatusBadRequest, decodeErr.message));
      log := [];
      return;
    }
    var c0 := Captured([], Nil);
    var errSend, captured, calls, trace := Retrying.Retry(SendRetries, SendRetryPause, Closure(sends, auths), c0);
    log := captured.log;
    RetriedLogShape(sends, auths);
    SendUnderRetry(sends, auths);
    if errSend.Fail? {
      if captured.errAuthentication.Nil? {
        outcome := NilErrorPanic;
      } else {
        outcome := Responded(SendJSONResponse(StatusUnauthorized, captured.errAuthentication.message));
      }
    } else {
      outcome := Responded(SendJSONResponse(StatusOK, "Success"));
    }
  }
}
