# alertmanager-webhook-rocketchat: retry, configuration check and webhook handler

This project models the request-handling core of the Alertmanager-to-Rocket.Chat
webhook relay in `main.go` and proves properties of that model:

- `retry(retries, sleep, f)` calls `f` until it returns nil or the attempt
  counter reaches `retries`. It pauses between attempts. Once the budget is spent it
  returns `after <retries> retries, last error: <text>`. The closure `f` is a step
  function `S -> (S, Error)` over the variables it captures, so the webhook's
  closure and a scripted closure are handled by the same `Retry` method.
  A ghost trace records every call and every pause.
- `checkConfig` checks that the five settings (ID, email, password, host,
  scheme) are non-empty. It returns the error for the first empty one.
- `webhook` decodes the body. It then sends the notification under
  `retry(1, 2*time.Second, …)`, and the closure re-authenticates after every
  failed send, overwriting the captured `errAuthentication`. Finally it writes
  a `(status, message)` JSON response: 400 with the decode error, 200
  `Success`, or 401 with the text of the most recent authentication error.
  Decoding, sending and authenticating are inputs: `decodeErr` is the error the
  decoder returns, and `sends(n)` / `auths(n)` are the errors returned by the
  n-th send and the n-th authentication.

A Go `error` is `Nil` or `Fail(message)`, where `message` is what `Error()` returns.

When both sends fail and the second authentication returns nil,
`errAuthentication.Error()` on main.go:78 dereferences a nil interface. The
model exposes this as the outcome `NilErrorPanic` instead of inventing a
message. `Webhook.Webhook` states exactly when it happens.

The comment on main.go:77 speaks of a 403, but the code sends
`http.StatusUnauthorized` (401); the model follows the code. One
authentication follows every failed send. So when every attempt of
`retry(R, …)` over the closure fails, there are `Budget(R)` sends and
`Budget(R)` authentications: R+1 of each for R ≥ 0, and one of each for R < 0.
The handler itself uses R = 1, which gives two of each.

## Model

| member | source | states |
|---|---|---|
| `Retrying.Retry` | main.go:85-101 | the loop's returned error and final captured state equal those of `RetrySpec`, and so does its ghost count of calls of `f`; its ghost trace is the calls of `f` with one pause of `sleep` between consecutive calls |
| `Retrying.RetryFromFacts` | main.go:86-100 | from any pass of the loop on: the call count stays within the budget, every call before the last failed, nil is returned iff the last call succeeded, and a non-nil result means the whole budget was used and the error names the last call's error |
| `Retrying.RetryCallCount` | main.go:85-94 | `f` runs at least once, at most `retries + 1` times, and exactly once when `retries <= 0` |
| `Retrying.RetrySucceedsIff` | main.go:86-94 | `retry` returns nil iff one of the first `Budget(retries)` calls of `f` returns nil |
| `Retrying.RetryStopsAtFirstSuccess` | main.go:86-90 | if call k (from 0, within the budget) is the first to return nil, `retry` returns nil after exactly k+1 calls, leaving the captured state as after k+1 calls |
| `Retrying.RetryExhausted` | main.go:92-100 | if every call in the budget fails, `f` ran `Budget(retries)` times and the error is `after <retries> retries, last error: <E>` with E the final call's error, from which the count and E can be read back |
| `Retrying.AttemptTraceShape` | main.go:86-98 | a trace of n calls alternates calls and pauses: 2n-1 steps, n-1 pauses, call k at position 2k |
| `Retrying.RetrySleepsBetweenFailures` | main.go:92-98 | `retry` pauses exactly calls-1 times, each pause right after a failed call and right before another call |
| `Retrying.FailsThenSucceeds` | main.go:85-101 | an operation that fails n times and then succeeds: nil after n+1 calls when n < `Budget(retries)`, otherwise the exhaustion error after `Budget(retries)` calls |
| `Format.FormatNat` | main.go:100 | `%d` of a non-negative value is a non-empty run of decimal digits that starts with 0 only for zero |
| `Format.FormatInt` | main.go:100 | `%d` of an int starts with a minus sign exactly for negative values and contains no space |
| `Format.ParseFormatNat` | main.go:100 | reading the digits of a non-negative value back gives that value |
| `Format.RetryMessage` | main.go:100 | the exhaustion text starts with `after ` and ends with the last error's text; `RetryMessageRoundTrip` proves that the count and that text can be read back from it |
| `Format.ParseFormatInt` | main.go:100 | reading `%d` of any int back gives that int |
| `Format.RetryMessageRoundTrip` | main.go:100 | the exhaustion message identifies both the retry count and the last error's text |
| `Configuration.CheckConfig` | main.go:31-48 | nil exactly when ID, email, password, host and scheme are all non-empty |
| `Configuration.CheckConfigFirstMissing` | main.go:31-48 | the first empty setting in the order ID, email, password, host, scheme decides the error `rocket.chat <name> not provided`, whatever the later ones hold |
| `Webhook.SendJSONResponse` | main.go:135-141 | the status written to the header is the status in the body, and the body carries the given message |
| `Webhook.SendAttempt` | main.go:60-73 | one call of the closure sends once and returns the send's error; it authenticates once exactly when the send failed, and only then replaces `errAuthentication` with that authentication's error |
| `Webhook.SendAttemptKeepsOrder` | main.go:61-64 | a call of the closure keeps the call log in the shape "every authentication right after a failed send, every failed send followed by an authentication" |
| `Webhook.ClosureStep` | main.go:60-73 | one more call of the closure keeps the closure invariant: one send per call, one authentication per failed send, the log shape, and `errAuthentication` holding the latest authentication's error |
| `Webhook.ClosureCalls` | main.go:58-73 | after n calls of the closure: n sends, as many authentications as failed sends among them, the log shape, and `errAuthentication` is nil before the first authentication and the latest one's error after it |
| `Webhook.ClosureOutcome` | main.go:60-71 | the closure's k-th call returns the error of the k-th send |
| `Webhook.ExhaustedRetryAuthenticatesAfterEverySend` | main.go:60-73 | for any retry budget, if every send it allows fails, `retry` fails after `Budget(retries)` sends and `Budget(retries)` authentications, and `errAuthentication` holds the error of the last authentication |
| `Webhook.RetriedLogShape` | main.go:60-64 | under `retry(1, …)` the closure sends once or twice, authenticates at most as often as it sends, and authenticates only right after a failed send |
| `Webhook.SendUnderRetry` | main.go:60-73 | `retry(1, …)` over the closure: first send ok gives nil after one send; first failed and second ok gives nil after send, authenticate, send; both failed gives an error after two send/authenticate pairs with `errAuthentication` the second authentication's error |
| `Webhook.Webhook` | main.go:50-83 | a decode error gives 400 with its text and no send or authentication; otherwise 1 or 2 sends and at most 2 authentications, each right after a failed send; 200 `Success` iff some send succeeded; 401 carries the text of the last authentication error; the nil-error panic happens iff every send failed and the last authentication returned nil |

## Left out

- `main`, flag parsing, `http.HandleFunc`, `ListenAndServe` and the metrics handler (main.go:106-133): process startup and network plumbing. The fatal exit when `checkConfig` fails is part of that.
- `loadConfig` (main.go:163-179): file reading and YAML decoding by a library. `Config` is a plain record of the five strings.
- `readRequestBody` (main.go:151-161): JSON decoding by a library. Only the decoder's error is modelled. The decoded alert data is not modelled, because it only flows into `SendNotification`, whose result is an input.
- `json.Marshal` and `w.Write` in `sendJSONResponse` (main.go:143-148): serialisation by a library; only the written header and the `(Status, Message)` body are kept.
- `SendNotification`, `AuthenticateRocketChatClient` and `GetRocketChatClient` are not part of this model: they live in other files and do network I/O. Their results are inputs.
- `time.Sleep` and every `log.Print*` call: timing and logging. Pauses appear only in `Retry`'s ghost trace, with their duration.
- Concurrent requests sharing the global `rocketChatClient` session: concurrency is out of scope.
- Go's fixed-width `int`: not modelled. The loop counter never exceeds `retries`, so nothing in the loop can overflow.
