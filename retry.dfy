/**
 * The bounded 502 retry shared by `create_and_populate_playlist` and
 * `unfollow_playlist`: a request is sent with `retries = 0`; a reply with
 * status 502 re-sends the same request with `retries + 1` while
 * `retries < MaxRetries` and otherwise ends the operation; a success ends it
 * through the success callback; any other status has no handler and ends
 * it silently.
 *
 * The server is abstracted as the replies the successive attempts receive;
 * an attempt beyond the end of that sequence never gets a reply.
 */
module Retry {

  /** `MAX_RETRIES`: how many times a request is re-sent after 502 replies. */
  const MaxRetries: nat := 3

  /** The one status the source retries on. */
  const BadGateway: int := 502

  /** The reply to one attempt: a success with its body, or an error status. */
  datatype Reply<T> = Success(body: T) | ErrorStatus(code: int)

  /** How a retried operation ends. */
  datatype Outcome<T> =
    | Succeeded(body: T)       // the success callback ran with this body
    | ExceededMaxRetries       // a 502 arrived when `retries == MaxRetries`
    | Unhandled(code: int)     // a status other than 502: no callback runs
    | NoReply                  // the last attempt was never answered

  /** What the callbacks do with a reply to the attempt made with counter `retries`. */
  datatype Decision<T> = RetryAgain | Stop(outcome: Outcome<T>)

  function OnReply<T>(reply: Reply<T>, retries: nat): (r: Decision<T>)
    ensures r.RetryAgain? <==> reply.ErrorStatus? && reply.code == BadGateway && retries < MaxRetries
    ensures r.Stop? ==> !r.outcome.NoReply?
    ensures reply.Success? ==> r == Stop(Succeeded(reply.body))
  {
    match reply
    case Success(body) => Stop(Succeeded(body))
    case ErrorStatus(code) =>
      if code == BadGateway then
        if retries < MaxRetries then RetryAgain else Stop(ExceededMaxRetries)
      else Stop(Unhandled(code))
  }

  /**
   * `n` attempts ending in `outcome` are a run of the retry policy on
   * `replies`: between 1 and `MaxRetries + 1` attempts, every attempt but
   * the last answered with a 502, and the outcome the one the last reply
   * decides, or `NoReply` exactly when the last attempt is beyond the
   * replies.
   */
  predicate IsRun<T(==)>(replies: seq<Reply<T>>, n: nat, outcome: Outcome<T>)
  {
    1 <= n <= MaxRetries + 1 &&
    (forall j :: 0 <= j < n - 1 ==> j < |replies| && replies[j] == ErrorStatus(BadGateway)) &&
    (outcome.NoReply? <==> n == |replies| + 1) &&
    (!outcome.NoReply? ==> n <= |replies| && OnReply(replies[n - 1], n - 1) == Stop(outcome))
  }

  /**
   * Sends `request` until a reply ends the operation; `sent` lists every
   * attempt, each the same request.
   */
  method RunWithRetry<R, T(==)>(request: R, replies: seq<Reply<T>>) returns (sent: seq<R>, outcome: Outcome<T>)
    ensures IsRun(replies, |sent|, outcome)
    ensures forall j :: 0 <= j < |sent| ==> sent[j] == request
  {
    var retries: nat := 0;
    sent := [request];
    outcome := NoReply;
    while true
      invariant |sent| == retries + 1 && retries <= MaxRetries && retries <= |replies|
      invariant forall j :: 0 <= j < |sent| ==> sent[j] == request
      invariant forall j :: 0 <= j < retries ==> replies[j] == ErrorStatus(BadGateway)
      decreases MaxRetries - retries
    {
      if retries >= |replies| {
        outcome := NoReply;
        return;
      }
      var decision := OnReply(replies[retries], retries);
      if decision.Stop? {
        outcome := decision.outcome;
        return;
      }
      retries := retries + 1;
      sent := sent + [request];
    }
  }

  /** The replies decide the run: there is one number of attempts and one outcome. */
  lemma OutcomeDetermined<T>(replies: seq<Reply<T>>, n1: nat, o1: Outcome<T>, n2: nat, o2: Outcome<T>)
    requires IsRun(replies, n1, o1) && IsRun(replies, n2, o2)
    ensures n1 == n2 && o1 == o2
  {
  }

  /** Four 502 replies in a row end the operation after the fourth attempt (three retries); no fifth is sent. */
  lemma FourBadGatewaysExceed<T>(replies: seq<Reply<T>>, n: nat, outcome: Outcome<T>)
    requires |replies| >= MaxRetries + 1
    requires forall j :: 0 <= j <= MaxRetries ==> replies[j] == ErrorStatus(BadGateway)
    requires IsRun(replies, n, outcome)
    ensures n == MaxRetries + 1 && outcome == ExceededMaxRetries
  {
  }

  /** Three 502 replies then a success: the fourth attempt succeeds, so three 502s alone do not abandon the operation. */
  lemma ThreeBadGatewaysThenSuccess<T>(body: T, n: nat, outcome: Outcome<T>)
    requires IsRun([ErrorStatus(BadGateway), ErrorStatus(BadGateway), ErrorStatus(BadGateway), Success(body)], n, outcome)
    ensures n == 4 && outcome == Succeeded(body)
  {
  }

  /** A success or a non-502 status on the first attempt is the only attempt. */
  lemma NoRetryWithout502<T>(replies: seq<Reply<T>>, n: nat, outcome: Outcome<T>)
    requires |replies| > 0 && replies[0] != ErrorStatus(BadGateway)
    requires IsRun(replies, n, outcome)
    ensures n == 1
    ensures outcome == if replies[0].Success? then Succeeded(replies[0].body) else Unhandled(replies[0].code)
  {
  }
}
