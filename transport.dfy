/**
 * `request_with_retries` of dw-downloader.py. The network is an oracle:
 * `net(n)` is what the n-th attempt (1-based) gets back, a response or a
 * `requests.RequestException`. The back-off sleeps are counted, not timed.
 */
module Transport {

  /** What the scripts read of a `requests.Response`. */
  datatype Response = Response(status: int, finalUrl: string, contentType: string, body: string)

  /** The outcome of one `session.request(...)` call. */
  datatype Attempt = Resp(response: Response) | Exc(message: string)

  /** Statuses that are backed off and retried. */
  const RetryStatuses: set<int> := {429, 500, 502, 503, 504}

  /** `RateLimitConfig().max_retries`. */
  const DefaultMaxRetries := 6

  predicate Retryable(a: Attempt) {
    a.Exc? || a.response.status in RetryStatuses
  }

  /** A response was returned after `attempts` attempts, or all attempts failed (`RuntimeError`). */
  datatype RetryOutcome = Delivered(response: Response, attempts: nat) | Exhausted(attempts: nat)

  /** The outcome of the attempts numbered `attempt` .. `maxRetries`. */
  function RetryFrom(net: nat -> Attempt, attempt: nat, maxRetries: int): (o: RetryOutcome)
    requires 1 <= attempt
    ensures o.Delivered? ==> attempt <= o.attempts <= maxRetries
                             && net(o.attempts) == Resp(o.response)
                             && o.response.status !in RetryStatuses
    ensures o.Delivered? ==> forall i: nat :: attempt <= i < o.attempts ==> Retryable(net(i))
    ensures o.Exhausted? ==> o.attempts == (if maxRetries < attempt then attempt - 1 else maxRetries)
    ensures o.Exhausted? ==> forall i: nat :: attempt <= i <= maxRetries ==> Retryable(net(i))
    decreases maxRetries - attempt
  {
    if attempt > maxRetries then Exhausted(attempt - 1)
    else if Retryable(net(attempt)) then RetryFrom(net, attempt + 1, maxRetries)
    else Delivered(net(attempt).response, attempt)
  }

  /** Specification of `request_with_retries`: attempts 1 .. max_retries in order. */
  function Retry(net: nat -> Attempt, maxRetries: int): RetryOutcome {
    RetryFrom(net, 1, maxRetries)
  }

  /**
   * The attempt loop. `backoffs` counts the back-off sleeps: one after every
   * retryable status or exception, the last attempt included.
   */
  method RequestWithRetries(net: nat -> Attempt, maxRetries: int) returns (outcome: RetryOutcome, backoffs: nat)
    ensures outcome == Retry(net, maxRetries)
    ensures backoffs == if outcome.Delivered? then outcome.attempts - 1 else outcome.attempts
  {
    var attempt := 1;
    backoffs := 0;
    while attempt <= maxRetries
      invariant 1 <= attempt
      invariant maxRetries >= 1 ==> attempt <= maxRetries + 1
      invariant RetryFrom(net, attempt, maxRetries) == Retry(net, maxRetries)
      invariant backoffs == attempt - 1
      decreases maxRetries - attempt
    {
      var a := net(attempt);
      if !Retryable(a) {
        return Delivered(a.response, attempt), backoffs;
      }
      backoffs := backoffs + 1;
      attempt := attempt + 1;
    }
    outcome := Exhausted(attempt - 1);
  }

  /**
   * The contract of `request_with_retries`: at most `max_retries` attempts;
   * the first response whose status is not retryable is returned as it is,
   * whatever its body; when every attempt is retryable or raises, it fails
   * after exactly `max_retries` attempts.
   */
  lemma RetryContract(net: nat -> Attempt, maxRetries: int)
    ensures var o := Retry(net, maxRetries);
            && o.attempts <= (if maxRetries < 0 then 0 else maxRetries)
            && (o.Delivered? ==> 1 <= o.attempts && net(o.attempts) == Resp(o.response)
                                 && o.response.status !in RetryStatuses
                                 && forall i: nat :: 1 <= i < o.attempts ==> Retryable(net(i)))
            && (o.Exhausted? <==> forall i: nat :: 1 <= i <= maxRetries ==> Retryable(net(i)))
            && (o.Exhausted? ==> o.attempts == (if maxRetries < 0 then 0 else maxRetries))
  {
    var o := Retry(net, maxRetries);
    if o.Delivered? {
      assert !Retryable(net(o.attempts));
    }
  }

  /** Two 503s and then a 200: the 200 is returned by the third attempt. */
  lemma TwoUnavailableThenOk(ok: Response)
    requires ok.status == 200
    ensures Retry(n => if n <= 2 then Resp(ok.(status := 503)) else Resp(ok), DefaultMaxRetries) == Delivered(ok, 3)
  {
    var net: nat -> Attempt := n => if n <= 2 then Resp(ok.(status := 503)) else Resp(ok);
    assert Retryable(net(1)) && Retryable(net(2)) && !Retryable(net(3));
    assert RetryFrom(net, 3, DefaultMaxRetries) == Delivered(ok, 3);
    assert RetryFrom(net, 2, DefaultMaxRetries) == Delivered(ok, 3);
  }

  /** An endpoint that always answers 503 exhausts all `max_retries` attempts. */
  lemma AlwaysUnavailable(unavailable: Response, maxRetries: nat)
    requires unavailable.status == 503
    ensures Retry(n => Resp(unavailable), maxRetries) == Exhausted(maxRetries)
  {
  }
}
