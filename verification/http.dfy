/** The authenticated HTTP client's failure taxonomy and its retry rule
    (axios with axios-retry, `retries: 3`). */
module Http {
  import opened Wrappers

  /** Errors thrown by the gateway's own code rather than by axios. */
  datatype Reason =
    | NoRefreshToken
    | StatusFetchFailed(deviceId: string)
    | InitialTokensFailed

  /** `Axios` is an error axios produced: the upstream status when a response
      arrived, and whether axios-retry classifies it as a network error or an
      idempotent-request error (a library predicate this model takes as given).
      `Thrown` is any other error, for which `axios.isAxiosError` is false. */
  datatype Error =
    | Axios(status: Option<int>, networkOrIdempotent: bool)
    | Thrown(reason: Reason)

  const MaxRetries: nat := 3

  /** The client's retry condition. */
  function RetryEligible(e: Error): (eligible: bool)
    ensures eligible ==> e.Axios?
    ensures e.Axios? && e.status.Some? && 400 <= e.status.value < 500 && e.status.value != 429 ==>
              (eligible <==> e.networkOrIdempotent)
    ensures e.Axios? && e.status.Some? && e.status.value >= 500 ==> eligible
    ensures e.Axios? && e.status == Some(429) ==> eligible
    ensures e.Axios? && e.networkOrIdempotent ==> eligible
    ensures e.Axios? && !e.networkOrIdempotent && (e.status.None? || e.status.value < 400) ==> !eligible
  {
    && e.Axios?
    && (|| e.networkOrIdempotent
        || (e.status.Some? && e.status.value >= 500)
        || e.status == Some(429))
  }

  /** What a caller of the client finally sees, and how many attempts it took. */
  datatype Delivery<T> = Delivery(result: Result<T, Error>, attempts: nat)

  /** Sends a request whose k-th attempt (counting from 0) ends with
      `attempt(k)`, starting after `done` attempts have already failed. */
  function Send<T>(attempt: nat -> Result<T, Error>, done: nat): (r: Delivery<T>)
    requires done <= MaxRetries
    ensures done < r.attempts <= MaxRetries + 1
    ensures r.result == attempt(r.attempts - 1)
    ensures forall k :: done <= k < r.attempts - 1 ==> attempt(k).Failure? && RetryEligible(attempt(k).error)
    ensures r.result.Failure? ==> !RetryEligible(r.result.error) || r.attempts == MaxRetries + 1
    decreases MaxRetries - done
  {
    match attempt(done)
    case Success(v) => Delivery(Success(v), done + 1)
    case Failure(e) =>
      if done < MaxRetries && RetryEligible(e) then Send(attempt, done + 1)
      else Delivery(Failure(e), done + 1)
  }

  /** A 4xx response other than 429 is surfaced after a single attempt. */
  lemma ClientErrorNotRetried<T>(attempt: nat -> Result<T, Error>, status: int)
    requires 400 <= status < 500 && status != 429
    requires attempt(0) == Failure(Axios(Some(status), false))
    ensures Send(attempt, 0) == Delivery(Failure(Axios(Some(status), false)), 1)
  {
  }

  /** Retry-eligible failures on every attempt exhaust the budget: exactly
      four attempts, and the last failure is surfaced. */
  lemma PersistentFailureExhaustsRetries<T>(attempt: nat -> Result<T, Error>)
    requires forall k: nat :: k <= MaxRetries ==> attempt(k).Failure? && RetryEligible(attempt(k).error)
    ensures Send(attempt, 0).attempts == MaxRetries + 1
    ensures Send(attempt, 0).result == attempt(MaxRetries)
  {
  }

  /** Rate limiting on every attempt is retried to the end of the budget:
      four attempts, the last 429 surfaced. */
  lemma RateLimitedExhaustsRetries<T>(attempt: nat -> Result<T, Error>, networkOrIdempotent: bool)
    requires forall k: nat :: k <= MaxRetries ==> attempt(k) == Failure(Axios(Some(429), networkOrIdempotent))
    ensures Send(attempt, 0).attempts == MaxRetries + 1
    ensures Send(attempt, 0).result == Failure(Axios(Some(429), networkOrIdempotent))
  {
    PersistentFailureExhaustsRetries(attempt);
  }

  /** The first success ends the exchange: attempts stop at the first k that
      succeeds when every earlier attempt failed retriably. */
  lemma FirstSuccessIsDelivered<T>(attempt: nat -> Result<T, Error>, k: nat)
    requires k <= MaxRetries && attempt(k).Success?
    requires forall j: nat :: j < k ==> attempt(j).Failure? && RetryEligible(attempt(j).error)
    ensures Send(attempt, 0) == Delivery(attempt(k), k + 1)
  {
  }
}
