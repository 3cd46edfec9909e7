/**
 * Bounded exponential-backoff retry around database operations. A database
 * call is modelled by `op`, the outcome of its n-th invocation (counted from
 * 0); the sleeps between attempts are returned as a list of delays instead
 * of being slept.
 */
module Retry {
  import opened Wrappers

  /** Maximum number of retries after the first attempt. */
  const MAX_RETRIES: nat := 5

  /** A database driver error: a database error carries SQLite's extended result code. */
  datatype DbError = Database(code: Option<string>) | OtherError(description: string)

  /** Result codes of busy, locked and I/O conditions that are worth retrying. */
  const TRANSIENT_CODES: set<string> :=
    {"5", "6", "10", "266", "522", "1032", "2314", "3338", "4618", "5386", "5642"}

  function IsTransientError(e: DbError): (b: bool)
    ensures b <==> e.Database? && e.code.Some? && e.code.value in TRANSIENT_CODES
  {
    match e
    case Database(Some(c)) => c in TRANSIENT_CODES
    case _ => false
  }

  function Pow2(n: nat): (p: nat)
    ensures p >= 1
  {
    if n == 0 then 1 else 2 * Pow2(n - 1)
  }

  /** Delay in milliseconds before retry number `attempt`: 200 * 2^(attempt - 1), the subtraction saturating. */
  function BackoffDelay(attempt: nat): nat
  {
    200 * Pow2(if attempt == 0 then 0 else attempt - 1)
  }

  /** The delay doubles from one retry to the next. */
  lemma BackoffDoubles(attempt: nat)
    requires attempt >= 1
    ensures BackoffDelay(attempt + 1) == 2 * BackoffDelay(attempt)
  {
  }

  /** Attempt 0 saturates to the base delay; the five retries wait 200, 400, 800, 1600 and 3200 ms. */
  lemma BackoffSchedule()
    ensures BackoffDelay(0) == 200
    ensures BackoffDelay(1) == 200 && BackoffDelay(2) == 400 && BackoffDelay(3) == 800
    ensures BackoffDelay(4) == 1600 && BackoffDelay(5) == 3200
  {
  }

  /** How a retried operation ended and how many times the operation ran. */
  datatype Run<T> = Run(result: Result<T, DbError>, calls: nat)

  /**
   * The retry loop from the point where `attempts` retries have been used:
   * the result is the outcome of the last call; every earlier call failed
   * transiently; and the last one succeeded, failed for good, or used up the
   * retries.
   */
  function RetryFrom<T>(op: nat -> Result<T, DbError>, attempts: nat): (run: Run<T>)
    requires attempts <= MAX_RETRIES
    ensures attempts < run.calls <= MAX_RETRIES + 1
    ensures run.result == op(run.calls - 1)
    ensures forall k :: attempts <= k < run.calls - 1 ==> op(k).Err? && IsTransientError(op(k).error)
    ensures run.result.Err? ==> !IsTransientError(run.result.error) || run.calls == MAX_RETRIES + 1
    decreases MAX_RETRIES - attempts
  {
    match op(attempts)
    case Ok(v) => Run(Ok(v), attempts + 1)
    case Err(e) =>
      if IsTransientError(e) && attempts < MAX_RETRIES then RetryFrom(op, attempts + 1)
      else Run(Err(e), attempts + 1)
  }

  /** The whole retry loop. */
  function Retried<T>(op: nat -> Result<T, DbError>): Run<T>
  {
    RetryFrom(op, 0)
  }

  /** A non-transient error is returned after the first call, without a retry. */
  lemma NonTransientNotRetried<T>(op: nat -> Result<T, DbError>)
    requires op(0).Err? && !IsTransientError(op(0).error)
    ensures Retried(op) == Run(op(0), 1)
  {
  }

  /** A success after `k` transient failures returns that attempt's value unchanged, after k + 1 calls. */
  lemma {:induction false} SuccessAfterTransients<T>(op: nat -> Result<T, DbError>, k: nat, from: nat)
    requires from <= k <= MAX_RETRIES
    requires forall j :: from <= j < k ==> op(j).Err? && IsTransientError(op(j).error)
    requires op(k).Ok?
    ensures RetryFrom(op, from) == Run(op(k), k + 1)
    decreases k - from
  {
    if from < k {
      SuccessAfterTransients(op, k, from + 1);
    }
  }

  /**
   * `query_with_retry`: runs `op` until it succeeds, fails with a
   * non-transient error, or has been retried MAX_RETRIES times. `delays` are
   * the backoff sleeps taken, in order.
   */
  method QueryWithRetry<T>(op: nat -> Result<T, DbError>) returns (r: Result<T, DbError>, calls: nat, delays: seq<nat>)
    ensures Run(r, calls) == Retried(op)
    ensures 1 <= calls <= MAX_RETRIES + 1
    ensures delays == Backoffs(calls - 1)
  {
    var attempts: nat := 0;
    delays := [];
    while true
      invariant attempts <= MAX_RETRIES
      invariant RetryFrom(op, attempts) == Retried(op)
      invariant delays == Backoffs(attempts)
      decreases MAX_RETRIES - attempts
    {
      match op(attempts)
      case Ok(v) =>
        return Ok(v), attempts + 1, delays;
      case Err(e) =>
        if IsTransientError(e) && attempts < MAX_RETRIES {
          BackoffsSnoc(attempts);
          attempts := attempts + 1;
          delays := delays + [BackoffDelay(attempts)];
        } else {
          return Err(e), attempts + 1, delays;
        }
    }
  }

  /** The sleeps before the first `n` retries, in order. */
  function Backoffs(n: nat): (ds: seq<nat>)
    ensures |ds| == n
    ensures forall i :: 0 <= i < n ==> ds[i] == BackoffDelay(i + 1)
  {
    seq(n, i requires 0 <= i < n => BackoffDelay(i + 1))
  }

  /** One more retry sleeps the next backoff delay after the earlier ones. */
  lemma BackoffsSnoc(n: nat)
    ensures Backoffs(n + 1) == Backoffs(n) + [BackoffDelay(n + 1)]
  {
    assert Backoffs(n + 1) == Backoffs(n) + [BackoffDelay(n + 1)];
  }

  /** `execute_with_retry`: the same loop for operations that return no value. */
  method ExecuteWithRetry(op: nat -> Result<(), DbError>) returns (r: Result<(), DbError>, calls: nat, delays: seq<nat>)
    ensures Run(r, calls) == Retried(op)
    ensures 1 <= calls <= MAX_RETRIES + 1
    ensures r.Err? ==> forall k :: 0 <= k < calls ==> op(k).Err?
    ensures |delays| == calls - 1
  {
    r, calls, delays := QueryWithRetry(op);
  }
}
