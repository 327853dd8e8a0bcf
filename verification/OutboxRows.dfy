/** One row of the email outbox as a value, and what each repository call makes of it.
    Time is an integer number of microseconds, the resolution of a Postgres timestamp. */
module OutboxRows {
  import opened Prelude

  type Id = nat
  type Time = int

  const SECOND: int := 1_000_000
  const STALE_AFTER: int := 300 * SECOND
  const MAX_BACKOFF_SECONDS: int := 3600
  const MAX_ERROR_LENGTH: nat := 2000

  datatype Status = Pending | Processing | Sent | Failed

  datatype Row = Row(
    status: Status,
    attempts: nat,
    maxAttempts: int,
    nextAttemptAt: Time,
    lockedAt: Option<Time>,
    sentAt: Option<Time>,
    lastError: Option<string>,
    updatedAt: Time)

  predicate Terminal(r: Row) {
    r.status == Sent || r.status == Failed
  }

  /** The number of failures a row may take before it is given up. A configured maximum below
      one still allows one send, because the count is compared only after that send fails. */
  function AttemptLimit(r: Row): nat {
    if r.maxAttempts < 1 then 1 else r.maxAttempts
  }

  // ----- backoff -----

  function Pow2(e: nat): (p: nat)
    ensures p >= 1
  {
    if e == 0 then 1 else 2 * Pow2(e - 1)
  }

  function ComputeBackoffSeconds(base: int, attempts: int): int {
    var exponent := if attempts - 1 > 0 then attempts - 1 else 0;
    var delay := base * Pow2(exponent);
    if delay < MAX_BACKOFF_SECONDS then delay else MAX_BACKOFF_SECONDS
  }

  /** The pauses before retries 1 .. n-1, added up. */
  function TotalBackoff(base: int, n: nat): int {
    if n <= 1 then 0 else TotalBackoff(base, n - 1) + ComputeBackoffSeconds(base, n - 1)
  }

  lemma {:induction false} ScaledPow2Monotone(base: int, a: nat, b: nat)
    requires base >= 0 && a <= b
    ensures base * Pow2(a) <= base * Pow2(b)
    decreases b - a
  {
    if a < b {
      ScaledPow2Monotone(base, a, b - 1);
      assert base * Pow2(b) == 2 * (base * Pow2(b - 1));
    }
  }

  /** Later failures never wait less than earlier ones. */
  lemma BackoffMonotone(base: int, a: int, b: int)
    requires base >= 0 && a <= b
    ensures ComputeBackoffSeconds(base, a) <= ComputeBackoffSeconds(base, b)
  {
    var ea := if a - 1 > 0 then a - 1 else 0;
    var eb := if b - 1 > 0 then b - 1 else 0;
    ScaledPow2Monotone(base, ea, eb);
  }

  lemma {:induction false} BackoffAtLeastBase(base: int, attempts: int)
    requires base >= 0
    ensures ComputeBackoffSeconds(base, attempts) >= if base < MAX_BACKOFF_SECONDS then base else MAX_BACKOFF_SECONDS
  {
    BackoffMonotone(base, 1, if attempts < 1 then 1 else attempts);
    assert base * Pow2(0) == base;
  }

  lemma DoubledTerm(base: int, p: nat)
    ensures base * (2 * p) == 2 * (base * p)
    ensures base * p <= 0 || base * p <= base * (2 * p)
  {}

  lemma NextPartialSum(base: int, p: nat)
    ensures base * (2 * p - 1) == base * (p - 1) + base * p
  {}

  /** Until the cap is reached the pauses form a geometric series, and no cap is ever exceeded. */
  lemma {:induction false} TotalBackoffClosedForm(base: int, n: nat)
    requires n >= 1
    ensures n >= 2 && base * Pow2(n - 2) <= MAX_BACKOFF_SECONDS ==>
              TotalBackoff(base, n) == base * (Pow2(n - 1) - 1)
    ensures TotalBackoff(base, n) <= MAX_BACKOFF_SECONDS * (n - 1)
  {
    if n >= 2 {
      TotalBackoffClosedForm(base, n - 1);
      if base * Pow2(n - 2) <= MAX_BACKOFF_SECONDS {
        if n >= 3 {
          DoubledTerm(base, Pow2(n - 3));
        }
        NextPartialSum(base, Pow2(n - 2));
      }
    }
  }

  // ----- what each repository call makes of a row -----

  function NewRow(maxAttempts: int, now: Time): Row {
    Row(Pending, 0, maxAttempts, now, None, None, None, now)
  }

  /** The selection of `claim_batch`: due, and either pending or stuck in processing. */
  predicate Due(r: Row, now: Time) {
    && r.nextAttemptAt <= now
    && (r.status == Pending
        || (r.status == Processing && r.lockedAt.Some? && r.lockedAt.value <= now - STALE_AFTER))
  }

  function Claimed(r: Row, now: Time): Row {
    r.(status := Processing, lockedAt := Some(now), updatedAt := now)
  }

  function Truncated(error: string): string {
    if |error| > MAX_ERROR_LENGTH then error[..MAX_ERROR_LENGTH] else error
  }

  function MarkedSent(r: Row, now: Time): Row {
    r.(status := Sent, sentAt := Some(now), lockedAt := None, lastError := None, updatedAt := now)
  }

  function MarkedRetry(base: int, r: Row, error: string, now: Time): Row {
    r.(attempts := r.attempts + 1,
       status := Pending,
       lockedAt := None,
       lastError := Some(Truncated(error)),
       nextAttemptAt := now + ComputeBackoffSeconds(base, r.attempts + 1) * SECOND,
       updatedAt := now)
  }

  function MarkedFailed(r: Row, error: string, now: Time): Row {
    r.(attempts := r.attempts + 1,
       status := Failed,
       lockedAt := None,
       lastError := Some(Truncated(error)),
       updatedAt := now)
  }

  function FailureRecorded(base: int, r: Row, error: string, now: Time): Row {
    if r.attempts + 1 >= r.maxAttempts then MarkedFailed(r, error, now)
    else MarkedRetry(base, r, error, now)
  }

  /** What `_record` writes: `error` is empty exactly when the send went through. */
  function Recorded(base: int, r: Row, error: Option<string>, now: Time): Row {
    match error
    case None => MarkedSent(r, now)
    case Some(e) => FailureRecorded(base, r, e, now)
  }

  /** Recording does not look at the row it writes, so a finished row keeps its status exactly
      when the late result says what the row already says. */
  lemma LateRecordKeepsStatusIff(base: int, r: Row, error: Option<string>, now: Time)
    requires Terminal(r)
    requires r.status == Failed ==> r.attempts >= r.maxAttempts
    ensures Recorded(base, r, error, now).status == r.status <==> (r.status == Sent <==> error.None?)
  {
  }
}
