/**
 * The retry budget of cloudvolume/storage.py as the HTTP interface's `get_file`
 * and `exists` use it (`@retry(retry=...)` at lines 676 and 758): such a call is
 * attempted at most `MAX_RETRIES` times; a failure the policy deems retryable
 * leads to another attempt while the budget lasts, and when the budget is spent
 * the last failure is re-raised (tenacity with `reraise=True` and
 * `stop_after_attempt(MAX_RETRIES)`).  The randomised exponential wait between
 * attempts is time only and is not modelled.
 *
 * The wrapped call is an oracle: `attempt(n)` is what the `n`-th attempt
 * (counted from 0) returns or raises.
 */
module Retry {

  const MAX_RETRIES: nat := 7

  /** What one call of the wrapped function does: return a value or raise an error. */
  datatype Outcome<+T, +E> = Returned(value: T) | Raised(error: E)

  /** The call may stop after attempt `n`: it returned, or it raised an error the policy does not retry. */
  predicate Decisive<T, E>(o: Outcome<T, E>, retryable: E -> bool) {
    o.Returned? || !retryable(o.error)
  }

  /** Attempts `n`, `n + 1`, ... up to the last one the budget allows. */
  function RetryFrom<T, E>(attempt: nat -> Outcome<T, E>, retryable: E -> bool, n: nat): Outcome<T, E>
    requires n < MAX_RETRIES
    decreases MAX_RETRIES - n
  {
    var o := attempt(n);
    if Decisive(o, retryable) || n == MAX_RETRIES - 1 then o
    else RetryFrom(attempt, retryable, n + 1)
  }

  /** The decorated call: what the caller finally sees. */
  function Retried<T, E>(attempt: nat -> Outcome<T, E>, retryable: E -> bool): Outcome<T, E> {
    RetryFrom(attempt, retryable, 0)
  }

  /** The attempts before `k` all failed in a way the policy retries. */
  ghost predicate RetriedBefore<T, E>(attempt: nat -> Outcome<T, E>, retryable: E -> bool, k: nat) {
    forall j :: 0 <= j < k ==> !Decisive(attempt(j), retryable)
  }

  /**
   * An independent description of the policy: the caller sees attempt `k`, the
   * first decisive one, or the last permitted attempt when none of the earlier
   * ones is decisive.
   */
  lemma {:induction false} RetryFromIsFirstDecisive<T, E>(attempt: nat -> Outcome<T, E>, retryable: E -> bool, n: nat)
    requires n < MAX_RETRIES
    ensures exists k :: (n <= k < MAX_RETRIES
      && RetryFrom(attempt, retryable, n) == attempt(k)
      && (forall j :: n <= j < k ==> !Decisive(attempt(j), retryable))
      && (Decisive(attempt(k), retryable) || k == MAX_RETRIES - 1))
    decreases MAX_RETRIES - n
  {
    if Decisive(attempt(n), retryable) || n == MAX_RETRIES - 1 {
      assert RetryFrom(attempt, retryable, n) == attempt(n);
    } else {
      RetryFromIsFirstDecisive(attempt, retryable, n + 1);
      var k :| n + 1 <= k < MAX_RETRIES
        && RetryFrom(attempt, retryable, n + 1) == attempt(k)
        && (forall j :: n + 1 <= j < k ==> !Decisive(attempt(j), retryable))
        && (Decisive(attempt(k), retryable) || k == MAX_RETRIES - 1);
      assert RetryFrom(attempt, retryable, n) == attempt(k);
    }
  }

  /** A success after `k` retryable failures (`k` within the budget) is what the caller gets. */
  lemma {:induction false} SuccessWithinBudget<T, E>(attempt: nat -> Outcome<T, E>, retryable: E -> bool, k: nat, v: T)
    requires k < MAX_RETRIES
    requires RetriedBefore(attempt, retryable, k) && attempt(k) == Returned(v)
    ensures Retried(attempt, retryable) == Returned(v)
  {
    RetryFromIsFirstDecisive(attempt, retryable, 0);
    var m :| 0 <= m < MAX_RETRIES
      && RetryFrom(attempt, retryable, 0) == attempt(m)
      && (forall j :: 0 <= j < m ==> !Decisive(attempt(j), retryable))
      && (Decisive(attempt(m), retryable) || m == MAX_RETRIES - 1);
    assert m == k;
  }

  /** Seven retryable failures: the seventh error is re-raised. */
  lemma BudgetExhaustedReraisesLast<T, E>(attempt: nat -> Outcome<T, E>, retryable: E -> bool)
    requires RetriedBefore(attempt, retryable, MAX_RETRIES)
    ensures Retried(attempt, retryable) == attempt(MAX_RETRIES - 1)
    ensures Retried(attempt, retryable).Raised?
  {
    RetryFromIsFirstDecisive(attempt, retryable, 0);
    assert !Decisive(attempt(MAX_RETRIES - 1), retryable);
  }

  /** An error the policy does not retry surfaces at once, after the retryable failures before it. */
  lemma NonRetryableSurfaces<T, E>(attempt: nat -> Outcome<T, E>, retryable: E -> bool, k: nat, e: E)
    requires k < MAX_RETRIES
    requires RetriedBefore(attempt, retryable, k) && attempt(k) == Raised(e) && !retryable(e)
    ensures Retried(attempt, retryable) == Raised(e)
  {
    RetryFromIsFirstDecisive(attempt, retryable, 0);
    var m :| 0 <= m < MAX_RETRIES
      && RetryFrom(attempt, retryable, 0) == attempt(m)
      && (forall j :: 0 <= j < m ==> !Decisive(attempt(j), retryable))
      && (Decisive(attempt(m), retryable) || m == MAX_RETRIES - 1);
    assert m == k;
  }

  /** Attempts past the budget are never made: two oracles that agree on the first seven give the same outcome. */
  lemma {:induction false} OnlyBudgetedAttemptsMatter<T, E>(a1: nat -> Outcome<T, E>, a2: nat -> Outcome<T, E>, retryable: E -> bool, n: nat)
    requires n < MAX_RETRIES
    requires forall j :: n <= j < MAX_RETRIES ==> a1(j) == a2(j)
    ensures RetryFrom(a1, retryable, n) == RetryFrom(a2, retryable, n)
    decreases MAX_RETRIES - n
  {
    if n < MAX_RETRIES - 1 {
      OnlyBudgetedAttemptsMatter(a1, a2, retryable, n + 1);
    }
  }
}
