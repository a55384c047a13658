/** The wait between two attempts: doubling, capped, deterministic
    (packages/driver-outbox/src/backoff.ts). */
module Backoff {

  datatype OutboxPolicy = OutboxPolicy(maxBatchSize: int, baseDelayMs: int, maxDelayMs: int) {
    /** The delays the queue is configured with are positive. */
    predicate Waits() {
      0 < baseDelayMs && 0 < maxDelayMs
    }
  }

  const DEFAULT_OUTBOX_POLICY := OutboxPolicy(200, 2_000, 300_000)

  /** The exponent never grows past this. */
  const EXPONENT_CAP: nat := 32

  function Min(a: int, b: int): int {
    if a < b then a else b
  }

  /** `base * 2 ** n`, as a doubling; see `DoubledIsTimesPower`. */
  function Doubled(base: int, n: nat): int {
    if n == 0 then base else 2 * Doubled(base, n - 1)
  }

  function Exponent(attempts: int): (exponent: nat)
    ensures exponent <= EXPONENT_CAP
  {
    var safeAttempts := if attempts > 0 then attempts else 0;
    Min(safeAttempts, EXPONENT_CAP)
  }

  function BackoffDelayMs(attempts: int, policy: OutboxPolicy): int {
    var grown := Doubled(policy.baseDelayMs, Exponent(attempts));
    Min(grown, policy.maxDelayMs)
  }

  function Pow2(n: nat): nat {
    if n == 0 then 1 else 2 * Pow2(n - 1)
  }

  lemma DoubledIsTimesPower(base: int, n: nat)
    ensures Doubled(base, n) == base * Pow2(n)
  {
  }

  lemma DoubledIsPositive(base: int, n: nat)
    requires 0 < base
    ensures 0 < Doubled(base, n)
  {
  }

  lemma DoubledStrictlyGrows(base: int, m: nat, n: nat)
    requires 0 < base && m < n
    ensures Doubled(base, m) < Doubled(base, n)
  {
    DoubledIsPositive(base, n - 1);
    if m + 1 < n { DoubledStrictlyGrows(base, m, n - 1); }
  }

  /** A wait is positive, never above the maximum, and never shrinks as attempts go up. */
  lemma DelayIsBoundedAndMonotone(a: int, b: int, policy: OutboxPolicy)
    requires policy.Waits() && a <= b
    ensures 0 < BackoffDelayMs(a, policy) <= BackoffDelayMs(b, policy) <= policy.maxDelayMs
  {
    DoubledIsPositive(policy.baseDelayMs, Exponent(a));
    if Exponent(a) < Exponent(b) { DoubledStrictlyGrows(policy.baseDelayMs, Exponent(a), Exponent(b)); }
  }

  /** Below the exponent cap each wait is twice the one before, up to the maximum. */
  lemma DelayDoubles(n: nat, policy: OutboxPolicy)
    requires policy.Waits() && n < 32
    ensures BackoffDelayMs(n + 1, policy) == Min(2 * BackoffDelayMs(n, policy), policy.maxDelayMs)
  {
    assert Doubled(policy.baseDelayMs, n + 1) == 2 * Doubled(policy.baseDelayMs, n);
  }

  /** Capping the exponent is invisible, for every number of attempts, exactly when the base wait
      doubled 32 times already reaches the maximum. */
  lemma ExponentCapInvisible(policy: OutboxPolicy)
    requires policy.Waits()
    ensures (forall n: nat :: BackoffDelayMs(n, policy) == Min(Doubled(policy.baseDelayMs, n), policy.maxDelayMs))
       <==> policy.maxDelayMs <= policy.baseDelayMs * Pow2(32)
  {
    var base, max := policy.baseDelayMs, policy.maxDelayMs;
    DoubledIsTimesPower(base, 32);
    if max <= Doubled(base, EXPONENT_CAP) {
      forall n: nat ensures BackoffDelayMs(n, policy) == Min(Doubled(base, n), max) {
        if EXPONENT_CAP < n { DoubledStrictlyGrows(base, EXPONENT_CAP, n); }
      }
    } else {
      DoubledStrictlyGrows(base, EXPONENT_CAP, EXPONENT_CAP + 1);
      assert BackoffDelayMs(EXPONENT_CAP + 1, policy) != Min(Doubled(base, EXPONENT_CAP + 1), max);
    }
  }

  /** Two attempt counts wait equally long exactly when they are the same count, when both are
      at the exponent cap, or when the smaller one already waits the maximum. */
  lemma SameDelay(a: nat, b: nat, policy: OutboxPolicy)
    requires policy.Waits() && a <= b
    ensures BackoffDelayMs(a, policy) == BackoffDelayMs(b, policy)
       <==> a == b || 32 <= a || BackoffDelayMs(a, policy) == policy.maxDelayMs
  {
    DelayIsBoundedAndMonotone(a, b, policy);
    if a < b && a < EXPONENT_CAP {
      DoubledStrictlyGrows(policy.baseDelayMs, a, Min(b, EXPONENT_CAP));
    }
  }

  /** The waits of the first `n` failures, added up. Failure `i` waits `BackoffDelayMs(i)`. */
  function TotalWait(n: nat, policy: OutboxPolicy): int {
    if n == 0 then 0 else TotalWait(n - 1, policy) + BackoffDelayMs(n, policy)
  }

  /** The waits of the default policy: 4 s after the first failure, doubling to 256 s, then 5 minutes. */
  lemma DefaultSchedule(n: nat)
    ensures BackoffDelayMs(1, DEFAULT_OUTBOX_POLICY) == 4_000 && BackoffDelayMs(2, DEFAULT_OUTBOX_POLICY) == 8_000
    ensures BackoffDelayMs(7, DEFAULT_OUTBOX_POLICY) == 256_000
    ensures 8 <= n ==> BackoffDelayMs(n, DEFAULT_OUTBOX_POLICY) == 300_000
    ensures DEFAULT_OUTBOX_POLICY.maxBatchSize == 200
  {
    var p := DEFAULT_OUTBOX_POLICY;
    assert BackoffDelayMs(0, p) == 2_000;
    DelayDoubles(0, p);
    DelayDoubles(1, p);
    DelayDoubles(2, p);
    DelayDoubles(3, p);
    DelayDoubles(4, p);
    DelayDoubles(5, p);
    DelayDoubles(6, p);
    DelayDoubles(7, p);
    if 8 <= n { DelayIsBoundedAndMonotone(8, n, p); }
  }

  /** Before any attempt, and for a count that makes no sense, the wait is the base, capped. */
  lemma NothingDoubledYet(attempts: int, policy: OutboxPolicy)
    requires attempts <= 0
    ensures BackoffDelayMs(attempts, policy) == Min(policy.baseDelayMs, policy.maxDelayMs)
  {
  }
}
