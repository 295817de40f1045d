/** Retrying with capped exponential backoff (api/src/resilience.ts, `Retry`). */
module Retry {
  import opened Wrappers

  datatype RetryConfig = RetryConfig(maxAttempts: int, initialDelayMs: real, maxDelayMs: real, backoffMultiplier: real)

  datatype RetryError<E> = Thrown(error: E) | RetryFailed

  function Lesser(a: real, b: real): real {
    if a < b then a else b
  }

  function NextDelay(c: RetryConfig, delay: real): real {
    Lesser(delay * c.backoffMultiplier, c.maxDelayMs)
  }

  /** The delay before attempt `i + 2`. */
  function DelayAt(c: RetryConfig, i: nat): real {
    if i == 0 then c.initialDelayMs else NextDelay(c, DelayAt(c, i - 1))
  }

  function Power(b: real, n: nat): real {
    if n == 0 then 1.0 else Power(b, n - 1) * b
  }

  /** The next wait is the multiplied one, or the maximum where that is less. */
  predicate IsNextWait(c: RetryConfig, wait: real, next: real) {
    var multiplied := wait * c.backoffMultiplier;
    next == if multiplied <= c.maxDelayMs then multiplied else c.maxDelayMs
  }

  /** `k` is the first attempt that succeeds. */
  ghost predicate FirstSuccess<T, E>(fn: nat -> Result<T, E>, k: nat) {
    k >= 1 && fn(k).Success? && forall j: nat :: 1 <= j < k ==> fn(j).Failure?
  }

  /** `fn(k)` is the outcome of attempt `k`; the delays slept are returned in order. */
  method Execute<T, E>(c: RetryConfig, fn: nat -> Result<T, E>) returns (r: Result<T, RetryError<E>>, delays: seq<real>)
    ensures forall i :: 0 <= i < |delays| ==> delays[i] == DelayAt(c, i)
    ensures |delays| > 0 ==> delays[0] == c.initialDelayMs
    ensures forall i :: 0 < i < |delays| ==> IsNextWait(c, delays[i - 1], delays[i])
    ensures r.Success? <==> exists k: nat :: FirstSuccess(fn, k) && k <= c.maxAttempts
    ensures forall k: nat :: FirstSuccess(fn, k) && k <= c.maxAttempts ==>
              r == Result.Success(fn(k).value) && |delays| == k - 1
    ensures r.Failure? ==> |delays| == if c.maxAttempts < 1 then 0 else c.maxAttempts - 1
    ensures r.Failure? && c.maxAttempts < 1 ==> r.error == RetryFailed
    ensures r.Failure? && c.maxAttempts >= 1 ==>
              fn(c.maxAttempts).Failure? && r.error == Thrown(fn(c.maxAttempts).error)
  {
    var lastError: Option<E> := None;
    var delay := c.initialDelayMs;
    delays := [];
    var attempt: nat := 1;
    while attempt <= c.maxAttempts
      invariant |delays| == attempt - 1
      invariant delay == DelayAt(c, attempt - 1)
      invariant forall i :: 0 <= i < |delays| ==> delays[i] == DelayAt(c, i)
      invariant forall i :: 0 < i < |delays| ==> IsNextWait(c, delays[i - 1], delays[i])
      invariant |delays| > 0 ==> delays[0] == c.initialDelayMs && IsNextWait(c, delays[|delays| - 1], delay)
      invariant forall j: nat :: 1 <= j < attempt ==> fn(j).Failure?
      invariant attempt > c.maxAttempts ==> c.maxAttempts < 1
      invariant c.maxAttempts < 1 ==> lastError == None && delays == []
      decreases c.maxAttempts - attempt
    {
      var outcome := fn(attempt);
      if outcome.Success? {
        assert FirstSuccess(fn, attempt);
        assert forall k: nat :: FirstSuccess(fn, k) ==> k == attempt;
        return Result.Success(outcome.value), delays;
      }
      lastError := Some(outcome.error);
      if attempt == c.maxAttempts {
        assert forall k: nat :: 1 <= k <= c.maxAttempts ==> fn(k).Failure?;
        break;
      }
      delays := delays + [delay];
      assert DelayAt(c, attempt) == NextDelay(c, delay);
      delay := NextDelay(c, delay);
      attempt := attempt + 1;
    }
    r := Result.Failure(if lastError.Some? then Thrown(lastError.value) else RetryFailed);
  }

  lemma {:induction false} GrowsByFactor(x: real, m: real)
    requires x >= 0.0 && m >= 1.0
    ensures x * m >= x
  {
    assert x * m - x == x * (m - 1.0);
  }

  lemma {:induction false} ShrinksByFactor(x: real, m: real, cap: real)
    requires x <= cap && cap >= 0.0 && 0.0 <= m <= 1.0
    ensures x * m <= cap
  {
    if x >= 0.0 {
      assert x - x * m == x * (1.0 - m);
    }
  }

  /** A delay multiplied `i` times, without the cap. */
  function Multiplied(c: RetryConfig, delay: real, i: nat): real {
    if i == 0 then delay else Multiplied(c, delay, i - 1) * c.backoffMultiplier
  }

  /** That is the exponential. */
  lemma {:induction false} MultipliedIsPower(c: RetryConfig, delay: real, i: nat)
    ensures Multiplied(c, delay, i) == delay * Power(c.backoffMultiplier, i)
  {
    if i > 0 {
      MultipliedIsPower(c, delay, i - 1);
      Reassociate(delay, Power(c.backoffMultiplier, i - 1), c.backoffMultiplier);
    }
  }

  /** Capping before a growing step changes nothing after it. */
  lemma {:induction false} CapOnce(x: real, m: real, cap: real)
    requires cap >= 0.0 && m >= 1.0
    ensures Lesser(Lesser(x, cap) * m, cap) == Lesser(x * m, cap)
  {
    if x >= cap {
      GrowsByFactor(cap, m);
      GrowsByFactor(x, m);
    }
  }

  lemma {:induction false} Reassociate(a: real, p: real, m: real)
    ensures a * p * m == a * (p * m)
  {
  }

  /** The delay is the multiplied one, or that one capped. */
  predicate Follows(c: RetryConfig, delay: real, x: real) {
    delay == x || delay == Lesser(x, c.maxDelayMs)
  }

  lemma {:induction false} NextFollows(c: RetryConfig, delay: real, x: real)
    requires Follows(c, delay, x) && c.maxDelayMs >= 0.0 && c.backoffMultiplier >= 1.0
    ensures NextDelay(c, delay) == NextDelay(c, x)
  {
    CapOnce(x, c.backoffMultiplier, c.maxDelayMs);
  }

  lemma {:induction false} OneStep(c: RetryConfig, i: nat)
    requires Follows(c, DelayAt(c, i), Multiplied(c, c.initialDelayMs, i))
    requires c.maxDelayMs >= 0.0 && c.backoffMultiplier >= 1.0
    ensures DelayAt(c, i + 1) == Lesser(Multiplied(c, c.initialDelayMs, i + 1), c.maxDelayMs)
  {
    var x := Multiplied(c, c.initialDelayMs, i);
    NextFollows(c, DelayAt(c, i), x);
    assert DelayAt(c, i + 1) == NextDelay(c, DelayAt(c, i)) == NextDelay(c, x);
  }

  /**
   The closed form of growing delays: from the second on, the exponential capped at
   the maximum. The first delay is never capped.
   */
  lemma {:induction false} ClosedForm(c: RetryConfig, i: nat)
    requires c.maxDelayMs >= 0.0 && c.backoffMultiplier >= 1.0
    ensures Follows(c, DelayAt(c, i), Multiplied(c, c.initialDelayMs, i))
    ensures i > 0 ==> DelayAt(c, i) == Lesser(Multiplied(c, c.initialDelayMs, i), c.maxDelayMs)
  {
    if i > 0 {
      ClosedForm(c, i - 1);
      OneStep(c, i - 1);
    }
  }

  // ---------- every multiplier that is not negative ----------

  /** Growing delays meet a maximum that is not negative, and shrinking ones a maximum that is not positive. */
  predicate MeetsMaximum(c: RetryConfig) {
    if c.backoffMultiplier >= 1.0 then c.maxDelayMs >= 0.0 else c.maxDelayMs <= 0.0
  }

  lemma {:induction false} NotNegative(a: real, b: real)
    requires a >= 0.0 && b >= 0.0
    ensures a * b >= 0.0
  {
  }

  lemma {:induction false} ShrinksFromBelow(x: real, m: real, cap: real)
    requires x >= cap && cap <= 0.0 && 0.0 <= m <= 1.0
    ensures x * m >= cap
  {
    NotNegative(x - cap, m);
    NotNegative(-cap, 1.0 - m);
    assert (x - cap) * m == x * m - cap * m;
    assert -cap * (1.0 - m) == cap * m - cap;
  }

  /** Capping at a maximum of zero or less before a shrinking step changes nothing after it. */
  lemma {:induction false} CapOnceBelow(x: real, m: real, cap: real)
    requires cap <= 0.0 && 0.0 <= m <= 1.0
    ensures Lesser(Lesser(x, cap) * m, cap) == Lesser(x * m, cap)
  {
    var least := Lesser(x, cap);
    if x >= cap {
      ShrinksFromBelow(x, m, cap);
      ShrinksFromBelow(cap, m, cap);
      assert least == cap && Lesser(least * m, cap) == cap;
    } else {
      assert least == x;
    }
  }

  predicate CappedAt(c: RetryConfig, delay: real, x: real) {
    delay == Lesser(x, c.maxDelayMs)
  }

  lemma {:induction false} MeetsOnce(c: RetryConfig, delay: real, x: real, delay': real, x': real)
    requires c.backoffMultiplier >= 0.0 && MeetsMaximum(c)
    requires CappedAt(c, delay, x) && delay' == NextDelay(c, delay) && x' == x * c.backoffMultiplier
    ensures CappedAt(c, delay', x')
  {
    if c.backoffMultiplier >= 1.0 {
      CapOnce(x, c.backoffMultiplier, c.maxDelayMs);
    } else {
      CapOnceBelow(x, c.backoffMultiplier, c.maxDelayMs);
    }
  }

  lemma {:induction false} DepartsOnce(c: RetryConfig, delay: real, delay': real, x': real)
    requires c.backoffMultiplier >= 0.0 && !MeetsMaximum(c) && delay <= c.maxDelayMs
    requires delay' == NextDelay(c, delay) && x' == delay * c.backoffMultiplier
    ensures delay' == x'
  {
    if c.backoffMultiplier >= 1.0 {
      GrowsByFactor(-delay, c.backoffMultiplier);
    } else {
      ShrinksByFactor(delay, c.backoffMultiplier, c.maxDelayMs);
    }
  }

  lemma {:induction false} OneDelay(c: RetryConfig, i: nat)
    ensures DelayAt(c, i + 1) == NextDelay(c, DelayAt(c, i))
  {
  }

  lemma {:induction false} OneFactor(c: RetryConfig, delay: real, i: nat)
    ensures Multiplied(c, delay, i + 1) == Multiplied(c, delay, i) * c.backoffMultiplier
  {
  }

  lemma {:induction false} MeetingForm(c: RetryConfig, i: nat)
    requires c.backoffMultiplier >= 0.0 && MeetsMaximum(c)
    ensures CappedAt(c, DelayAt(c, i + 1), Multiplied(c, DelayAt(c, 1), i))
  {
    if i == 0 {
      LaterWaitsCapped(c, 1);
    } else {
      var first := DelayAt(c, 1);
      MeetingForm(c, i - 1);
      OneDelay(c, i);
      OneFactor(c, first, i - 1);
      MeetsOnce(c, DelayAt(c, i), Multiplied(c, first, i - 1), DelayAt(c, i + 1), Multiplied(c, first, i));
    }
  }

  lemma {:induction false} DepartingForm(c: RetryConfig, i: nat)
    requires c.backoffMultiplier >= 0.0 && !MeetsMaximum(c)
    ensures DelayAt(c, i + 1) == Multiplied(c, DelayAt(c, 1), i)
  {
    if i > 0 {
      var first := DelayAt(c, 1);
      DepartingForm(c, i - 1);
      LaterWaitsCapped(c, i);
      OneDelay(c, i);
      OneFactor(c, first, i - 1);
      DepartsOnce(c, DelayAt(c, i), DelayAt(c, i + 1), Multiplied(c, first, i));
    }
  }

  /**
   Every wait from the second on. Where the delays move towards the maximum they are
   the second one multiplied on and capped; where they move away from it the cap
   bites only once, on the second.
   */
  lemma {:induction false} WaitForm(c: RetryConfig, i: nat)
    requires c.backoffMultiplier >= 0.0
    ensures MeetsMaximum(c) ==> CappedAt(c, DelayAt(c, i + 1), Multiplied(c, DelayAt(c, 1), i))
    ensures !MeetsMaximum(c) ==> DelayAt(c, i + 1) == Multiplied(c, DelayAt(c, 1), i)
  {
    if MeetsMaximum(c) {
      MeetingForm(c, i);
    } else {
      DepartingForm(c, i);
    }
  }

  lemma {:induction false} LaterWaitsCapped(c: RetryConfig, i: nat)
    requires i > 0
    ensures DelayAt(c, i) <= c.maxDelayMs
  {
    assert DelayAt(c, i) == NextDelay(c, DelayAt(c, i - 1));
  }

  /** No wait exceeds the maximum exactly when the first, which is not capped, does not. */
  lemma {:induction false} WaitsKeepMaximum(c: RetryConfig)
    ensures (forall i: nat :: DelayAt(c, i) <= c.maxDelayMs) <==> c.initialDelayMs <= c.maxDelayMs
  {
    if c.initialDelayMs <= c.maxDelayMs {
      forall i: nat
        ensures DelayAt(c, i) <= c.maxDelayMs
      {
        if i > 0 {
          LaterWaitsCapped(c, i);
        }
      }
    } else {
      assert DelayAt(c, 0) > c.maxDelayMs;
    }
  }
}
