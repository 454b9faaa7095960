/** `RetryHelper`: run an operation up to `retryCount + 1` times, waiting
    between failed attempts a constant interval or one that doubles after
    every failure, and give up with all the failures in attempt order.

    The operation is a function from the attempt number to what that call
    did (returned a value or threw), so that every run of the operation is
    covered. Waits are recorded, not taken; whether the cancellation token
    fires during the k-th wait is the input `cancelled(k)`. */
module RetryHelper {
  import opened Wrappers
  import opened Models

  /** What one call of the operation did. */
  datatype Outcome<T> = Returned(value: T) | Threw(error: Exception)

  /** The three overloads differ in what they catch and how they wait:
      `ExecuteWithRetry` catches everything and sleeps the thread; the two
      `ExecuteWithRetryAsync` let `OperationCanceledException` through and
      wait on the cancellation token. */
  datatype Variant = Sync | AsyncGeneric | AsyncVoid {
    predicate IsAsync() { !Sync? }
  }

  datatype Policy = Policy(retryCount: int, retryIntervalMs: int, exponentialBackoff: bool)

  /** The policy the default arguments give. */
  const DefaultPolicy: Policy := Policy(DefaultRetryCount, DefaultRetryIntervalMs, true)

  /** How a run ends: with a value or an exception, by blocking forever in an
      infinite wait, or without a single attempt (a negative retry count). */
  datatype Ending<T> = Finished(result: Result<T>) | WaitsForever | NoAttempt

  /** A whole run: how it ended, how many times the operation was called and
      the waits requested, in order. */
  datatype Run<T> = Run(ending: Ending<T>, calls: nat, delays: seq<int>)

  function Pow2(k: nat): (r: nat)
    ensures r >= 1
  {
    if k == 0 then 1 else 2 * Pow2(k - 1)
  }

  /** The wait after failed attempt `k` (0-based). */
  function Delay(p: Policy, k: nat): (d: int)
    ensures p.exponentialBackoff && p.retryIntervalMs >= 0 ==> d >= p.retryIntervalMs
    ensures !p.exponentialBackoff ==> d == p.retryIntervalMs
  {
    if p.exponentialBackoff then p.retryIntervalMs * Pow2(k) else p.retryIntervalMs
  }

  /** With backoff each wait is twice the one before. */
  lemma DelayDoubles(p: Policy, k: nat)
    requires p.exponentialBackoff && k > 0
    ensures Delay(p, k) == 2 * Delay(p, k - 1)
  {
    assert Pow2(k) == 2 * Pow2(k - 1);
    assert p.retryIntervalMs * (2 * Pow2(k - 1)) == 2 * (p.retryIntervalMs * Pow2(k - 1));
  }

  /** The first `n` waits: they start at the interval and, with backoff,
      each is twice the one before; without it they are all the interval. */
  function Schedule(p: Policy, n: nat): (ds: seq<int>)
    ensures |ds| == n && forall k :: 0 <= k < n ==> ds[k] == Delay(p, k)
    ensures n > 0 ==> ds[0] == p.retryIntervalMs
    ensures p.exponentialBackoff ==> forall k :: 0 < k < n ==> ds[k] == 2 * ds[k - 1]
    ensures !p.exponentialBackoff ==> forall k :: 0 <= k < n ==> ds[k] == p.retryIntervalMs
  {
    forall k | 0 < k < n && p.exponentialBackoff
      ensures Delay(p, k) == 2 * Delay(p, k - 1)
    {
      DelayDoubles(p, k);
    }
    seq(n, k requires 0 <= k < n => Delay(p, k))
  }

  /** How a wait ends. */
  datatype WaitEnd = Slept | Canceled | OutOfRange | Forever

  /** `Thread.Sleep(delay)` and `Task.Delay(delay, token)`: a delay below -1
      is refused before anything else, -1 means no time-out; the token only
      matters to the asynchronous wait. */
  function Wait(v: Variant, delay: int, cancelled: bool): (w: WaitEnd)
    ensures w == OutOfRange <==> delay < -1
    ensures w == Canceled <==> v.IsAsync() && delay >= -1 && cancelled
    ensures w == Forever <==> delay == -1 && !(v.IsAsync() && cancelled)
  {
    if delay < -1 then OutOfRange
    else if v.IsAsync() && cancelled then Canceled
    else if delay == -1 then Forever
    else Slept
  }

  /** Whether the variant's catch clause takes the exception: the
      asynchronous ones let `OperationCanceledException` through. */
  predicate Caught(v: Variant, e: Exception) {
    !(v.IsAsync() && e == OperationCanceled)
  }

  /** The run from attempt `retry` on, `failures` holding the exceptions of
      the earlier attempts. This is the reference the loop is proved
      against; the lemmas below state what it means. */
  function RunFrom<T>(v: Variant, p: Policy, attempt: nat -> Outcome<T>, cancelled: nat -> bool,
                      retry: nat, failures: seq<Exception>): Run<T>
    decreases p.retryCount + 1 - retry
  {
    if retry > p.retryCount then Run(NoAttempt, retry, Schedule(p, retry))
    else
      match attempt(retry)
      case Returned(x) => Run(Finished(Ok(x)), retry + 1, Schedule(p, retry))
      case Threw(e) =>
        if !Caught(v, e) then Run(Finished(Err(e)), retry + 1, Schedule(p, retry))
        else if retry >= p.retryCount then Run(Finished(Err(Aggregate(failures + [e]))), retry + 1, Schedule(p, retry))
        else
          match Wait(v, Delay(p, retry), cancelled(retry))
          case OutOfRange => Run(Finished(Err(ArgumentOutOfRange)), retry + 1, Schedule(p, retry + 1))
          case Canceled => Run(Finished(Err(OperationCanceled)), retry + 1, Schedule(p, retry + 1))
          case Forever => Run(WaitsForever, retry + 1, Schedule(p, retry + 1))
          case Slept => RunFrom(v, p, attempt, cancelled, retry + 1, failures + [e])
  }

  /** The loop shared by the three overloads. */
  method RetryLoop<T>(v: Variant, p: Policy, attempt: nat -> Outcome<T>, cancelled: nat -> bool)
    returns (ending: Ending<T>, calls: nat, delays: seq<int>)
    ensures Run(ending, calls, delays) == RunFrom(v, p, attempt, cancelled, 0, [])
  {
    var failures: seq<Exception> := [];
    calls := 0;
    delays := [];
    var retry := 0;
    while retry <= p.retryCount
      invariant p.retryCount >= 0 ==> retry <= p.retryCount
      invariant calls == retry && delays == Schedule(p, retry)
      invariant RunFrom(v, p, attempt, cancelled, retry, failures) == RunFrom(v, p, attempt, cancelled, 0, [])
      decreases p.retryCount + 1 - retry
    {
      calls := calls + 1;
      var outcome := attempt(retry);
      if outcome.Returned? {
        return Finished(Ok(outcome.value)), calls, delays;
      }
      var e := outcome.error;
      if !Caught(v, e) {
        return Finished(Err(e)), calls, delays;
      }
      failures := failures + [e];
      if retry >= p.retryCount {
        return Finished(Err(Aggregate(failures))), calls, delays;
      }
      var delay := if p.exponentialBackoff then p.retryIntervalMs * Pow2(retry) else p.retryIntervalMs;
      delays := delays + [delay];
      var w := Wait(v, delay, cancelled(retry));
      if w == OutOfRange {
        return Finished(Err(ArgumentOutOfRange)), calls, delays;
      } else if w == Canceled {
        return Finished(Err(OperationCanceled)), calls, delays;
      } else if w == Forever {
        return WaitsForever, calls, delays;
      }
      retry := retry + 1;
    }
    return NoAttempt, calls, delays;
  }

  /** `ExecuteWithRetry<T>` and `ExecuteWithRetryAsync<T>`: a null operation
      is refused, and a negative retry count reaches the
      `InvalidOperationException` after the loop. */
  method ExecuteWithRetry<T>(v: Variant, func: Option<nat -> Outcome<T>>, p: Policy, cancelled: nat -> bool)
    returns (ending: Ending<T>, calls: nat, delays: seq<int>)
    requires v != AsyncVoid
    ensures func.None? ==> ending == Finished(Err(ArgumentNull)) && calls == 0 && delays == []
    ensures func.Some? && p.retryCount < 0 ==> ending == Finished(Err(InvalidOperation)) && calls == 0
    ensures func.Some? && p.retryCount >= 0 ==>
              Run(ending, calls, delays) == RunFrom(v, p, func.value, cancelled, 0, [])
  {
    if func.None? {
      return Finished(Err(ArgumentNull)), 0, [];
    }
    ending, calls, delays := RetryLoop(v, p, func.value, cancelled);
    RunBounds(v, p, func.value, cancelled, 0, []);
    if ending.NoAttempt? {
      ending := Finished(Err(InvalidOperation));
    }
  }

  /** How the non-generic `ExecuteWithRetryAsync` ends for a non-null operation. */
  function VoidEnding(p: Policy, attempt: nat -> Outcome<()>, cancelled: nat -> bool): (e: Ending<()>)
    ensures !e.NoAttempt?
    ensures p.retryCount < 0 ==> e == Finished(Ok(()))
  {
    if p.retryCount < 0 then Finished(Ok(()))
    else
      RunBounds(AsyncVoid, p, attempt, cancelled, 0, []);
      RunFrom(AsyncVoid, p, attempt, cancelled, 0, []).ending
  }

  /** The non-generic `ExecuteWithRetryAsync`: with a negative retry count it
      returns normally without calling the operation. */
  method ExecuteWithRetryVoid(func: Option<nat -> Outcome<()>>, p: Policy, cancelled: nat -> bool)
    returns (ending: Ending<()>, calls: nat, delays: seq<int>)
    ensures func.None? ==> ending == Finished(Err(ArgumentNull)) && calls == 0 && delays == []
    ensures func.Some? && p.retryCount < 0 ==> ending == Finished(Ok(())) && calls == 0
    ensures func.Some? && p.retryCount >= 0 ==> calls >= 1
    ensures func.Some? ==> ending == VoidEnding(p, func.value, cancelled) && !ending.NoAttempt?
    ensures func.Some? && p.retryCount >= 0 ==>
              Run(ending, calls, delays) == RunFrom(AsyncVoid, p, func.value, cancelled, 0, [])
  {
    if func.None? {
      return Finished(Err(ArgumentNull)), 0, [];
    }
    ending, calls, delays := RetryLoop(AsyncVoid, p, func.value, cancelled);
    RunBounds(AsyncVoid, p, func.value, cancelled, 0, []);
    if ending.NoAttempt? {
      ending := Finished(Ok(()));
    }
  }

  // ---- What the reference run means ----

  /** The attempts before `k` all failed with an exception the variant
      catches, and the waits after them all ran to their end. */
  predicate RetriedUpTo<T>(v: Variant, p: Policy, attempt: nat -> Outcome<T>, cancelled: nat -> bool, k: nat) {
    forall j :: 0 <= j < k ==>
      attempt(j).Threw? && Caught(v, attempt(j).error) && Wait(v, Delay(p, j), cancelled(j)) == Slept
  }

  /** The exceptions of the first `n` attempts, in order. */
  function Errors<T>(attempt: nat -> Outcome<T>, n: nat): (es: seq<Exception>)
    requires forall j :: 0 <= j < n ==> attempt(j).Threw?
    ensures |es| == n && forall j :: 0 <= j < n ==> es[j] == attempt(j).error
  {
    if n == 0 then [] else Errors(attempt, n - 1) + [attempt(n - 1).error]
  }

  /** A run calls the operation at least once and at most `retryCount + 1`
      times, and none at all with a negative count; it asks for one wait
      fewer than it makes calls, or as many when a wait ended it. */
  lemma {:induction false} RunBounds<T>(v: Variant, p: Policy, attempt: nat -> Outcome<T>, cancelled: nat -> bool,
                                        retry: nat, failures: seq<Exception>)
    requires p.retryCount < 0 ==> retry == 0
    requires p.retryCount >= 0 ==> retry <= p.retryCount
    ensures var r := RunFrom(v, p, attempt, cancelled, retry, failures);
            && (p.retryCount < 0 <==> r.ending.NoAttempt?)
            && (p.retryCount < 0 ==> r.calls == 0)
            && (p.retryCount >= 0 ==> retry + 1 <= r.calls <= p.retryCount + 1)
            && r.delays == Schedule(p, |r.delays|)
            && (r.ending.NoAttempt? || |r.delays| == r.calls - 1 || |r.delays| == r.calls)
    decreases p.retryCount + 1 - retry
  {
    if retry <= p.retryCount && attempt(retry).Threw? && Caught(v, attempt(retry).error)
       && retry < p.retryCount && Wait(v, Delay(p, retry), cancelled(retry)) == Slept {
      RunBounds(v, p, attempt, cancelled, retry + 1, failures + [attempt(retry).error]);
    }
  }

  /** The first attempt that returns ends the run with its value, after
      exactly that many calls and a wait after each earlier one. */
  lemma {:induction false} FirstSuccessWins<T>(v: Variant, p: Policy, attempt: nat -> Outcome<T>, cancelled: nat -> bool,
                                               retry: nat, failures: seq<Exception>, k: nat)
    requires retry <= k <= p.retryCount
    requires RetriedUpTo(v, p, attempt, cancelled, k) && attempt(k).Returned?
    ensures RunFrom(v, p, attempt, cancelled, retry, failures)
            == Run(Finished(Ok(attempt(k).value)), k + 1, Schedule(p, k))
    decreases k - retry
  {
    if retry < k {
      FirstSuccessWins(v, p, attempt, cancelled, retry + 1, failures + [attempt(retry).error], k);
    }
  }

  /** When every one of the `retryCount + 1` attempts fails and is caught,
      and every wait runs out, the run throws an `AggregateException` with
      all the failures in attempt order, after the full schedule of
      `retryCount` waits. */
  lemma {:induction false} ExhaustionAggregates<T>(v: Variant, p: Policy, attempt: nat -> Outcome<T>,
                                                   cancelled: nat -> bool, retry: nat)
    requires 0 <= retry <= p.retryCount
    requires RetriedUpTo(v, p, attempt, cancelled, p.retryCount)
    requires attempt(p.retryCount).Threw? && Caught(v, attempt(p.retryCount).error)
    ensures RunFrom(v, p, attempt, cancelled, retry, Errors(attempt, retry))
            == Run(Finished(Err(Aggregate(Errors(attempt, p.retryCount + 1)))), p.retryCount + 1,
                   Schedule(p, p.retryCount))
    decreases p.retryCount - retry
  {
    var e := attempt(retry).error;
    assert Errors(attempt, retry) + [e] == Errors(attempt, retry + 1);
    if retry < p.retryCount {
      assert Wait(v, Delay(p, retry), cancelled(retry)) == Slept;
      assert RunFrom(v, p, attempt, cancelled, retry, Errors(attempt, retry))
             == RunFrom(v, p, attempt, cancelled, retry + 1, Errors(attempt, retry + 1));
      ExhaustionAggregates(v, p, attempt, cancelled, retry + 1);
    }
  }

  /** In the asynchronous variants an `OperationCanceledException` from the
      operation ends the run at once: no further call and no wait. */
  lemma {:induction false} CancellationPropagates<T>(v: Variant, p: Policy, attempt: nat -> Outcome<T>,
                                                     cancelled: nat -> bool, retry: nat, failures: seq<Exception>, k: nat)
    requires v.IsAsync() && retry <= k <= p.retryCount
    requires RetriedUpTo(v, p, attempt, cancelled, k) && attempt(k) == Threw(OperationCanceled)
    ensures RunFrom(v, p, attempt, cancelled, retry, failures)
            == Run(Finished(Err(OperationCanceled)), k + 1, Schedule(p, k))
    decreases k - retry
  {
    if retry < k {
      CancellationPropagates(v, p, attempt, cancelled, retry + 1, failures + [attempt(retry).error], k);
    }
  }

  /** The synchronous variant catches a cancellation like any other failure
      and tries again. */
  lemma SyncRetriesAfterCancellation<T>(p: Policy, attempt: nat -> Outcome<T>, cancelled: nat -> bool)
    requires 0 < p.retryCount && attempt(0) == Threw(OperationCanceled)
    requires p.retryIntervalMs >= 0
    ensures RunFrom(Sync, p, attempt, cancelled, 0, []).calls >= 2
  {
    assert Delay(p, 0) == p.retryIntervalMs by {
      assert Pow2(0) == 1;
    }
    assert RunFrom(Sync, p, attempt, cancelled, 0, []) == RunFrom(Sync, p, attempt, cancelled, 1, [] + [OperationCanceled]);
    RunBounds(Sync, p, attempt, cancelled, 1, [] + [OperationCanceled]);
  }

  function Sum(ds: seq<int>): int {
    if ds == [] then 0 else Sum(ds[..|ds| - 1]) + ds[|ds| - 1]
  }

  /** With backoff the waits before the final failure add up to
      `retryIntervalMs * (2^retryCount - 1)`. */
  lemma {:induction false} TotalBackoff(p: Policy, n: nat)
    requires p.exponentialBackoff
    ensures Sum(Schedule(p, n)) == p.retryIntervalMs * (Pow2(n) - 1)
  {
    if n > 0 {
      TotalBackoff(p, n - 1);
      var ds := Schedule(p, n);
      assert ds[..n - 1] == Schedule(p, n - 1);
      assert Sum(ds) == Sum(Schedule(p, n - 1)) + ds[n - 1];
      Doubling(p.retryIntervalMs, Pow2(n - 1));
    }
  }

  /** One more doubled wait: `r·(q − 1) + r·q == r·(2q − 1)`. */
  lemma Doubling(r: int, q: int)
    ensures r * (q - 1) + r * q == r * (2 * q - 1)
  {
    calc {
      r * (q - 1) + r * q;
      (r * q - r) + r * q;
      r * (2 * q) - r;
      r * (2 * q - 1);
    }
  }

  /** Without backoff every wait is the interval. */
  lemma {:induction false} TotalConstant(p: Policy, n: nat)
    requires !p.exponentialBackoff
    ensures Sum(Schedule(p, n)) == p.retryIntervalMs * n
  {
    if n > 0 {
      TotalConstant(p, n - 1);
      assert Schedule(p, n)[..n - 1] == Schedule(p, n - 1);
    }
  }
}
