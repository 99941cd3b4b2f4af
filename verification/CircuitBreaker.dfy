/** The circuit breaker of `circuit_breaker.rs`, one call at a time, against its history of outcomes. */
module CircuitBreaker {
  import opened Wrappers

  datatype BreakerState = Closed | Open | HalfOpen

  /** One recorded outcome; a failure carries the time it was recorded. */
  datatype Event = Failed(at: int) | Succeeded

  const U32_SIZE: int := 0x1_0000_0000

  type U32 = x: int | 0 <= x < U32_SIZE

  /** `fetch_add(1)` and `+ 1` in a release build. */
  function Next(n: U32): (r: U32)
    ensures r == if n == 4294967295 then 0 else n + 1
  {
    if n + 1 < U32_SIZE then n + 1 else 0
  }

  /** `Instant::elapsed`: a time that lies ahead has elapsed by nothing. */
  function Elapsed(now: int, since: int): nat {
    if now >= since then now - since else 0
  }

  /** Failures since the last success. */
  function Streak(history: seq<Event>): nat {
    if history == [] || history[|history| - 1].Succeeded? then 0
    else Streak(history[..|history| - 1]) + 1
  }

  /** When the last failure was recorded; successes do not clear it. */
  function LastFailure(history: seq<Event>): Option<int> {
    if history == [] then None
    else
      match history[|history| - 1]
      case Failed(at) => Some(at)
      case Succeeded => LastFailure(history[..|history| - 1])
  }

  /** How many consecutive failures trip the breaker: a threshold of 0 acts like 1. */
  function Trip(threshold: U32): nat {
    if threshold == 0 then 1 else threshold
  }

  /** What the breaker shows after a history: the reference the fields are compared with. */
  function StateAfter(history: seq<Event>, threshold: U32, timeout: nat, now: int): BreakerState {
    if Streak(history) < Trip(threshold) then Closed
    else if LastFailure(history).Some? && Elapsed(now, LastFailure(history).value) >= timeout then HalfOpen
    else Open
  }

  lemma Recorded(history: seq<Event>, e: Event)
    ensures Streak(history + [e]) == if e.Failed? then Streak(history) + 1 else 0
    ensures LastFailure(history + [e]) == if e.Failed? then Some(e.at) else LastFailure(history)
  {
    assert (history + [e])[..|history|] == history;
  }

  class Breaker {
    const threshold: U32
    const timeout: nat
    /** 0 = closed, 1 = open; half-open is derived when read. */
    var raw: nat
    var failureCount: U32
    var lastFailureAt: Option<int>
    ghost var history: seq<Event>

    ghost predicate Valid()
      reads this
    {
      && raw == (if Streak(history) >= Trip(threshold) then 1 else 0)
      && failureCount == Streak(history) % U32_SIZE
      && lastFailureAt == LastFailure(history)
    }

    constructor (threshold: U32, timeout: nat)
      ensures Valid() && history == [] && this.threshold == threshold && this.timeout == timeout
    {
      this.threshold, this.timeout := threshold, timeout;
      raw, failureCount, lastFailureAt, history := 0, 0, None, [];
    }

    method CurrentState(now: int) returns (s: BreakerState)
      requires Valid()
      ensures s == StateAfter(history, threshold, timeout, now)
    {
      if raw == 0 {
        return Closed;
      }
      if lastFailureAt.Some? {
        if Elapsed(now, lastFailureAt.value) >= timeout {
          return HalfOpen;
        }
      }
      return Open;
    }

    method AllowRequest(now: int) returns (allowed: bool)
      requires Valid()
      ensures allowed <==> StateAfter(history, threshold, timeout, now) != Open
    {
      var s := CurrentState(now);
      allowed := s != Open;
    }

    /** The latch holds although the 32-bit counter wraps: once tripped it needs no second look. */
    method RecordFailure(now: int)
      requires Valid()
      modifies this
      ensures Valid() && history == old(history) + [Failed(now)]
    {
      Recorded(history, Failed(now));
      NextIsModulo(Streak(history));
      failureCount := Next(failureCount);
      var count := failureCount;
      lastFailureAt := Some(now);
      if count >= threshold {
        raw := 1;
      }
      history := history + [Failed(now)];
    }

    method RecordSuccess()
      requires Valid()
      modifies this
      ensures Valid() && history == old(history) + [Succeeded]
    {
      Recorded(history, Succeeded);
      failureCount := 0;
      raw := 0;
      history := history + [Succeeded];
    }
  }

  lemma NextIsModulo(n: nat)
    ensures Next(n % U32_SIZE) == (n + 1) % U32_SIZE
  {
  }

  /** The history ends with at least k failures in a row. */
  ghost predicate EndsWithFailures(history: seq<Event>, k: nat) {
    k <= |history| && forall i :: |history| - k <= i < |history| ==> history[i].Failed?
  }

  lemma {:induction false} StreakIsTail(history: seq<Event>, k: nat)
    ensures Streak(history) >= k <==> EndsWithFailures(history, k)
  {
    if k > 0 && history != [] && history[|history| - 1].Failed? {
      StreakIsTail(history[..|history| - 1], k - 1);
      var init := history[..|history| - 1];
      assert EndsWithFailures(init, k - 1) ==> EndsWithFailures(history, k);
    }
  }

  /**
   The breaker rejects a request exactly when the last max(1, threshold) outcomes were all failures
   and the latest of them is younger than the recovery timeout.
   */
  lemma RejectsIff(history: seq<Event>, threshold: U32, timeout: nat, now: int)
    ensures StateAfter(history, threshold, timeout, now) == Open <==>
            && EndsWithFailures(history, Trip(threshold))
            && Elapsed(now, history[|history| - 1].at) < timeout
  {
    StreakIsTail(history, Trip(threshold));
  }

  /** It probes exactly when those outcomes were failures and the latest is old enough; otherwise it is closed. */
  lemma ProbesIff(history: seq<Event>, threshold: U32, timeout: nat, now: int)
    ensures StateAfter(history, threshold, timeout, now) == HalfOpen <==>
            && EndsWithFailures(history, if threshold == 0 then 1 else threshold)
            && (timeout == 0 || now >= history[|history| - 1].at + timeout)
    ensures StateAfter(history, threshold, timeout, now) == Closed <==>
            !EndsWithFailures(history, if threshold == 0 then 1 else threshold)
    ensures StateAfter(history, threshold, timeout, now) == Open <==>
            && EndsWithFailures(history, if threshold == 0 then 1 else threshold)
            && timeout > 0 && now < history[|history| - 1].at + timeout
  {
    StreakIsTail(history, Trip(threshold));
  }

  /** A tripped breaker lets a probe through once the timeout has passed, and a failed probe rejects again. */
  lemma ProbeCycle(history: seq<Event>, threshold: U32, timeout: nat, now: int, later: int)
    requires StateAfter(history, threshold, timeout, now) == HalfOpen && timeout > 0
    ensures StateAfter(history + [Failed(now)], threshold, timeout, later) == Open <==> later < now + timeout
    ensures StateAfter(history + [Succeeded], threshold, timeout, later) == Closed
  {
    Recorded(history, Failed(now));
    Recorded(history, Succeeded);
  }
}
