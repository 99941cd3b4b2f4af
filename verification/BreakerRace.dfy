/**
 The circuit breaker under concurrent use, one atomic access at a time in some sequentially
 consistent order. `record_failure` adds to the counter, reads the clock, stamps the time under the
 mutex, and may store 1; `record_success` stores 0 in the counter and then 0 in the state; `state`
 loads the raw state and, if it is 1, compares the stamp with the clock under the mutex.
 */
module BreakerRace {
  import opened Wrappers
  import opened CircuitBreaker

  type ThreadId = nat

  /**
   Where a thread stands. A failure carries the count it got and `mine`, the position of its own
   increment among all accesses to the counter (history).
   */
  datatype Stage =
    | Counted(count: U32, mine: nat)
    | Timed(count: U32, mine: nat, now: int)
    | Stamped(count: U32, mine: nat)
    | Resetting
    | SawTripped
    | Answered(state: BreakerState)

  /** An access to the failure counter. */
  datatype Access = Increment | Reset

  /** The three cells, a clock, the threads, and the accesses to the counter in order (history). */
  datatype State = State(
    threshold: U32,
    timeout: nat,
    raw: nat,
    count: U32,
    stamp: Option<int>,
    clock: int,
    threads: map<ThreadId, Stage>,
    accesses: seq<Access>)

  datatype Step =
    | FailCount(t: ThreadId)
    | FailClock(t: ThreadId)
    | FailStamp(t: ThreadId)
    | FailTrip(t: ThreadId)
    | SucceedReset(t: ThreadId)
    | SucceedClose(t: ThreadId)
    | LoadRaw(t: ThreadId)
    | LoadStamp(t: ThreadId)
    | Forget(t: ThreadId)
    | Tick(delta: nat)

  predicate Enabled(s: State, step: Step) {
    match step
    case FailCount(t) => t !in s.threads
    case FailClock(t) => t in s.threads && s.threads[t].Counted?
    case FailStamp(t) => t in s.threads && s.threads[t].Timed?
    case FailTrip(t) => t in s.threads && s.threads[t].Stamped?
    case SucceedReset(t) => t !in s.threads
    case SucceedClose(t) => t in s.threads && s.threads[t] == Resetting
    case LoadRaw(t) => t !in s.threads
    case LoadStamp(t) => t in s.threads && s.threads[t] == SawTripped
    case Forget(t) => t in s.threads && s.threads[t].Answered?
    case Tick(_) => true
  }

  /** The answer of `state` once it has seen raw state 1. */
  function Derived(s: State): BreakerState {
    if s.stamp.Some? && Elapsed(s.clock, s.stamp.value) >= s.timeout then HalfOpen else Open
  }

  function Apply(s: State, step: Step): State
    requires Enabled(s, step)
  {
    match step
    case FailCount(t) =>
      s.(count := Next(s.count), accesses := s.accesses + [Increment],
         threads := s.threads[t := Counted(Next(s.count), |s.accesses|)])
    case FailClock(t) =>
      s.(threads := s.threads[t := Timed(s.threads[t].count, s.threads[t].mine, s.clock)])
    case FailStamp(t) =>
      s.(stamp := Some(s.threads[t].now), threads := s.threads[t := Stamped(s.threads[t].count, s.threads[t].mine)])
    case FailTrip(t) =>
      s.(raw := if s.threads[t].count >= s.threshold then 1 else s.raw, threads := s.threads - {t})
    case SucceedReset(t) =>
      s.(count := 0, accesses := s.accesses + [Reset], threads := s.threads[t := Resetting])
    case SucceedClose(t) => s.(raw := 0, threads := s.threads - {t})
    case LoadRaw(t) =>
      s.(threads := s.threads[t := if s.raw == 0 then Answered(Closed) else SawTripped])
    case LoadStamp(t) => s.(threads := s.threads[t := Answered(Derived(s))])
    case Forget(t) => s.(threads := s.threads - {t})
    case Tick(delta) => s.(clock := s.clock + delta)
  }

  predicate Init(s: State) {
    s.raw == 0 && s.count == 0 && s.stamp == None && s.threads == map[] && s.accesses == []
  }

  ghost predicate Follows(states: seq<State>, steps: seq<Step>, i: nat)
    requires i < |steps| && i + 1 < |states|
  {
    Enabled(states[i], steps[i]) && states[i + 1] == Apply(states[i], steps[i])
  }

  ghost predicate IsPath(states: seq<State>, steps: seq<Step>) {
    |states| == |steps| + 1 && forall i :: 0 <= i < |steps| ==> Follows(states, steps, i)
  }

  ghost predicate IsRun(states: seq<State>, steps: seq<Step>) {
    IsPath(states, steps) && Init(states[0])
  }

  /** The accesses that the first n steps make to the counter, in order. */
  function CounterAccesses(steps: seq<Step>, n: nat): seq<Access>
    requires n <= |steps|
  {
    if n == 0 then []
    else
      CounterAccesses(steps, n - 1) +
      match steps[n - 1]
      case FailCount(_) => [Increment]
      case SucceedReset(_) => [Reset]
      case _ => []
  }

  lemma {:induction false} AccessesAre(states: seq<State>, steps: seq<Step>, n: nat)
    requires IsRun(states, steps) && n < |states|
    ensures states[n].accesses == CounterAccesses(steps, n)
  {
    if n > 0 {
      AccessesAre(states, steps, n - 1);
      assert Follows(states, steps, n - 1);
    }
  }

  /** Increments since the last reset. */
  function Consecutive(accesses: seq<Access>): nat {
    if accesses == [] || accesses[|accesses| - 1].Reset? then 0
    else Consecutive(accesses[..|accesses| - 1]) + 1
  }

  lemma ConsecutiveOfAppend(accesses: seq<Access>, a: Access)
    ensures Consecutive(accesses + [a]) == if a.Increment? then Consecutive(accesses) + 1 else 0
  {
    assert (accesses + [a])[..|accesses|] == accesses;
  }

  /** The last k of these accesses are all increments. */
  ghost predicate EndsWithIncrements(accesses: seq<Access>, k: nat) {
    k <= |accesses| && forall i :: |accesses| - k <= i < |accesses| ==> accesses[i] == Increment
  }

  lemma {:induction false} ConsecutiveIsTail(accesses: seq<Access>, k: nat)
    requires k <= Consecutive(accesses)
    ensures EndsWithIncrements(accesses, k)
  {
    if k > 0 {
      ConsecutiveIsTail(accesses[..|accesses| - 1], k - 1);
    }
  }

  // The invariant.

  /** A failure's count is at most the run of increments that ends with its own. */
  ghost predicate Earned(s: State, count: U32, mine: nat) {
    && mine < |s.accesses| && s.accesses[mine] == Increment
    && count <= Consecutive(s.accesses[..mine + 1])
  }

  ghost predicate StageOk(s: State, stage: Stage) {
    match stage
    case Counted(count, mine) => Earned(s, count, mine)
    case Timed(count, mine, now) => Earned(s, count, mine) && now <= s.clock
    case Stamped(count, mine) => Earned(s, count, mine) && s.stamp.Some?
    case SawTripped => s.stamp.Some?
    case _ => true
  }

  ghost predicate Inv(s: State) {
    && s.raw <= 1
    && (s.raw == 1 ==> s.stamp.Some?)
    && (s.stamp.Some? ==> s.stamp.value <= s.clock)
    && s.count <= Consecutive(s.accesses)
    && forall t :: t in s.threads ==> StageOk(s, s.threads[t])
  }

  /** A longer list of accesses, a later clock and a set stamp keep a stage in order. */
  lemma StageStays(s: State, s': State, stage: Stage)
    requires StageOk(s, stage) && s.accesses <= s'.accesses && s.clock <= s'.clock
    requires s.stamp.Some? ==> s'.stamp.Some?
    ensures StageOk(s', stage)
  {
    if stage.Counted? || stage.Timed? || stage.Stamped? {
      assert s'.accesses[..stage.mine + 1] == s.accesses[..stage.mine + 1];
    }
  }

  /** The stage a thread enters by this step is in order. */
  lemma NewStageOk(s: State, step: Step)
    requires Inv(s) && Enabled(s, step) && !step.Tick?
    ensures var s' := Apply(s, step);
            step.t in s'.threads ==> StageOk(s', s'.threads[step.t])
  {
    var s' := Apply(s, step);
    match step
    case FailCount(t) =>
      ConsecutiveOfAppend(s.accesses, Increment);
      assert s'.accesses[..|s.accesses| + 1] == s'.accesses;
    case FailClock(t) => assert StageOk(s, s.threads[t]);
    case FailStamp(t) => assert StageOk(s, s.threads[t]);
    case LoadRaw(t) =>
    case _ =>
  }

  lemma StepKeepsInv(s: State, step: Step)
    requires Inv(s) && Enabled(s, step)
    ensures Inv(Apply(s, step))
  {
    var s' := Apply(s, step);
    if step.FailCount? {
      ConsecutiveOfAppend(s.accesses, Increment);
    } else if step.SucceedReset? {
      ConsecutiveOfAppend(s.accesses, Reset);
    } else if step.FailStamp? || step.FailTrip? {
      assert StageOk(s, s.threads[step.t]);
    }
    forall t | t in s'.threads
      ensures StageOk(s', s'.threads[t])
    {
      if !step.Tick? && t == step.t {
        NewStageOk(s, step);
      } else {
        StageStays(s, s', s.threads[t]);
      }
    }
  }

  lemma {:induction false} RunKeepsInv(states: seq<State>, steps: seq<Step>, n: nat)
    requires IsRun(states, steps) && n < |states|
    ensures Inv(states[n])
  {
    if n > 0 {
      RunKeepsInv(states, steps, n - 1);
      assert Follows(states, steps, n - 1);
      StepKeepsInv(states[n - 1], steps[n - 1]);
    }
  }

  // What every run guarantees.

  /**
   Every store of raw state 1 is earned: at least max(1, threshold) increments of the counter in a
   row, with no reset between them, ending with the storing call's own increment. This also holds
   when the 32-bit counter has wrapped.
   */
  lemma TripsAreEarned(states: seq<State>, steps: seq<Step>, n: nat, t: ThreadId)
    requires IsRun(states, steps) && n < |steps| && steps[n] == FailTrip(t)
    requires t in states[n].threads && states[n].threads[t].Stamped?
    requires states[n].threads[t].count >= states[n].threshold
    ensures var s := states[n];
            var mine := s.threads[t].mine;
            && mine < |s.accesses| && s.accesses == CounterAccesses(steps, n)
            && EndsWithIncrements(s.accesses[..mine + 1], Trip(s.threshold))
  {
    AccessesAre(states, steps, n);
    RunKeepsInv(states, steps, n);
    var s := states[n];
    var mine := s.threads[t].mine;
    assert StageOk(s, s.threads[t]);
    ConsecutiveOfAppend(s.accesses[..mine], Increment);
    assert s.accesses[..mine + 1] == s.accesses[..mine] + [Increment];
    ConsecutiveIsTail(s.accesses[..mine + 1], Trip(s.threshold));
  }

  /** Raw state 1 never stands without a failure time. */
  lemma TrippedHasStamp(states: seq<State>, steps: seq<Step>, n: nat)
    requires IsRun(states, steps) && n < |states| && states[n].raw != 0
    ensures states[n].raw == 1 && states[n].stamp.Some?
  {
    RunKeepsInv(states, steps, n);
  }

  /** Every time that is stamped, or that some failure is about to stamp, is at most this one. */
  ghost predicate StampsBefore(s: State, time: int) {
    && (s.stamp.Some? ==> s.stamp.value <= time)
    && forall t :: t in s.threads && s.threads[t].Timed? ==> s.threads[t].now <= time
  }

  lemma StampsStay(s: State, step: Step, time: int)
    requires Enabled(s, step) && !step.FailClock? && StampsBefore(s, time)
    ensures StampsBefore(Apply(s, step), time)
    ensures Apply(s, step).timeout == s.timeout
  {
  }

  /** Without a further failure reading the clock, no later stamp appears. */
  lemma {:induction false} NoLaterStamp(states: seq<State>, steps: seq<Step>, m: nat, n: nat)
    requires IsRun(states, steps) && m <= n < |states|
    requires forall i :: m <= i < n ==> !steps[i].FailClock?
    ensures StampsBefore(states[n], states[m].clock) && states[n].timeout == states[m].timeout
  {
    if m == n {
      RunKeepsInv(states, steps, n);
      forall t | t in states[n].threads && states[n].threads[t].Timed?
        ensures states[n].threads[t].now <= states[n].clock
      {
        assert StageOk(states[n], states[n].threads[t]);
      }
    } else {
      NoLaterStamp(states, steps, m, n - 1);
      assert Follows(states, steps, n - 1);
      StampsStay(states[n - 1], steps[n - 1], states[m].clock);
    }
  }

  /**
   The breaker is never stuck: once the recovery timeout has passed since the last time any failure
   read the clock, no call of `state` answers Open, whatever is still in flight.
   */
  lemma NeverStuck(states: seq<State>, steps: seq<Step>, m: nat, n: nat, t: ThreadId)
    requires IsRun(states, steps) && m <= n < |steps|
    requires forall i :: m <= i < n ==> !steps[i].FailClock?
    requires states[n].clock >= states[m].clock + states[m].timeout
    requires steps[n] == LoadRaw(t) || steps[n] == LoadStamp(t)
    ensures t in states[n + 1].threads && states[n + 1].threads[t] != Answered(Open)
  {
    NoLaterStamp(states, steps, m, n);
    RunKeepsInv(states, steps, n);
    assert Follows(states, steps, n);
    if steps[n] == LoadStamp(t) {
      assert StageOk(states[n], states[n].threads[t]);
    }
  }

  /** Step i of the run stores raw state 1. */
  ghost predicate Trips(states: seq<State>, steps: seq<Step>, i: int)
    requires |states| == |steps| + 1
  {
    && 0 <= i < |steps| && steps[i].FailTrip?
    && steps[i].t in states[i].threads && states[i].threads[steps[i].t].Stamped?
    && states[i].threads[steps[i].t].count >= states[i].threshold
  }

  /** No success has closed the breaker from step i on. */
  ghost predicate NotClosedSince(steps: seq<Step>, i: int, n: nat) {
    forall j :: 0 <= i < j < n && j < |steps| ==> !steps[j].SucceedClose?
  }

  /** The raw state is 1 if and only if some call tripped the breaker and no success has closed it since. */
  lemma {:induction false} RawIsLastWord(states: seq<State>, steps: seq<Step>, n: nat)
    requires IsRun(states, steps) && n < |states|
    ensures states[n].raw == 1 <==> exists i :: i < n && Trips(states, steps, i) && NotClosedSince(steps, i, n)
  {
    RunKeepsInv(states, steps, n);
    if n > 0 {
      var m := n - 1;
      RawIsLastWord(states, steps, m);
      assert Follows(states, steps, m);
      if Trips(states, steps, m) {
        assert NotClosedSince(steps, m, n);
      } else if steps[m].SucceedClose? {
        assert forall i :: i < n && Trips(states, steps, i) ==> i < m;
      } else {
        assert states[n].raw == states[m].raw;
        forall i | i < m && Trips(states, steps, i)
          ensures NotClosedSince(steps, i, m) <==> NotClosedSince(steps, i, n)
        {
        }
      }
    }
  }

  // What each query answers.

  /** Some call has tripped the breaker before state n, and no success has closed it since. */
  ghost predicate TripStands(states: seq<State>, steps: seq<Step>, n: nat)
    requires |states| == |steps| + 1
  {
    exists i :: i < n && Trips(states, steps, i) && NotClosedSince(steps, i, n)
  }

  /** Step k is the last one before state n that stamps a failure time. */
  ghost predicate LastStamp(steps: seq<Step>, k: nat, n: nat) {
    k < n <= |steps| && steps[k].FailStamp? && forall j :: k < j < n ==> !steps[j].FailStamp?
  }

  /** The reading of the clock that step k stamps. */
  function StampedBy(states: seq<State>, steps: seq<Step>, k: nat): int
    requires k < |steps| && k < |states| && steps[k].FailStamp? && Enabled(states[k], steps[k])
  {
    states[k].threads[steps[k].t].now
  }

  /** The stamp is the reading stamped last. */
  lemma {:induction false} StampIsLast(states: seq<State>, steps: seq<Step>, n: nat) returns (k: nat)
    requires IsRun(states, steps) && n < |states| && states[n].stamp.Some?
    ensures LastStamp(steps, k, n) && Follows(states, steps, k)
    ensures states[n].stamp == Some(StampedBy(states, steps, k))
  {
    assert n > 0;
    assert Follows(states, steps, n - 1);
    if steps[n - 1].FailStamp? {
      k := n - 1;
    } else {
      k := StampIsLast(states, steps, n - 1);
    }
  }

  /** A thread that is to compare the stamp loaded raw state 1 before, and has done nothing since. */
  lemma {:induction false} RawLoadedBefore(states: seq<State>, steps: seq<Step>, n: nat, t: ThreadId) returns (i: nat)
    requires IsRun(states, steps) && n < |states| && t in states[n].threads && states[n].threads[t].SawTripped?
    ensures i < n && steps[i] == LoadRaw(t) && states[i].raw != 0
    ensures forall j :: i < j <= n ==> t in states[j].threads && states[j].threads[t].SawTripped?
  {
    assert n > 0;
    assert Follows(states, steps, n - 1);
    if steps[n - 1] == LoadRaw(t) {
      i := n - 1;
    } else {
      i := RawLoadedBefore(states, steps, n - 1, t);
    }
  }

  /** A query that loads the raw state answers Closed at once if and only if no trip stands; else it goes on. */
  lemma RawLoadAnswers(states: seq<State>, steps: seq<Step>, i: nat, t: ThreadId)
    requires IsRun(states, steps) && i < |steps| && steps[i] == LoadRaw(t)
    ensures t in states[i + 1].threads
    ensures states[i + 1].threads[t] == if TripStands(states, steps, i) then SawTripped else Answered(Closed)
  {
    RunKeepsInv(states, steps, i);
    RawIsLastWord(states, steps, i);
    assert Follows(states, steps, i);
  }

  /**
   A query that goes on to compare the stamp had loaded the raw state while a trip stood, and answers
   Open if and only if the reading stamped last before its comparison is younger than the timeout,
   and HalfOpen otherwise.
   */
  lemma StampLoadAnswers(states: seq<State>, steps: seq<Step>, n: nat, t: ThreadId) returns (i: nat, k: nat)
    requires IsRun(states, steps) && n < |steps| && steps[n] == LoadStamp(t)
    ensures i < n && steps[i] == LoadRaw(t) && TripStands(states, steps, i)
    ensures forall j :: i < j <= n ==> t in states[j].threads && states[j].threads[t].SawTripped?
    ensures LastStamp(steps, k, n) && Follows(states, steps, k) && t in states[n + 1].threads
    ensures states[n + 1].threads[t] ==
            Answered(if states[n].clock < StampedBy(states, steps, k) + states[n].timeout then Open else HalfOpen)
  {
    RunKeepsInv(states, steps, n);
    assert Follows(states, steps, n);
    assert StageOk(states[n], states[n].threads[t]);
    i := RawLoadedBefore(states, steps, n, t);
    RunKeepsInv(states, steps, i);
    RawIsLastWord(states, steps, i);
    k := StampIsLast(states, steps, n);
  }

  /** The state answered at the end of a query. */
  predicate Answers(states: seq<State>, steps: seq<Step>, n: nat, t: ThreadId, answer: BreakerState)
    requires |states| == |steps| + 1 && n < |steps|
  {
    (steps[n] == LoadRaw(t) || steps[n] == LoadStamp(t)) && t in states[n + 1].threads
    && states[n + 1].threads[t] == Answered(answer)
  }

  /** The query of thread t that ends with step n loaded the raw state at step i. */
  ghost predicate LoadedAt(states: seq<State>, steps: seq<Step>, i: nat, n: nat, t: ThreadId)
    requires |states| == |steps| + 1 && n < |steps|
  {
    && i <= n && steps[i] == LoadRaw(t)
    && forall j :: i < j <= n ==> t in states[j].threads && states[j].threads[t].SawTripped?
  }

  /** The last reading stamped before state n is younger than the timeout. */
  ghost predicate StampIsFresh(states: seq<State>, steps: seq<Step>, n: nat)
    requires IsRun(states, steps) && n < |states|
  {
    exists k: nat :: LastStamp(steps, k, n) && Follows(states, steps, k)
                     && states[n].clock < StampedBy(states, steps, k) + states[n].timeout
  }

  lemma LastStampIsOne(steps: seq<Step>, k: nat, l: nat, n: nat)
    requires LastStamp(steps, k, n) && LastStamp(steps, l, n)
    ensures k == l
  {
  }

  /** Whatever else is in flight, every query ends with the answer that trips, closes and stamps call for. */
  lemma QueryAnswers(states: seq<State>, steps: seq<Step>, n: nat, t: ThreadId, answer: BreakerState)
    returns (i: nat)
    requires IsRun(states, steps) && n < |steps| && Answers(states, steps, n, t, answer)
    ensures LoadedAt(states, steps, i, n, t)
    ensures answer == Closed <==> !TripStands(states, steps, i)
    ensures answer == Open <==> TripStands(states, steps, i) && StampIsFresh(states, steps, n)
    ensures answer == HalfOpen <==> TripStands(states, steps, i) && !StampIsFresh(states, steps, n)
  {
    if steps[n] == LoadRaw(t) {
      i := n;
      RawLoadAnswers(states, steps, n, t);
    } else {
      var k: nat;
      i, k := StampLoadAnswers(states, steps, n, t);
      if StampIsFresh(states, steps, n) {
        var l: nat :| LastStamp(steps, l, n) && Follows(states, steps, l)
                      && states[n].clock < StampedBy(states, steps, l) + states[n].timeout;
        LastStampIsOne(steps, k, l, n);
      }
    }
  }

  // When does a success stick?

  predicate InFlight(stage: Stage) {
    stage.Counted? || stage.Timed? || stage.Stamped?
  }

  /** Some failure in flight has been counted up to the threshold already. */
  ghost predicate LateFailure(s: State) {
    exists u :: u in s.threads && InFlight(s.threads[u]) && s.threads[u].count >= s.threshold
  }

  /** How many failures are counted by the steps from i up to n. */
  function FreshFailures(steps: seq<Step>, i: nat, n: nat): nat
    requires n <= |steps|
  {
    if n <= i then 0 else FreshFailures(steps, i, n - 1) + if steps[n - 1].FailCount? then 1 else 0
  }

  /** Every count taken since a reset is at most the failures since; any other is below the threshold. */
  ghost predicate CountsLow(s: State, newer: nat) {
    && s.count <= newer
    && forall u :: u in s.threads && InFlight(s.threads[u]) ==>
         s.threads[u].count < s.threshold || (newer > 0 && s.threads[u].count <= newer)
  }

  lemma CountsStayLow(s: State, step: Step, newer: nat)
    requires Enabled(s, step) && CountsLow(s, newer)
    ensures CountsLow(Apply(s, step), if step.FailCount? then newer + 1 else newer)
    ensures Apply(s, step).threshold == s.threshold
  {
  }

  lemma {:induction false} CountsLowAfterReset(states: seq<State>, steps: seq<Step>, i: nat, n: nat, t: ThreadId)
    requires IsPath(states, steps) && i < n <= |steps|
    requires steps[i] == SucceedReset(t) && !LateFailure(states[i])
    ensures CountsLow(states[n], FreshFailures(steps, i, n)) && states[n].threshold == states[i].threshold
  {
    if n == i + 1 {
      assert Follows(states, steps, i);
    } else {
      CountsLowAfterReset(states, steps, i, n - 1, t);
      assert Follows(states, steps, n - 1);
      CountsStayLow(states[n - 1], steps[n - 1], FreshFailures(steps, i, n - 1));
    }
  }

  lemma {:induction false} FreshGrows(steps: seq<Step>, i: nat, m: nat, n: nat)
    requires m <= n <= |steps|
    ensures FreshFailures(steps, i, m) <= FreshFailures(steps, i, n)
  {
    if m < n {
      FreshGrows(steps, i, m, n - 1);
    }
  }

  /** With no late failure at a reset, no call trips the breaker before enough failures have been counted afresh. */
  lemma NoTripBefore(states: seq<State>, steps: seq<Step>, i: nat, k: nat, n: nat, t: ThreadId)
    requires IsPath(states, steps) && i < k < n <= |steps|
    requires steps[i] == SucceedReset(t) && !LateFailure(states[i])
    requires FreshFailures(steps, i, n) < Trip(states[i].threshold)
    ensures !Trips(states, steps, k)
  {
    CountsLowAfterReset(states, steps, i, k, t);
    FreshGrows(steps, i, k, n);
  }

  /** The run goes on with a success of thread t: its reset comes first, its close some steps later. */
  ghost predicate Succeeds(
    states: seq<State>, steps: seq<Step>, t: ThreadId, states': seq<State>, steps': seq<Step>)
  {
    && IsRun(states', steps') && states <= states' && steps < steps'
    && steps'[|steps|] == SucceedReset(t)
    && exists j :: |steps| < j < |steps'| && steps'[j] == SucceedClose(t)
  }

  lemma SuccessSticks(states: seq<State>, steps: seq<Step>, t: ThreadId, states': seq<State>, steps': seq<Step>)
    requires IsRun(states, steps) && Succeeds(states, steps, t, states', steps')
    requires !LateFailure(states[|steps|])
    requires FreshFailures(steps', |steps|, |steps'|) < Trip(states[|steps|].threshold)
    ensures states'[|steps'|].raw == 0
  {
    var i, n := |steps|, |steps'|;
    var j :| i < j < n && steps'[j] == SucceedClose(t);
    RunKeepsInv(states', steps', n);
    RawIsLastWord(states', steps', n);
    assert states'[i] == states[i];
    if k :| k < n && Trips(states', steps', k) && NotClosedSince(steps', k, n) {
      assert j <= k;
      NoTripBefore(states', steps', i, k, n, t);
    }
  }

  /** One more enabled step continues a run. */
  lemma Continue(states: seq<State>, steps: seq<Step>, step: Step) returns (states': seq<State>, steps': seq<Step>)
    requires IsRun(states, steps) && Enabled(states[|steps|], step)
    ensures steps' == steps + [step] && states' == states + [Apply(states[|steps|], step)]
    ensures IsRun(states', steps')
  {
    states', steps' := states + [Apply(states[|steps|], step)], steps + [step];
    forall i | 0 <= i < |steps'|
      ensures Follows(states', steps', i)
    {
      if i < |steps| {
        assert Follows(states, steps, i);
      }
    }
  }

  /** A failure in flight runs to its end: what it does to the raw state is decided by its count. */
  lemma {:induction false} Finish(states: seq<State>, steps: seq<Step>, u: ThreadId)
    returns (states': seq<State>, steps': seq<Step>)
    requires IsRun(states, steps) && u in states[|steps|].threads && InFlight(states[|steps|].threads[u])
    ensures IsRun(states', steps') && states <= states' && steps < steps'
    ensures FreshFailures(steps', |steps|, |steps'|) == 0
    ensures var s, s' := states[|steps|], states'[|steps'|];
            && s'.raw == (if s.threads[u].count >= s.threshold then 1 else s.raw)
            && s'.count == s.count && s'.threshold == s.threshold && s'.threads == s.threads - {u}
    decreases if states[|steps|].threads[u].Counted? then 2 else if states[|steps|].threads[u].Timed? then 1 else 0
  {
    var stage := states[|steps|].threads[u];
    var step := if stage.Counted? then FailClock(u) else if stage.Timed? then FailStamp(u) else FailTrip(u);
    var mid, path := Continue(states, steps, step);
    if stage.Stamped? {
      states', steps' := mid, path;
    } else {
      states', steps' := Finish(mid, path, u);
      FreshUpTo(steps', |steps|, |path|, |steps'|);
      assert mid[|path|].threads - {u} == states[|steps|].threads - {u};
    }
  }

  /** Counting on from a point in between. */
  lemma {:induction false} FreshUpTo(steps: seq<Step>, i: nat, m: nat, n: nat)
    requires i <= m <= n <= |steps|
    ensures FreshFailures(steps, i, n) == FreshFailures(steps, i, m) + FreshFailures(steps, m, n)
  {
    if m < n {
      FreshUpTo(steps, i, m, n - 1);
    }
  }

  /** The success alone, with nothing in between. */
  lemma SucceedNow(states: seq<State>, steps: seq<Step>, t: ThreadId) returns (states': seq<State>, steps': seq<Step>)
    requires IsRun(states, steps) && Enabled(states[|steps|], SucceedReset(t))
    ensures Succeeds(states, steps, t, states', steps') && FreshFailures(steps', |steps|, |steps'|) == 0
    ensures |steps'| == |steps| + 2
    ensures var s, s' := states[|steps|], states'[|steps'|];
            s'.raw == 0 && s'.count == 0 && s'.threshold == s.threshold && s'.threads == s.threads
  {
    states', steps' := Continue(states, steps, SucceedReset(t));
    states', steps' := Continue(states', steps', SucceedClose(t));
    assert steps'[|steps| + 1] == SucceedClose(t) && FreshFailures(steps', |steps|, |steps| + 1) == 0;
    assert states[|steps|].threads[t := Resetting] - {t} == states[|steps|].threads;
  }

  /**
   A success sticks, through everything that may follow it until max(1, threshold) further failures
   have been counted, if and only if no failure in flight at its reset had been counted up to the
   threshold. (The documentation promises it without the condition.)
   */
  lemma SuccessSticksIff(states: seq<State>, steps: seq<Step>, t: ThreadId)
    requires IsRun(states, steps) && Enabled(states[|steps|], SucceedReset(t))
    ensures !LateFailure(states[|steps|]) <==>
            forall states': seq<State>, steps': seq<Step> ::
              Succeeds(states, steps, t, states', steps')
              && FreshFailures(steps', |steps|, |steps'|) < Trip(states[|steps|].threshold)
              ==> states'[|steps'|].raw == 0
  {
    if LateFailure(states[|steps|]) {
      var after, path := LateFailureTrips(states, steps, t);
    } else {
      forall states': seq<State>, steps': seq<Step> |
        Succeeds(states, steps, t, states', steps')
        && FreshFailures(steps', |steps|, |steps'|) < Trip(states[|steps|].threshold)
        ensures states'[|steps'|].raw == 0
      {
        SuccessSticks(states, steps, t, states', steps');
      }
    }
  }

  /** A late failure can undo the success without a single new failure. */
  lemma LateFailureTrips(states: seq<State>, steps: seq<Step>, t: ThreadId)
    returns (states': seq<State>, steps': seq<Step>)
    requires IsRun(states, steps) && Enabled(states[|steps|], SucceedReset(t)) && LateFailure(states[|steps|])
    ensures Succeeds(states, steps, t, states', steps')
    ensures FreshFailures(steps', |steps|, |steps'|) == 0 && states'[|steps'|].raw == 1
  {
    var s := states[|steps|];
    var u :| u in s.threads && InFlight(s.threads[u]) && s.threads[u].count >= s.threshold;
    var mid, path := SucceedNow(states, steps, t);
    states', steps' := Finish(mid, path, u);
    FreshUpTo(steps', |steps|, |path|, |steps'|);
    FreshOfPrefix(path, steps', |steps|, |path|);
    assert steps'[|steps| + 1] == SucceedClose(t);
  }

  lemma {:induction false} FreshOfPrefix(path: seq<Step>, steps: seq<Step>, i: nat, n: nat)
    requires path <= steps && n <= |path|
    ensures FreshFailures(path, i, n) == FreshFailures(steps, i, n)
  {
    if n > i {
      FreshOfPrefix(path, steps, i, n - 1);
    }
  }

  /** A run that goes on with k failures of one thread, one after the other, none in between. */
  lemma {:induction false} FailTimes(states: seq<State>, steps: seq<Step>, t: ThreadId, k: nat)
    returns (states': seq<State>, steps': seq<Step>)
    requires IsRun(states, steps) && t !in states[|steps|].threads && states[|steps|].count == 0 && k < U32_SIZE
    ensures IsRun(states', steps') && states <= states' && steps <= steps'
    ensures FreshFailures(steps', |steps|, |steps'|) == k
    ensures var s, s' := states[|steps|], states'[|steps'|];
            && s'.count == k && s'.threshold == s.threshold && t !in s'.threads
            && (k > 0 && k >= s.threshold ==> s'.raw == 1)
  {
    states', steps' := states, steps;
    if k > 0 {
      var mid, path := FailTimes(states, steps, t, k - 1);
      var next, longer := Continue(mid, path, FailCount(t));
      states', steps' := Finish(next, longer, t);
      FreshUpTo(steps', |steps|, |longer|, |steps'|);
      FreshOfPrefix(longer, steps', |steps|, |longer|);
      FreshOfPrefix(path, longer, |steps|, |path|);
    }
  }

  /** The number of further failures is sharp: that many can trip the breaker again after any success. */
  lemma EnoughFailuresTrip(states: seq<State>, steps: seq<Step>, t: ThreadId)
    returns (states': seq<State>, steps': seq<Step>)
    requires IsRun(states, steps) && Enabled(states[|steps|], SucceedReset(t))
    ensures Succeeds(states, steps, t, states', steps')
    ensures FreshFailures(steps', |steps|, |steps'|) == Trip(states[|steps|].threshold) && states'[|steps'|].raw == 1
  {
    var mid, path := SucceedNow(states, steps, t);
    states', steps' := FailTimes(mid, path, t, Trip(states[|steps|].threshold));
    FreshUpTo(steps', |steps|, |path|, |steps'|);
    FreshOfPrefix(path, steps', |steps|, |path|);
    assert steps'[|steps| + 1] == SucceedClose(t);
  }

  /** Late failures do occur: one counted before a success trips the breaker after that success has finished. */
  lemma LateFailureOutlivesSuccess()
    returns (states: seq<State>, steps: seq<Step>, counted: nat, reset: nat, closed: nat, tripped: nat)
    ensures IsRun(states, steps) && counted < reset < closed < tripped < |steps|
    ensures exists u, t ::
              && steps[counted] == FailCount(u) && steps[reset] == SucceedReset(t) && steps[closed] == SucceedClose(t)
              && steps[tripped] == FailTrip(u) && Trips(states, steps, tripped)
    ensures FreshFailures(steps, reset, |steps|) == 0
    ensures states[|steps|].raw == 1 && states[|steps|].count == 0 && states[|steps|].threads == map[]
  {
    var s0 := State(1, 10, 0, 0, None, 0, map[], []);
    var s1 := Apply(s0, FailCount(0));
    var s2 := Apply(s1, FailClock(0));
    var s3 := Apply(s2, FailStamp(0));
    var s4 := Apply(s3, SucceedReset(1));
    var s5 := Apply(s4, SucceedClose(1));
    var s6 := Apply(s5, FailTrip(0));
    states := [s0, s1, s2, s3, s4, s5, s6];
    steps := [FailCount(0), FailClock(0), FailStamp(0), SucceedReset(1), SucceedClose(1), FailTrip(0)];
    assert forall i :: 0 <= i < |steps| ==> Follows(states, steps, i);
    assert s6.threads == map[];
    counted, reset, closed, tripped := 0, 3, 4, 5;
    assert FreshFailures(steps, 3, 4) == 0 && FreshFailures(steps, 3, 5) == 0;
  }

  /** A tripped breaker lets a probe through: from every reachable state, by nothing but waiting and asking. */
  lemma Recovers(states: seq<State>, steps: seq<Step>, t: ThreadId)
    returns (states': seq<State>, steps': seq<Step>)
    requires IsRun(states, steps) && states[|steps|].raw == 1 && t !in states[|steps|].threads
    ensures IsRun(states', steps') && states <= states'
    ensures steps' == steps + [Tick(states[|steps|].timeout), LoadRaw(t), LoadStamp(t), Forget(t)]
    ensures Answers(states', steps', |steps| + 2, t, HalfOpen)
    ensures states'[|steps'|].threads == states[|steps|].threads
  {
    RunKeepsInv(states, steps, |steps|);
    states', steps' := Continue(states, steps, Tick(states[|steps|].timeout));
    states', steps' := Continue(states', steps', LoadRaw(t));
    states', steps' := Continue(states', steps', LoadStamp(t));
    states', steps' := Continue(states', steps', Forget(t));
  }
}
