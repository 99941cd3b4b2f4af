/**
 The channel poller's rate limit. `due` reads the clock before it takes the lock, so under
 concurrent use the checks reach the map in lock order with readings that may be stale: a history
 is any sequence of checks, with any readings at all.
 */
module PollLimiter {
  import opened Wrappers

  /** Nanoseconds since some instant. */
  type Time = int

  const NANOS_PER_SECOND := 1_000_000_000

  /** `Instant::duration_since`, which is zero when the other instant is later. */
  function Since(now: Time, last: Time): nat {
    if now < last then 0 else now - last
  }

  datatype Check = Check(channel: string, now: Time, interval: nat)

  predicate IsDue(lastTick: map<string, Time>, c: Check) {
    c.channel !in lastTick || Since(c.now, lastTick[c.channel]) >= c.interval
  }

  /** The map after a history of checks, starting from the empty one. */
  function LastTick(cs: seq<Check>): map<string, Time> {
    if cs == [] then map[]
    else
      var before, c := LastTick(cs[..|cs| - 1]), cs[|cs| - 1];
      if IsDue(before, c) then before[c.channel := c.now] else before
  }

  predicate Granted(cs: seq<Check>, i: nat)
    requires i < |cs|
  {
    IsDue(LastTick(cs[..i]), cs[i])
  }

  class PollState {
    var lastTick: map<string, Time>
    ghost var history: seq<Check>

    ghost predicate Valid()
      reads this
    {
      lastTick == LastTick(history)
    }

    constructor ()
      ensures Valid() && history == []
    {
      lastTick, history := map[], [];
    }

    method Due(channel: string, interval: nat, now: Time) returns (due: bool)
      requires Valid()
      modifies this
      ensures Valid() && history == old(history) + [Check(channel, now, interval)]
      ensures due == Granted(history, |old(history)|)
    {
      history := history + [Check(channel, now, interval)];
      assert history[..|history| - 1] == old(history);
      if channel in lastTick && Since(now, lastTick[channel]) < interval {
        due := false;
      } else {
        lastTick := lastTick[channel := now];
        due := true;
      }
    }
  }

  // Spacing.

  /** Every check of the channel asks for at least this interval. */
  predicate AtLeast(cs: seq<Check>, channel: string, interval: nat) {
    forall i :: 0 <= i < |cs| && cs[i].channel == channel ==> cs[i].interval >= interval
  }

  predicate GrantTo(cs: seq<Check>, channel: string, i: nat)
    requires i < |cs|
  {
    cs[i].channel == channel && Granted(cs, i)
  }

  /** A channel's entry in the map is a reading granted to it ... */
  lemma {:induction false} EntryIsGranted(cs: seq<Check>, channel: string) returns (i: nat)
    requires channel in LastTick(cs)
    ensures i < |cs| && GrantTo(cs, channel, i) && cs[i].now == LastTick(cs)[channel]
  {
    var n := |cs| - 1;
    if GrantTo(cs, channel, n) {
      i := n;
    } else {
      i := EntryIsGranted(cs[..n], channel);
      assert cs[..n][..i] == cs[..i];
    }
  }

  /** ... and, when every interval is positive, the greatest of them. */
  lemma {:induction false} EntryIsGreatest(cs: seq<Check>, channel: string, i: nat)
    requires AtLeast(cs, channel, 1) && i < |cs| && GrantTo(cs, channel, i)
    ensures channel in LastTick(cs) && cs[i].now <= LastTick(cs)[channel]
  {
    var n := |cs| - 1;
    if i < n {
      assert cs[..n][..i] == cs[..i];
      EntryIsGreatest(cs[..n], channel, i);
    }
  }

  /**
   With positive intervals, a check is granted exactly when its reading is its interval or more past
   every reading granted to the channel before: stale readings are never granted.
   */
  lemma GrantedIff(cs: seq<Check>, i: nat)
    requires i < |cs| && AtLeast(cs, cs[i].channel, 1)
    ensures Granted(cs, i) <==>
            forall j :: 0 <= j < i && GrantTo(cs, cs[i].channel, j) ==> cs[i].now - cs[j].now >= cs[i].interval
  {
    var channel, before := cs[i].channel, cs[..i];
    forall j | 0 <= j < i && GrantTo(cs, channel, j)
      ensures channel in LastTick(before) && cs[j].now <= LastTick(before)[channel]
    {
      assert before[..j] == cs[..j];
      EntryIsGreatest(before, channel, j);
    }
    if channel in LastTick(before) {
      var j := EntryIsGranted(before, channel);
      assert before[..j] == cs[..j];
      assert GrantTo(cs, channel, j);
    }
  }

  /** The grants of a channel with readings from `lo` to `hi`. */
  function GrantsWithin(cs: seq<Check>, channel: string, lo: Time, hi: Time): nat {
    if cs == [] then 0
    else
      var n := |cs| - 1;
      GrantsWithin(cs[..n], channel, lo, hi) + if GrantTo(cs, channel, n) && lo <= cs[n].now <= hi then 1 else 0
  }

  lemma {:induction false} GrantsSpread(cs: seq<Check>, channel: string, interval: nat, lo: Time, hi: Time)
    requires interval > 0 && AtLeast(cs, channel, interval)
    ensures var k := GrantsWithin(cs, channel, lo, hi);
            k > 0 ==>
              && channel in LastTick(cs)
              && lo + (k - 1) * interval <= LastTick(cs)[channel]
              && lo + (k - 1) * interval <= hi
  {
    if cs != [] {
      var n := |cs| - 1;
      GrantsSpread(cs[..n], channel, interval, lo, hi);
      var before, k := GrantsWithin(cs[..n], channel, lo, hi), GrantsWithin(cs, channel, lo, hi);
      if GrantTo(cs, channel, n) && before > 0 {
        assert cs[n].now >= LastTick(cs[..n])[channel] + interval;
        assert before * interval == (before - 1) * interval + interval;
      }
    }
  }

  /** In every history, whatever the readings, a window of length T holds at most floor(T / I) + 1 grants. */
  lemma GrantsAreLimited(cs: seq<Check>, channel: string, interval: nat, lo: Time, length: nat)
    requires interval > 0 && AtLeast(cs, channel, interval)
    ensures GrantsWithin(cs, channel, lo, lo + length) <= length / interval + 1
  {
    var k := GrantsWithin(cs, channel, lo, lo + length);
    GrantsSpread(cs, channel, interval, lo, lo + length);
    if k > 0 {
      QuotientAtLeast(length, interval, k - 1);
    }
  }

  lemma {:induction false} ProductsOrdered(a: nat, b: nat, y: nat)
    requires a <= b
    ensures a * y <= b * y
  {
    if a < b {
      ProductsOrdered(a, b - 1, y);
      assert b * y == (b - 1) * y + y;
    }
  }

  lemma QuotientAtLeast(x: nat, y: nat, q: nat)
    requires y > 0 && q * y <= x
    ensures q <= x / y
  {
    var d := x / y;
    assert x < d * y + y;
    assert (d + 1) * y == d * y + y;
    if d + 1 <= q {
      ProductsOrdered(d + 1, q, y);
    }
  }

  /** Checks at the first multiples of the interval. */
  function Steady(channel: string, interval: nat, count: nat): (cs: seq<Check>)
    ensures |cs| == count && forall i :: 0 <= i < count ==> cs[i].channel == channel && cs[i].interval == interval
  {
    if count == 0 then []
    else Steady(channel, interval, count - 1) + [Check(channel, Multiple(count - 1, interval), interval)]
  }

  function Multiple(k: nat, interval: nat): nat {
    if k == 0 then 0 else Multiple(k - 1, interval) + interval
  }

  lemma {:induction false} MultipleIsProduct(k: nat, interval: nat)
    ensures Multiple(k, interval) == k * interval
  {
    if k > 0 {
      MultipleIsProduct(k - 1, interval);
      assert k * interval == (k - 1) * interval + interval;
    }
  }

  lemma GrantAppended(cs: seq<Check>, c: Check)
    requires IsDue(LastTick(cs), c)
    ensures LastTick(cs + [c]) == LastTick(cs)[c.channel := c.now] && Granted(cs + [c], |cs|)
  {
    assert (cs + [c])[..|cs|] == cs;
  }

  lemma {:induction false} SteadyTicks(channel: string, interval: nat, count: nat)
    requires count > 0
    ensures LastTick(Steady(channel, interval, count)) == map[channel := Multiple(count - 1, interval)]
    ensures Granted(Steady(channel, interval, count), count - 1)
  {
    var init := Steady(channel, interval, count - 1);
    var c := Check(channel, Multiple(count - 1, interval), interval);
    if count > 1 {
      SteadyTicks(channel, interval, count - 1);
      assert Since(c.now, Multiple(count - 2, interval)) == interval;
    }
    GrantAppended(init, c);
  }

  lemma {:induction false} SteadyGrants(channel: string, interval: nat, count: nat, hi: Time)
    requires count > 0 ==> Multiple(count - 1, interval) <= hi
    ensures GrantsWithin(Steady(channel, interval, count), channel, 0, hi) == count
  {
    if count > 0 {
      assert Steady(channel, interval, count)[..count - 1] == Steady(channel, interval, count - 1);
      SteadyTicks(channel, interval, count);
      SteadyGrants(channel, interval, count - 1, hi);
    }
  }

  /** The bound is sharp: for every length and interval a history meets it. */
  lemma BoundIsMet(channel: string, interval: nat, length: nat) returns (cs: seq<Check>)
    requires interval > 0
    ensures AtLeast(cs, channel, interval)
    ensures GrantsWithin(cs, channel, 0, length) == length / interval + 1
  {
    var k := length / interval;
    MultipleIsProduct(k, interval);
    cs := Steady(channel, interval, k + 1);
    SteadyGrants(channel, interval, k + 1, length);
  }

  // Progress.

  /** The channel's last check before position `j`. */
  function PreviousCheck(cs: seq<Check>, channel: string, j: nat): Option<nat>
    requires j <= |cs|
  {
    if j == 0 then None
    else if cs[j - 1].channel == channel then Some(j - 1)
    else PreviousCheck(cs, channel, j - 1)
  }

  lemma {:induction false} PreviousCheckIsLast(cs: seq<Check>, channel: string, i: nat, j: nat)
    requires i < j <= |cs| && cs[i].channel == channel
    ensures var p := PreviousCheck(cs, channel, j);
            p.Some? && i <= p.value < j && cs[p.value].channel == channel
  {
    if cs[j - 1].channel != channel {
      PreviousCheckIsLast(cs, channel, i, j - 1);
    }
  }

  /** Each check of the channel reads a time at most `d` past the channel's check before it. */
  predicate CheckedEvery(cs: seq<Check>, channel: string, d: nat) {
    forall j :: 0 <= j < |cs| && cs[j].channel == channel ==>
      match PreviousCheck(cs, channel, j)
      case None => true
      case Some(p) => p < |cs| && cs[j].now - cs[p].now <= d
  }

  /** No grant to the channel strictly between two positions. */
  predicate NoGrantBetween(cs: seq<Check>, channel: string, i: nat, j: nat)
    requires j <= |cs|
  {
    forall k :: i < k < j ==> !GrantTo(cs, channel, k)
  }

  lemma {:induction false} EntryStays(cs: seq<Check>, channel: string, i: nat, j: nat)
    requires i < j <= |cs| && GrantTo(cs, channel, i) && NoGrantBetween(cs, channel, i, j)
    ensures channel in LastTick(cs[..j]) && LastTick(cs[..j])[channel] == cs[i].now
  {
    assert cs[..j][..j - 1] == cs[..j - 1];
    if i < j - 1 {
      EntryStays(cs, channel, i, j - 1);
      assert !GrantTo(cs, channel, j - 1);
    }
  }

  /**
   A channel checked at least every `d` never waits: two consecutive grants are less than I + d
   apart, and a check that is not granted reads less than I past the last grant.
   */
  lemma GrantsKeepComing(cs: seq<Check>, channel: string, interval: nat, d: nat, i: nat, j: nat)
    requires i < j < |cs| && cs[j].channel == channel
    requires GrantTo(cs, channel, i) && NoGrantBetween(cs, channel, i, j)
    requires forall k :: 0 <= k < |cs| && cs[k].channel == channel ==> cs[k].interval <= interval
    requires interval > 0 && CheckedEvery(cs, channel, d)
    ensures Granted(cs, j) ==> cs[j].now - cs[i].now < interval + d
    ensures !Granted(cs, j) ==> cs[j].now - cs[i].now < interval
  {
    EntryStays(cs, channel, i, j);
    PreviousCheckIsLast(cs, channel, i, j);
    var p := PreviousCheck(cs, channel, j).value;
    if p > i {
      assert !GrantTo(cs, channel, p);
      EntryStays(cs, channel, i, p);
    }
  }

  /** Checks of other channels change nothing for this one: it is as if they had not happened. */
  function Only(cs: seq<Check>, channel: string): seq<Check> {
    if cs == [] then []
    else
      var init, c := cs[..|cs| - 1], cs[|cs| - 1];
      Only(init, channel) + if c.channel == channel then [c] else []
  }

  lemma {:induction false} ChannelsAreIndependent(cs: seq<Check>, channel: string, lo: Time, hi: Time)
    ensures LastTick(Only(cs, channel)).Keys == LastTick(cs).Keys * {channel}
    ensures channel in LastTick(cs) ==> LastTick(Only(cs, channel))[channel] == LastTick(cs)[channel]
    ensures GrantsWithin(Only(cs, channel), channel, lo, hi) == GrantsWithin(cs, channel, lo, hi)
  {
    if cs != [] {
      var init, c := cs[..|cs| - 1], cs[|cs| - 1];
      ChannelsAreIndependent(init, channel, lo, hi);
      if c.channel == channel {
        assert (Only(init, channel) + [c])[..|Only(init, channel)|] == Only(init, channel);
      } else {
        assert Only(cs, channel) == Only(init, channel);
      }
    }
  }

  // One supervisor tick.

  datatype Channel = Channel(id: string, enabled: bool, pollSecs: Option<nat>)

  /** One channel record in a tick: the clock at its check, and whether polling it would fail. */
  datatype Visit = Visit(record: Channel, now: Time, fails: bool)

  predicate Polls(r: Channel) {
    r.enabled && r.pollSecs.Some? && r.pollSecs.value > 0
  }

  function CheckOf(v: Visit): Check
    requires Polls(v.record)
  {
    Check(v.record.id, v.now, v.record.pollSecs.value * NANOS_PER_SECOND)
  }

  /** The checks the first `n` visits make. */
  function Asked(vs: seq<Visit>, n: nat): seq<Check>
    requires n <= |vs|
  {
    if n == 0 then []
    else Asked(vs, n - 1) + if Polls(vs[n - 1].record) then [CheckOf(vs[n - 1])] else []
  }

  /**
   Ticks keep the hypothesis of the limit: while every polled record of the channel asks for at least
   `secs` seconds, so does every check in the history.
   */
  lemma {:induction false} TicksKeepTheInterval(history: seq<Check>, vs: seq<Visit>, n: nat, channel: string, secs: nat)
    requires n <= |vs| && AtLeast(history, channel, secs * NANOS_PER_SECOND)
    requires forall k :: 0 <= k < n && vs[k].record.id == channel && Polls(vs[k].record) ==>
               vs[k].record.pollSecs.value >= secs
    ensures AtLeast(history + Asked(vs, n), channel, secs * NANOS_PER_SECOND)
  {
    if n == 0 {
      assert history + Asked(vs, n) == history;
    } else {
      TicksKeepTheInterval(history, vs, n - 1, channel, secs);
      var before := history + Asked(vs, n - 1);
      if Polls(vs[n - 1].record) {
        assert history + Asked(vs, n) == before + [CheckOf(vs[n - 1])];
      } else {
        assert history + Asked(vs, n) == before;
      }
    }
  }

  /** Whether visit `k` is granted when the visits follow a history. */
  predicate DueAt(history: seq<Check>, vs: seq<Visit>, k: nat)
    requires k < |vs|
  {
    Polls(vs[k].record) && IsDue(LastTick(history + Asked(vs, k)), CheckOf(vs[k]))
  }

  function PolledIn(history: seq<Check>, vs: seq<Visit>, n: nat): seq<string>
    requires n <= |vs|
  {
    if n == 0 then []
    else PolledIn(history, vs, n - 1) + if DueAt(history, vs, n - 1) then [vs[n - 1].record.id] else []
  }

  /** No poll among the first `n` visits is made and fails. */
  predicate NoFailure(history: seq<Check>, vs: seq<Visit>, n: nat)
    requires n <= |vs|
  {
    n == 0 || (NoFailure(history, vs, n - 1) && !(vs[n - 1].fails && DueAt(history, vs, n - 1)))
  }

  lemma {:induction false} NoFailureIff(history: seq<Check>, vs: seq<Visit>, n: nat)
    requires n <= |vs|
    ensures NoFailure(history, vs, n) <==> forall k :: 0 <= k < n && vs[k].fails ==> !DueAt(history, vs, k)
  {
    if n > 0 {
      NoFailureIff(history, vs, n - 1);
    }
  }

  /** The checks a tick makes are those of its enabled records with a positive interval, which is in seconds. */
  lemma {:induction false} AskedIff(vs: seq<Visit>, n: nat, c: Check)
    requires n <= |vs|
    ensures c in Asked(vs, n) <==>
            exists k :: 0 <= k < n && vs[k].record.enabled && vs[k].record.pollSecs.Some? && vs[k].record.pollSecs.value > 0
                        && c == Check(vs[k].record.id, vs[k].now, vs[k].record.pollSecs.value * 1_000_000_000)
  {
    if n > 0 {
      AskedIff(vs, n - 1, c);
    }
  }

  /** A record is polled in a tick exactly when it is enabled with a positive interval and its check is granted. */
  lemma DueIff(history: seq<Check>, vs: seq<Visit>, k: nat)
    requires k < |vs|
    ensures DueAt(history, vs, k) <==>
            && vs[k].record.enabled && vs[k].record.pollSecs.Some? && vs[k].record.pollSecs.value > 0
            && var c := Check(vs[k].record.id, vs[k].now, vs[k].record.pollSecs.value * 1_000_000_000);
               Granted(history + Asked(vs, k) + [c], |history + Asked(vs, k)|)
  {
    if Polls(vs[k].record) {
      OneVisit(history, vs, k, history + Asked(vs, k));
    }
  }

  /** The visit is due and of this record. */
  predicate DueFor(history: seq<Check>, vs: seq<Visit>, k: int, id: string) {
    0 <= k < |vs| && DueAt(history, vs, k) && vs[k].record.id == id
  }

  ghost predicate DueBefore(history: seq<Check>, vs: seq<Visit>, n: nat, id: string) {
    exists k :: k < n && DueFor(history, vs, k, id)
  }

  lemma DueNext(history: seq<Check>, vs: seq<Visit>, n: nat, id: string)
    ensures DueBefore(history, vs, n + 1, id) <==> DueBefore(history, vs, n, id) || DueFor(history, vs, n, id)
  {
    if k :| k < n + 1 && DueFor(history, vs, k, id) {
      assert k == n || DueBefore(history, vs, n, id);
    }
  }

  /** The polls a tick makes are those of its due visits. */
  lemma {:induction false} PolledIff(history: seq<Check>, vs: seq<Visit>, n: nat, id: string)
    requires n <= |vs|
    ensures id in PolledIn(history, vs, n) <==> DueBefore(history, vs, n, id)
  {
    if n > 0 {
      PolledIff(history, vs, n - 1, id);
      DueNext(history, vs, n - 1, id);
    }
  }

  /** And they come in the order of the records. */
  lemma {:induction false} PolledInOrder(history: seq<Check>, vs: seq<Visit>, k: nat, n: nat)
    requires k < n <= |vs| && DueAt(history, vs, k)
    ensures PolledIn(history, vs, k) + [vs[k].record.id] <= PolledIn(history, vs, n)
  {
    if k < n - 1 {
      PolledInOrder(history, vs, k, n - 1);
    }
  }

  lemma OneVisit(history: seq<Check>, vs: seq<Visit>, i: nat, before: seq<Check>)
    requires i < |vs| && before == history + Asked(vs, i)
    ensures !Polls(vs[i].record) ==> history + Asked(vs, i + 1) == before
    ensures Polls(vs[i].record) ==>
              && history + Asked(vs, i + 1) == before + [CheckOf(vs[i])]
              && Granted(before + [CheckOf(vs[i])], |before|) == DueAt(history, vs, i)
  {
    if Polls(vs[i].record) {
      assert (before + [CheckOf(vs[i])])[..|before|] == before;
    }
  }

  /** The guards of a tick's loop body: whether the record is to be polled now. */
  method CheckRecord(state: PollState, v: Visit) returns (due: bool)
    requires state.Valid()
    modifies state
    ensures state.Valid()
    ensures !Polls(v.record) ==> !due && state.history == old(state.history)
    ensures Polls(v.record) ==>
              state.history == old(state.history) + [CheckOf(v)] && due == Granted(state.history, |old(state.history)|)
  {
    if !v.record.enabled || v.record.pollSecs.None? || v.record.pollSecs.value == 0 {
      return false;
    }
    due := state.Due(v.record.id, v.record.pollSecs.value * NANOS_PER_SECOND, v.now);
  }

  /** The loop of a tick, up to and including the first record that is due and fails to poll. */
  method VisitRecords(state: PollState, vs: seq<Visit>) returns (polled: seq<string>, ok: bool, ghost reached: nat)
    requires state.Valid()
    modifies state
    ensures state.Valid() && reached <= |vs|
    ensures state.history == old(state.history) + Asked(vs, reached)
    ensures polled == PolledIn(old(state.history), vs, reached)
    ensures ok ==> reached == |vs| && NoFailure(old(state.history), vs, |vs|)
    ensures !ok ==> reached > 0 && vs[reached - 1].fails && DueAt(old(state.history), vs, reached - 1)
                    && NoFailure(old(state.history), vs, reached - 1)
  {
    ghost var history := state.history;
    polled, reached := [], 0;
    var i := 0;
    while i < |vs|
      invariant 0 <= i <= |vs| && reached == i && state.Valid()
      invariant state.history == history + Asked(vs, i)
      invariant polled == PolledIn(history, vs, i)
      invariant NoFailure(history, vs, i)
    {
      var v := vs[i];
      OneVisit(history, vs, i, state.history);
      i := i + 1;
      reached := reached + 1;
      var due := CheckRecord(state, v);
      if !due {
        continue;
      }
      polled := polled + [v.record.id];
      if v.fails {
        return polled, false, reached;
      }
    }
    ok := true;
  }

  /**
   A tick checks exactly those records that are enabled with a positive interval, in order up to and
   including the first one that is due and fails to poll, and polls those granted. The failing
   channel's check stays in the history: a failed poll uses up its interval. Without a platform the
   tick ends at once.
   */
  method SupervisorTick(state: PollState, platform: bool, vs: seq<Visit>)
    returns (polled: seq<string>, ok: bool, ghost reached: nat)
    requires state.Valid()
    modifies state
    ensures state.Valid() && reached <= |vs| && (!platform ==> reached == 0) && (ok ==> reached == |vs|)
    ensures state.history == old(state.history) + Asked(vs, reached)
    ensures polled == PolledIn(old(state.history), vs, reached)
    ensures ok <==> platform && forall k :: 0 <= k < |vs| && vs[k].fails ==> !DueAt(old(state.history), vs, k)
    ensures platform && !ok ==>
              && reached > 0 && vs[reached - 1].fails && DueAt(old(state.history), vs, reached - 1)
              && forall k :: 0 <= k < reached - 1 && vs[k].fails ==> !DueAt(old(state.history), vs, k)
  {
    if !platform {
      return [], false, 0;
    }
    ghost var history := state.history;
    polled, ok, reached := VisitRecords(state, vs);
    NoFailureIff(history, vs, if ok then |vs| else reached - 1);
  }
}
