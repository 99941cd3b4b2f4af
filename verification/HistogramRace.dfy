/**
 `observe` and `prometheus_lines` from any number of threads, one atomic access at a time, in some
 sequentially consistent order. An observer adds to the total before it adds to its bucket; a
 renderer loads the buckets from left to right before it loads the total.
 */
module HistogramRace {
  import opened Wrappers
  import opened Histogram

  type ThreadId = nat

  /**
   A rendering under way: the lines written so far, and the total once read. The other fields are
   history: `exact` are the lines without wrap-around, `base` the observations completed when the
   rendering began, `begun` the number started by then; `end` and `ended` are the same at the time
   the total was read.
   */
  datatype Render = Render(
    lines: seq<U64>, total: Option<U64>,
    exact: seq<nat>, base: seq<F64>, begun: nat, end: seq<F64>, ended: nat)

  /**
   The atomic cells, the observers between their two additions, and the renderers. `done` lists the
   observations counted in a bucket and `started` counts those counted in the total (history).
   */
  datatype State = State(
    bounds: seq<F64>,
    counts: seq<U64>,
    total: U64,
    observing: map<ThreadId, F64>,
    renders: map<ThreadId, Render>,
    done: seq<F64>,
    started: nat)

  datatype Step =
    | AddTotal(t: ThreadId, v: F64)
    | AddBucket(t: ThreadId)
    | BeginRender(t: ThreadId)
    | LoadBucket(t: ThreadId)
    | LoadTotal(t: ThreadId)

  predicate Enabled(s: State, step: Step) {
    match step
    case AddTotal(t, _) => t !in s.observing
    case AddBucket(t) => t in s.observing && |s.counts| == |s.bounds| + 1
    case BeginRender(t) => true
    case LoadBucket(t) => t in s.renders && |s.renders[t].lines| < |s.counts|
    case LoadTotal(t) => t in s.renders && |s.renders[t].lines| == |s.counts| && s.renders[t].total.None?
  }

  function Last(ns: seq<nat>): nat {
    if ns == [] then 0 else ns[|ns| - 1]
  }

  /** One more line: the running sum plus the next bucket. */
  function NextRender(s: State, r: Render): Render
    requires |r.lines| < |s.counts|
  {
    var i := |r.lines|;
    var running := if i == 0 then 0 else r.lines[i - 1];
    var exact := Last(r.exact) + InBucket(s.done, s.bounds, i);
    r.(lines := r.lines + [Add(running, s.counts[i])], exact := r.exact + [exact])
  }

  function Apply(s: State, step: Step): State
    requires Enabled(s, step)
  {
    match step
    case AddTotal(t, v) =>
      s.(total := Add(s.total, 1), observing := s.observing[t := v], started := s.started + 1)
    case AddBucket(t) =>
      var v := s.observing[t];
      var i := Bucket(s.bounds, v);
      s.(counts := s.counts[i := Add(s.counts[i], 1)], observing := s.observing - {t}, done := s.done + [v])
    case BeginRender(t) =>
      s.(renders := s.renders[t := Render([], None, [], s.done, s.started, [], 0)])
    case LoadBucket(t) =>
      s.(renders := s.renders[t := NextRender(s, s.renders[t])])
    case LoadTotal(t) =>
      s.(renders := s.renders[t := s.renders[t].(total := Some(s.total), end := s.done, ended := s.started)])
  }

  predicate Init(s: State) {
    && s.counts == seq(|s.bounds| + 1, _ => 0) && s.total == 0
    && s.observing == map[] && s.renders == map[] && s.done == [] && s.started == 0
  }

  /** A run: an initial state, then one enabled step at a time. */
  ghost predicate IsRun(states: seq<State>, steps: seq<Step>) {
    && |states| == |steps| + 1
    && Init(states[0])
    && forall i :: 0 <= i < |steps| ==> Follows(states, steps, i)
  }

  ghost predicate Follows(states: seq<State>, steps: seq<Step>, i: nat)
    requires i < |steps| && i + 1 < |states|
  {
    Enabled(states[i], steps[i]) && states[i + 1] == Apply(states[i], steps[i])
  }

  /** The observations a rendering may have seen: all so far, or all until it read the total. */
  function Visible(s: State, r: Render): seq<F64> {
    if r.total.Some? then r.end else s.done
  }

  ghost predicate Rising(exact: seq<nat>) {
    forall i, j :: 0 <= i < j < |exact| ==> exact[i] <= exact[j]
  }

  /** The lines show the exact sums in 64 bits. */
  ghost predicate Shown(lines: seq<U64>, exact: seq<nat>) {
    |lines| == |exact| && forall i :: 0 <= i < |lines| ==> lines[i] == Wrap(exact[i])
  }

  /** Sum i counts at least the observations of `low` and at most those of `high` in buckets 0 .. i. */
  ghost predicate Between(exact: seq<nat>, bounds: seq<F64>, low: seq<F64>, high: seq<F64>) {
    forall i :: 0 <= i < |exact| ==> BelowBucket(low, bounds, i + 1) <= exact[i] <= BelowBucket(high, bounds, i + 1)
  }

  /** What a rendering has written, against the observations at its start and at its end or now. */
  ghost predicate RenderOk(s: State, r: Render) {
    && |r.lines| <= |s.counts|
    && r.base <= Visible(s, r) <= s.done && |r.base| <= r.begun <= s.started
    && Shown(r.lines, r.exact) && Rising(r.exact)
    && Between(r.exact, s.bounds, r.base, Visible(s, r))
    && (r.total.Some? ==>
          |r.lines| == |s.counts| && r.total.value == Wrap(r.ended) && |r.end| <= r.ended <= s.started && r.begun <= r.ended)
  }

  ghost predicate CellsOk(s: State) {
    && |s.counts| == |s.bounds| + 1
    && s.total == Wrap(s.started)
    && s.started == |s.done| + |s.observing|
    && forall i :: 0 <= i < |s.counts| ==> s.counts[i] == Wrap(InBucket(s.done, s.bounds, i))
  }

  ghost predicate RendersOk(s: State) {
    forall t :: t in s.renders ==> RenderOk(s, s.renders[t])
  }

  ghost predicate Inv(s: State) {
    CellsOk(s) && RendersOk(s)
  }

  /** A longer list of observations has no smaller counts. */
  lemma BelowGrows(seen: seq<F64>, v: F64, bounds: seq<F64>, i: nat)
    ensures BelowBucket(seen, bounds, i) <= BelowBucket(seen + [v], bounds, i)
  {
    InBucketOfAppend(seen, v, bounds, i);
  }

  lemma {:induction false} BelowMonotone(a: seq<F64>, b: seq<F64>, bounds: seq<F64>, i: nat)
    requires a <= b
    ensures BelowBucket(a, bounds, i) <= BelowBucket(b, bounds, i)
    ensures InBucket(a, bounds, i) <= InBucket(b, bounds, i)
    decreases |b|
  {
    if |a| < |b| {
      BelowMonotone(a, b[..|b| - 1], bounds, i);
    } else {
      assert a == b;
    }
  }

  lemma AddBucketCells(s: State, t: ThreadId)
    requires CellsOk(s) && Enabled(s, AddBucket(t))
    ensures CellsOk(Apply(s, AddBucket(t)))
  {
    var s' := Apply(s, AddBucket(t));
    forall i | 0 <= i < |s'.counts|
      ensures s'.counts[i] == Wrap(InBucket(s'.done, s'.bounds, i))
    {
      InBucketOfAppend(s.done, s.observing[t], s.bounds, i);
    }
    assert s.observing.Keys == s'.observing.Keys + {t};
    assert |s'.observing.Keys| == |s.observing.Keys| - 1;
  }

  /** A completed observation raises the upper ends only. */
  lemma RenderOkLater(s: State, s': State, v: F64, r: Render)
    requires RenderOk(s, r) && s'.done == s.done + [v]
    requires s'.bounds == s.bounds && |s'.counts| == |s.counts| && s'.started == s.started
    ensures RenderOk(s', r)
  {
    forall i | 0 <= i < |r.exact|
      ensures BelowBucket(r.base, s.bounds, i + 1) <= r.exact[i] <= BelowBucket(Visible(s', r), s.bounds, i + 1)
    {
      assert Between(r.exact, s.bounds, r.base, Visible(s, r));
      BelowGrows(s.done, v, s.bounds, i + 1);
    }
  }

  lemma AddBucketRenders(s: State, t: ThreadId)
    requires RendersOk(s) && Enabled(s, AddBucket(t))
    ensures RendersOk(Apply(s, AddBucket(t)))
  {
    var s' := Apply(s, AddBucket(t));
    forall u | u in s'.renders
      ensures RenderOk(s', s'.renders[u])
    {
      RenderOkLater(s, s', s.observing[t], s.renders[u]);
    }
  }

  lemma AddTotalCells(s: State, t: ThreadId, v: F64)
    requires CellsOk(s) && Enabled(s, AddTotal(t, v))
    ensures CellsOk(Apply(s, AddTotal(t, v)))
  {
    MoreObserving(s.observing, t, v);
  }

  lemma MoreObserving(m: map<ThreadId, F64>, t: ThreadId, v: F64)
    requires t !in m
    ensures |m[t := v]| == |m| + 1
  {
    assert m[t := v].Keys == m.Keys + {t};
    assert |m[t := v].Keys| == |m.Keys| + 1;
  }

  /** Starting an observation changes nothing a rendering has seen. */
  lemma StillOk(s: State, s': State, r: Render)
    requires RenderOk(s, r) && s'.done == s.done && s'.bounds == s.bounds
    requires |s'.counts| == |s.counts| && s.started <= s'.started
    ensures RenderOk(s', r)
  {
  }

  /** A step that changes at most one rendering and counts nothing in a bucket keeps the others in order. */
  lemma OneRenderMoves(s: State, s': State, t: ThreadId)
    requires RendersOk(s) && s'.renders.Keys <= s.renders.Keys + {t}
    requires s'.done == s.done && s'.counts == s.counts && s'.bounds == s.bounds && s.started <= s'.started
    requires forall u :: u in s'.renders && u != t ==> s'.renders[u] == s.renders[u]
    requires t in s'.renders ==> RenderOk(s', s'.renders[t])
    ensures RendersOk(s')
  {
    forall u | u in s'.renders && u != t
      ensures RenderOk(s', s'.renders[u])
    {
      StillOk(s, s', s.renders[u]);
    }
  }

  /** The next line adds one bucket to the line before it. */
  lemma NextLine(s: State, r: Render)
    requires |s.counts| == |s.bounds| + 1 && RenderOk(s, r) && r.total.None? && |r.lines| < |s.counts|
    ensures var i := |r.lines|;
            var exact := Last(r.exact) + InBucket(s.done, s.bounds, i);
            && Wrap(exact) == Add(if i == 0 then 0 else r.lines[i - 1], Wrap(InBucket(s.done, s.bounds, i)))
            && Last(r.exact) <= exact
            && BelowBucket(r.base, s.bounds, i + 1) <= exact <= BelowBucket(s.done, s.bounds, i + 1)
  {
    var i := |r.lines|;
    WrapAdd(Last(r.exact), InBucket(s.done, s.bounds, i));
    BelowNext(r.base, s.bounds, i);
    BelowNext(s.done, s.bounds, i);
    BelowMonotone(r.base, s.done, s.bounds, i);
  }

  lemma ShownAppend(lines: seq<U64>, exact: seq<nat>, line: U64, sum: nat)
    requires Shown(lines, exact) && line == Wrap(sum)
    ensures Shown(lines + [line], exact + [sum])
  {
  }

  lemma RisingAppend(exact: seq<nat>, sum: nat)
    requires Rising(exact) && Last(exact) <= sum
    ensures Rising(exact + [sum])
  {
  }

  lemma BetweenAppend(exact: seq<nat>, bounds: seq<F64>, low: seq<F64>, high: seq<F64>, sum: nat)
    requires Between(exact, bounds, low, high)
    requires BelowBucket(low, bounds, |exact| + 1) <= sum <= BelowBucket(high, bounds, |exact| + 1)
    ensures Between(exact + [sum], bounds, low, high)
  {
  }

  /** A rendering stays in order when its next line is. */
  lemma LongerRender(s: State, r: Render, line: U64, exact: nat)
    requires RenderOk(s, r) && r.total.None? && |r.lines| < |s.counts|
    requires line == Wrap(exact) && Last(r.exact) <= exact
    requires BelowBucket(r.base, s.bounds, |r.lines| + 1) <= exact <= BelowBucket(s.done, s.bounds, |r.lines| + 1)
    ensures RenderOk(s, r.(lines := r.lines + [line], exact := r.exact + [exact]))
  {
    ShownAppend(r.lines, r.exact, line, exact);
    RisingAppend(r.exact, exact);
    BetweenAppend(r.exact, s.bounds, r.base, s.done, exact);
  }

  lemma NextRenderOk(s: State, r: Render)
    requires CellsOk(s) && RenderOk(s, r) && r.total.None? && |r.lines| < |s.counts|
    ensures RenderOk(s, NextRender(s, r))
  {
    var line, exact := NextLineOf(s, r);
    LongerRender(s, r, line, exact);
  }

  /** What the next line shows. */
  lemma NextLineOf(s: State, r: Render) returns (line: U64, exact: nat)
    requires CellsOk(s) && RenderOk(s, r) && r.total.None? && |r.lines| < |s.counts|
    ensures NextRender(s, r) == r.(lines := r.lines + [line], exact := r.exact + [exact])
    ensures line == Wrap(exact) && Last(r.exact) <= exact
    ensures BelowBucket(r.base, s.bounds, |r.lines| + 1) <= exact <= BelowBucket(s.done, s.bounds, |r.lines| + 1)
  {
    var i := |r.lines|;
    exact := Last(r.exact) + InBucket(s.done, s.bounds, i);
    line := Add(if i == 0 then 0 else r.lines[i - 1], s.counts[i]);
    NextLine(s, r);
  }

  lemma LoadBucketRenders(s: State, t: ThreadId)
    requires Inv(s) && Enabled(s, LoadBucket(t))
    ensures RendersOk(Apply(s, LoadBucket(t)))
  {
    var s' := Apply(s, LoadBucket(t));
    assert RenderOk(s, s.renders[t]);
    NextRenderOk(s, s.renders[t]);
    StillOk(s, s', s'.renders[t]);
    OneRenderMoves(s, s', t);
  }

  lemma LoadTotalRenders(s: State, t: ThreadId)
    requires Inv(s) && Enabled(s, LoadTotal(t))
    ensures RendersOk(Apply(s, LoadTotal(t)))
  {
    var s' := Apply(s, LoadTotal(t));
    assert RenderOk(s, s.renders[t]);
    assert RenderOk(s', s'.renders[t]);
    OneRenderMoves(s, s', t);
  }

  lemma AddTotalRenders(s: State, t: ThreadId, v: F64)
    requires RendersOk(s) && Enabled(s, AddTotal(t, v))
    ensures RendersOk(Apply(s, AddTotal(t, v)))
  {
    var s' := Apply(s, AddTotal(t, v));
    forall u | u in s'.renders
      ensures RenderOk(s', s'.renders[u])
    {
      StillOk(s, s', s.renders[u]);
    }
  }

  lemma BeginRenderRenders(s: State, t: ThreadId)
    requires Inv(s)
    ensures RendersOk(Apply(s, BeginRender(t)))
  {
    var s' := Apply(s, BeginRender(t));
    assert RenderOk(s', s'.renders[t]);
    OneRenderMoves(s, s', t);
  }

  lemma StepKeepsInv(s: State, step: Step)
    requires Inv(s) && Enabled(s, step)
    ensures Inv(Apply(s, step))
  {
    match step
    case AddTotal(t, v) =>
      AddTotalCells(s, t, v);
      AddTotalRenders(s, t, v);
    case AddBucket(t) =>
      AddBucketCells(s, t);
      AddBucketRenders(s, t);
    case BeginRender(t) =>
      BeginRenderRenders(s, t);
      assert CellsOk(Apply(s, step));
    case LoadBucket(t) =>
      LoadBucketRenders(s, t);
      assert CellsOk(Apply(s, step));
    case LoadTotal(t) =>
      LoadTotalRenders(s, t);
      assert CellsOk(Apply(s, step));
  }

  lemma {:induction false} RunKeepsInv(states: seq<State>, steps: seq<Step>, n: nat)
    requires IsRun(states, steps) && n < |states|
    ensures Inv(states[n])
  {
    if n > 0 {
      RunKeepsInv(states, steps, n - 1);
      assert Follows(states, steps, n - 1);
      StepKeepsInv(states[n - 1], steps[n - 1]);
    }
  }

  // What every run guarantees, as long as no more than 2^64 - 1 observations were started.

  function Sum(ns: seq<U64>): nat {
    if ns == [] then 0 else Sum(ns[..|ns| - 1]) + ns[|ns| - 1]
  }

  lemma {:induction false} AtMostAll(seen: seq<F64>, bounds: seq<F64>, i: nat)
    ensures InBucket(seen, bounds, i) <= |seen| && BelowBucket(seen, bounds, i) <= |seen|
  {
    if seen != [] {
      AtMostAll(seen[..|seen| - 1], bounds, i);
    }
  }

  lemma {:induction false} SumIsBelow(s: State, i: nat)
    requires Inv(s) && s.started < W && i <= |s.counts|
    ensures Sum(s.counts[..i]) == BelowBucket(s.done, s.bounds, i)
  {
    BelowNext(s.done, s.bounds, 0);
    if i > 0 {
      SumIsBelow(s, i - 1);
      assert s.counts[..i][..i - 1] == s.counts[..i - 1];
      BelowNext(s.done, s.bounds, i - 1);
      AtMostAll(s.done, s.bounds, i - 1);
      WrapSmall(InBucket(s.done, s.bounds, i - 1));
    }
  }

  /** The bucket cells plus the observers between their two additions add up to the total cell. */
  lemma TotalIsConserved(states: seq<State>, steps: seq<Step>, n: nat)
    requires IsRun(states, steps) && n < |states| && states[n].started < W
    ensures Sum(states[n].counts) + |states[n].observing| == states[n].total
  {
    var s := states[n];
    RunKeepsInv(states, steps, n);
    SumIsBelow(s, |s.counts|);
    BelowAll(s.done, s.bounds);
    WrapSmall(s.started);
    assert s.counts[..|s.counts|] == s.counts;
  }

  /** The rendering has written all its lines and the count. */
  ghost predicate Finished(s: State, t: ThreadId) {
    t in s.renders && s.renders[t].total.Some?
  }

  /** Without overflow the lines of a finished rendering are the exact ones. */
  lemma LinesAreExact(s: State, r: Render)
    requires RenderOk(s, r) && r.total.Some? && s.started < W
    ensures r.total.value == r.ended && r.lines == r.exact
  {
    WrapSmall(r.ended);
    forall i | 0 <= i < |r.lines|
      ensures r.lines[i] == r.exact[i]
    {
      assert Between(r.exact, s.bounds, r.base, r.end);
      AtMostAll(r.end, s.bounds, i + 1);
      WrapSmall(r.exact[i]);
    }
  }

  /**
   A finished rendering: lines never decrease, the `+Inf` line never exceeds the count, and line i
   lies between the observations completed in buckets 0 .. i when it began and when it ended.
   */
  lemma RenderIsConsistent(states: seq<State>, steps: seq<Step>, n: nat, t: ThreadId)
    requires IsRun(states, steps) && n < |states| && states[n].started < W && Finished(states[n], t)
    ensures var s, r := states[n], states[n].renders[t];
            && |r.lines| == |s.bounds| + 1 && r.base <= r.end <= s.done
            && (forall i, j :: 0 <= i < j < |r.lines| ==> r.lines[i] <= r.lines[j])
            && r.lines[|s.bounds|] <= r.total.value
            && (forall i :: 0 <= i < |r.lines| ==>
                  BelowBucket(r.base, s.bounds, i + 1) <= r.lines[i] <= BelowBucket(r.end, s.bounds, i + 1))
  {
    var s, r := states[n], states[n].renders[t];
    RunKeepsInv(states, steps, n);
    assert RenderOk(s, r);
    LinesAreExact(s, r);
    BelowAll(r.end, s.bounds);
  }

  /** With the same observations at its start and at its end a rendering's lines are the counts between. */
  lemma QuietLines(s: State, r: Render)
    requires RenderOk(s, r) && r.total.Some? && r.lines == r.exact && |r.base| == |r.end|
    ensures r.base == r.end
    ensures forall i :: 0 <= i < |r.lines| ==> r.lines[i] == BelowBucket(r.base, s.bounds, i + 1)
  {
    assert r.base == r.end;
    assert Between(r.exact, s.bounds, r.base, r.end);
  }

  /**
   If no observation was under way when a rendering began and none started before it read the
   total, its lines are exact: `+Inf` equals the count, and with ascending bounds line i is the
   number of observations at most bound i.
   */
  lemma QuietRenderIsExact(states: seq<State>, steps: seq<Step>, n: nat, t: ThreadId)
    requires IsRun(states, steps) && n < |states| && states[n].started < W && Finished(states[n], t)
    requires var r := states[n].renders[t]; |r.base| == r.begun == r.ended
    ensures var s, r := states[n], states[n].renders[t];
            && |r.lines| == |s.bounds| + 1
            && r.lines[|s.bounds|] == r.total.value == |r.base|
            && (Ascending(s.bounds) ==> forall i :: 0 <= i < |s.bounds| ==> r.lines[i] == AtMost(r.base, s.bounds[i]))
  {
    var s, r := states[n], states[n].renders[t];
    RunKeepsInv(states, steps, n);
    assert RenderOk(s, r);
    LinesAreExact(s, r);
    QuietLines(s, r);
    BelowAll(r.base, s.bounds);
    if Ascending(s.bounds) {
      RunningIsAtMost(r.base, s.bounds);
    }
  }

  // Observations and renderings run to their end.

  lemma Continue(states: seq<State>, steps: seq<Step>, step: Step) returns (states': seq<State>, steps': seq<Step>)
    requires IsRun(states, steps) && Enabled(states[|steps|], step)
    ensures steps' == steps + [step] && states' == states + [Apply(states[|steps|], step)]
    ensures IsRun(states', steps')
  {
    states', steps' := states + [Apply(states[|steps|], step)], steps + [step];
    forall i | 0 <= i < |steps'|
      ensures Follows(states', steps', i)
    {
      if i < |steps| {
        assert Follows(states, steps, i);
      }
    }
  }

  /** From every reachable state a free thread can complete an observation. */
  lemma ObservationCompletes(states: seq<State>, steps: seq<Step>, t: ThreadId, v: F64)
    returns (states': seq<State>, steps': seq<Step>)
    requires IsRun(states, steps) && t !in states[|steps|].observing
    ensures IsRun(states', steps') && states <= states' && steps' == steps + [AddTotal(t, v), AddBucket(t)]
    ensures var s, s' := states[|steps|], states'[|steps'|];
            s'.done == s.done + [v] && s'.started == s.started + 1 && s'.observing == s.observing && s'.renders == s.renders
  {
    RunKeepsInv(states, steps, |steps|);
    states', steps' := Continue(states, steps, AddTotal(t, v));
    states', steps' := Continue(states', steps', AddBucket(t));
    assert states[|steps|].observing[t := v] - {t} == states[|steps|].observing;
  }

  /** The state is this one but for the rendering of thread t. */
  ghost predicate ButForRender(s: State, s': State, t: ThreadId) {
    && s' == s.(renders := s'.renders) && t in s'.renders
    && s'.renders[t].base == s.done && s'.renders[t].begun == s.started
  }

  /** A rendering that begins now and has written k lines. */
  lemma {:induction false} WriteLines(states: seq<State>, steps: seq<Step>, t: ThreadId, k: nat)
    returns (states': seq<State>, steps': seq<Step>)
    requires IsRun(states, steps) && k <= |states[|steps|].counts|
    ensures IsRun(states', steps') && states <= states' && steps <= steps'
    ensures ButForRender(states[|steps|], states'[|steps'|], t)
    ensures var r := states'[|steps'|].renders[t]; |r.lines| == k && r.total.None?
  {
    if k == 0 {
      states', steps' := Continue(states, steps, BeginRender(t));
    } else {
      states', steps' := WriteLines(states, steps, t, k - 1);
      states', steps' := Continue(states', steps', LoadBucket(t));
    }
  }

  /** From every reachable state a rendering can run to its end, with nothing in between. */
  lemma RenderingCompletes(states: seq<State>, steps: seq<Step>, t: ThreadId)
    returns (states': seq<State>, steps': seq<Step>)
    requires IsRun(states, steps)
    ensures IsRun(states', steps') && states <= states' && steps <= steps'
    ensures ButForRender(states[|steps|], states'[|steps'|], t) && Finished(states'[|steps'|], t)
    ensures var s, r := states[|steps|], states'[|steps'|].renders[t];
            r.total == Some(s.total) && r.end == s.done && r.ended == s.started
  {
    states', steps' := WriteLines(states, steps, t, |states[|steps|].counts|);
    states', steps' := Continue(states', steps', LoadTotal(t));
  }
}
