/**
 Why the order of the accesses matters: observers and renderers that may take their accesses in
 either order, over any list of bounds. Nothing in the source but the program order of its relaxed
 accesses keeps that order. Cells do not overflow here.
 */
module HistogramOrder {
  import opened Wrappers
  import opened Histogram

  type ThreadId = nat

  /** Whether observers add to the total before their bucket, and renderers load the buckets before the total. */
  datatype Order = Order(totalFirst: bool, bucketsFirst: bool)

  /** How many buckets a renderer has loaded from the left, their sum, which becomes `+Inf`, and the count. */
  datatype Render = Render(loaded: nat, sum: nat, count: Option<nat>)

  /** The bucket cells and the total, the observers between their two additions, and the renderers. */
  datatype State = State(
    bounds: seq<F64>,
    cells: seq<nat>,
    total: nat,
    observing: map<ThreadId, F64>,
    renders: map<ThreadId, Render>)

  datatype Step =
    | AddFirst(t: ThreadId, v: F64)
    | AddSecond(t: ThreadId)
    | Begin(t: ThreadId)
    | LoadBucket(t: ThreadId)
    | LoadTotal(t: ThreadId)

  predicate Enabled(order: Order, s: State, step: Step) {
    match step
    case AddFirst(t, v) => t !in s.observing && |s.cells| == |s.bounds| + 1
    case AddSecond(t) => t in s.observing && |s.cells| == |s.bounds| + 1
    case Begin(t) => t !in s.renders
    case LoadBucket(t) =>
      t in s.renders && s.renders[t].loaded < |s.cells| && (!order.bucketsFirst ==> s.renders[t].count.Some?)
    case LoadTotal(t) =>
      t in s.renders && s.renders[t].count.None? && (order.bucketsFirst ==> s.renders[t].loaded == |s.cells|)
  }

  function AddToBucket(s: State, v: F64): State
    requires |s.cells| == |s.bounds| + 1
  {
    var i := Bucket(s.bounds, v);
    s.(cells := s.cells[i := s.cells[i] + 1])
  }

  function AddToTotal(s: State): State {
    s.(total := s.total + 1)
  }

  function Apply(order: Order, s: State, step: Step): State
    requires Enabled(order, s, step)
  {
    match step
    case AddFirst(t, v) =>
      (if order.totalFirst then AddToTotal(s) else AddToBucket(s, v)).(observing := s.observing[t := v])
    case AddSecond(t) =>
      var s' := s.(observing := s.observing - {t});
      if order.totalFirst then AddToBucket(s', s.observing[t]) else AddToTotal(s')
    case Begin(t) => s.(renders := s.renders[t := Render(0, 0, None)])
    case LoadBucket(t) =>
      var r := s.renders[t];
      s.(renders := s.renders[t := r.(loaded := r.loaded + 1, sum := r.sum + s.cells[r.loaded])])
    case LoadTotal(t) => s.(renders := s.renders[t := s.renders[t].(count := Some(s.total))])
  }

  function Zeros(n: nat): (cells: seq<nat>)
    ensures |cells| == n && forall i :: 0 <= i < n ==> cells[i] == 0
  {
    seq(n, _ => 0)
  }

  function Start(bounds: seq<F64>): State {
    State(bounds, Zeros(|bounds| + 1), 0, map[], map[])
  }

  ghost predicate Follows(order: Order, states: seq<State>, steps: seq<Step>, i: nat)
    requires i < |steps| && i + 1 < |states|
  {
    Enabled(order, states[i], steps[i]) && states[i + 1] == Apply(order, states[i], steps[i])
  }

  ghost predicate IsRun(order: Order, bounds: seq<F64>, states: seq<State>, steps: seq<Step>) {
    && |states| == |steps| + 1 && states[0] == Start(bounds)
    && forall i :: 0 <= i < |steps| ==> Follows(order, states, steps, i)
  }

  /** No finished rendering shows a `+Inf` line above its count. */
  predicate RendersFit(s: State) {
    forall t :: t in s.renders && s.renders[t].loaded == |s.cells| && s.renders[t].count.Some? ==>
      s.renders[t].sum <= s.renders[t].count.value
  }

  /** Every run of this order over these bounds shows consistent renderings only. */
  ghost predicate Safe(order: Order, bounds: seq<F64>) {
    forall states, steps, n :: IsRun(order, bounds, states, steps) && 0 <= n < |states| ==> RendersFit(states[n])
  }

  // The order of the source is safe.

  function Sum(cells: seq<nat>): nat {
    if cells == [] then 0 else Sum(cells[..|cells| - 1]) + cells[|cells| - 1]
  }

  /** One more in a cell is one more in the sum, and no less in the sum of a part. */
  lemma {:induction false} SumOfUpdate(cells: seq<nat>, i: nat, n: nat)
    requires i < |cells| && n <= |cells|
    ensures Sum(cells[i := cells[i] + 1][..n]) == Sum(cells[..n]) + if i < n then 1 else 0
  {
    if n > 0 {
      SumOfUpdate(cells, i, n - 1);
      assert cells[i := cells[i] + 1][..n][..n - 1] == cells[i := cells[i] + 1][..n - 1];
      assert cells[..n][..n - 1] == cells[..n - 1];
    }
  }

  lemma {:induction false} SumOfPart(cells: seq<nat>, n: nat)
    requires n <= |cells|
    ensures Sum(cells[..n]) <= Sum(cells)
    decreases |cells| - n
  {
    if n < |cells| {
      SumOfPart(cells, n + 1);
      assert cells[..n + 1][..n] == cells[..n];
    } else {
      assert cells[..n] == cells;
    }
  }

  /** What a rendering has summed up is at most what the cells it loaded hold now. */
  predicate RenderOk(s: State, r: Render) {
    && r.loaded <= |s.cells| && r.sum <= Sum(s.cells[..r.loaded])
    && (r.count.Some? ==> r.loaded == |s.cells| && r.sum <= r.count.value)
  }

  ghost predicate Inv(s: State) {
    && |s.cells| == |s.bounds| + 1 && s.total == Sum(s.cells) + |s.observing|
    && forall t :: t in s.renders ==> RenderOk(s, s.renders[t])
  }

  lemma OneMore(m: map<ThreadId, F64>, t: ThreadId, v: F64)
    requires t !in m
    ensures |m[t := v]| == |m| + 1
  {
    assert m[t := v].Keys == m.Keys + {t};
    assert |m[t := v].Keys| == |m.Keys| + 1;
  }

  lemma OneLess(m: map<ThreadId, F64>, t: ThreadId)
    requires t in m
    ensures |m - {t}| == |m| - 1
  {
    assert m.Keys == (m - {t}).Keys + {t};
    assert |m.Keys| == |(m - {t}).Keys| + 1;
  }

  lemma AddStep(s: State, t: ThreadId, v: F64)
    requires Inv(s) && Enabled(Order(true, true), s, AddFirst(t, v))
    ensures Inv(Apply(Order(true, true), s, AddFirst(t, v)))
  {
    var s' := Apply(Order(true, true), s, AddFirst(t, v));
    OneMore(s.observing, t, v);
    forall u | u in s'.renders
      ensures RenderOk(s', s'.renders[u])
    {
      assert RenderOk(s, s.renders[u]);
    }
  }

  /** A fuller cell keeps a rendering in order. */
  lemma RenderStays(s: State, s': State, i: nat, r: Render)
    requires RenderOk(s, r) && i < |s.cells| && s'.cells == s.cells[i := s.cells[i] + 1]
    ensures RenderOk(s', r)
  {
    SumOfUpdate(s.cells, i, r.loaded);
  }

  lemma BucketStep(s: State, t: ThreadId)
    requires Inv(s) && Enabled(Order(true, true), s, AddSecond(t))
    ensures Inv(Apply(Order(true, true), s, AddSecond(t)))
  {
    var s' := Apply(Order(true, true), s, AddSecond(t));
    var i := Bucket(s.bounds, s.observing[t]);
    OneLess(s.observing, t);
    SumOfUpdate(s.cells, i, |s.cells|);
    assert s.cells[..|s.cells|] == s.cells && s'.cells[..|s.cells|] == s'.cells;
    assert s'.total == Sum(s'.cells) + |s'.observing|;
    forall u | u in s'.renders
      ensures RenderOk(s', s'.renders[u])
    {
      RenderStays(s, s', i, s.renders[u]);
    }
  }

  lemma LoadStep(s: State, t: ThreadId)
    requires Inv(s) && Enabled(Order(true, true), s, LoadBucket(t))
    ensures Inv(Apply(Order(true, true), s, LoadBucket(t)))
  {
    var r := s.renders[t];
    assert RenderOk(s, r);
    assert s.cells[..r.loaded + 1][..r.loaded] == s.cells[..r.loaded];
  }

  lemma TotalStep(s: State, t: ThreadId)
    requires Inv(s) && Enabled(Order(true, true), s, LoadTotal(t))
    ensures Inv(Apply(Order(true, true), s, LoadTotal(t)))
  {
    assert RenderOk(s, s.renders[t]);
    SumOfPart(s.cells, s.renders[t].loaded);
  }

  lemma StepKeepsInv(s: State, step: Step)
    requires Inv(s) && Enabled(Order(true, true), s, step)
    ensures Inv(Apply(Order(true, true), s, step))
  {
    match step
    case AddFirst(t, v) => AddStep(s, t, v);
    case AddSecond(t) => BucketStep(s, t);
    case Begin(t) => assert s.cells[..0] == [];
    case LoadBucket(t) => LoadStep(s, t);
    case LoadTotal(t) => TotalStep(s, t);
  }

  lemma {:induction false} SumOfZeros(n: nat)
    ensures Sum(Zeros(n)) == 0
  {
    if n > 0 {
      assert Zeros(n)[..n - 1] == Zeros(n - 1);
      SumOfZeros(n - 1);
    }
  }

  lemma {:induction false} RunKeepsInv(bounds: seq<F64>, states: seq<State>, steps: seq<Step>, n: nat)
    requires IsRun(Order(true, true), bounds, states, steps) && n < |states|
    ensures Inv(states[n])
  {
    if n == 0 {
      SumOfZeros(|bounds| + 1);
    } else {
      RunKeepsInv(bounds, states, steps, n - 1);
      assert Follows(Order(true, true), states, steps, n - 1);
      StepKeepsInv(states[n - 1], steps[n - 1]);
    }
  }

  lemma InvFits(s: State)
    requires Inv(s)
    ensures RendersFit(s)
  {
    forall t | t in s.renders
      ensures RenderOk(s, s.renders[t])
    {
    }
  }

  // Every other order has a run that shows too much. The value observed is NaN, which no bound admits.

  lemma Continue(order: Order, bounds: seq<F64>, states: seq<State>, steps: seq<Step>, step: Step)
    returns (states': seq<State>, steps': seq<Step>)
    requires IsRun(order, bounds, states, steps) && Enabled(order, states[|steps|], step)
    ensures IsRun(order, bounds, states', steps')
    ensures steps' == steps + [step] && states' == states + [Apply(order, states[|steps|], step)]
  {
    states', steps' := states + [Apply(order, states[|steps|], step)], steps + [step];
    forall i | 0 <= i < |steps'|
      ensures Follows(order, states', steps', i)
    {
      if i < |steps| {
        assert Follows(order, states, steps, i);
      }
    }
  }

  /** All cells are empty but the last, the overflow cell, which may hold one observation. */
  predicate OnlyOverflow(s: State, one: nat) {
    && |s.cells| == |s.bounds| + 1 && s.cells[|s.bounds|] == one
    && forall i :: 0 <= i < |s.bounds| ==> s.cells[i] == 0
  }

  /** Thread 1 loads the remaining buckets, undisturbed. */
  lemma {:induction false} LoadAll(
      order: Order, bounds: seq<F64>, states: seq<State>, steps: seq<Step>, one: nat)
    returns (states': seq<State>, steps': seq<Step>)
    requires IsRun(order, bounds, states, steps)
    requires var s := states[|steps|];
             && OnlyOverflow(s, one) && 1 in s.renders && s.renders[1].loaded <= |s.cells|
             && s.renders[1].sum == (if s.renders[1].loaded == |s.cells| then one else 0)
             && (!order.bucketsFirst ==> s.renders[1].count.Some?)
    ensures IsRun(order, bounds, states', steps')
    ensures var s, s' := states[|steps|], states'[|steps'|];
            s' == s.(renders := s.renders[1 := s.renders[1].(loaded := |s.cells|, sum := one)])
    decreases |states[|steps|].cells| - states[|steps|].renders[1].loaded
  {
    var s := states[|steps|];
    if s.renders[1].loaded == |s.cells| {
      states', steps' := states, steps;
      assert s.renders == s.renders[1 := s.renders[1].(loaded := |s.cells|, sum := one)];
    } else {
      var mid, path := Continue(order, bounds, states, steps, LoadBucket(1));
      states', steps' := LoadAll(order, bounds, mid, path, one);
    }
  }

  /** A bucket added before the total: a rendering in between shows one observation in no total. */
  lemma BucketBeforeTotal(order: Order, bounds: seq<F64>)
    requires !order.totalFirst
    ensures !Safe(order, bounds)
  {
    var states, steps := [Start(bounds)], [];
    states, steps := Continue(order, bounds, states, steps, AddFirst(0, NaN));
    states, steps := Continue(order, bounds, states, steps, Begin(1));
    if !order.bucketsFirst {
      states, steps := Continue(order, bounds, states, steps, LoadTotal(1));
    }
    states, steps := LoadAll(order, bounds, states, steps, 1);
    if order.bucketsFirst {
      states, steps := Continue(order, bounds, states, steps, LoadTotal(1));
    }
    assert !RendersFit(states[|steps|]);
  }

  /** A total loaded before the buckets: a whole observation fits in between. */
  lemma TotalBeforeBuckets(order: Order, bounds: seq<F64>)
    requires order.totalFirst && !order.bucketsFirst
    ensures !Safe(order, bounds)
  {
    var states, steps := [Start(bounds)], [];
    states, steps := Continue(order, bounds, states, steps, Begin(1));
    states, steps := Continue(order, bounds, states, steps, LoadTotal(1));
    states, steps := Continue(order, bounds, states, steps, AddFirst(0, NaN));
    states, steps := Continue(order, bounds, states, steps, AddSecond(0));
    states, steps := LoadAll(order, bounds, states, steps, 1);
    assert !RendersFit(states[|steps|]);
  }

  /**
   Over any bounds, `+Inf` never exceeds the count in any run if and only if observers add to the
   total first and renderers load it last: both orders are needed.
   */
  lemma SafeIff(order: Order, bounds: seq<F64>)
    ensures Safe(order, bounds) <==> order.totalFirst && order.bucketsFirst
  {
    if !order.totalFirst {
      BucketBeforeTotal(order, bounds);
    } else if !order.bucketsFirst {
      TotalBeforeBuckets(order, bounds);
    } else {
      forall states, steps, n | IsRun(order, bounds, states, steps) && 0 <= n < |states|
        ensures RendersFit(states[n])
      {
        RunKeepsInv(bounds, states, steps, n);
        InvFits(states[n]);
      }
    }
  }
}
