/** The histogram of `metrics.rs`, one call at a time: first-match bucket counts against a plain count. */
module Histogram {

  /** A double, as far as comparison goes. NaN compares with nothing. */
  datatype F64 = NaN | NegInf | Finite(r: real) | PosInf

  /** IEEE `<=`. */
  predicate Le(x: F64, y: F64) {
    match (x, y)
    case (NaN, _) => false
    case (_, NaN) => false
    case (NegInf, _) => true
    case (_, PosInf) => true
    case (Finite(a), Finite(b)) => a <= b
    case _ => false
  }

  /** The order is total on everything but NaN, and on finite values it is that of the reals. */
  lemma LeIs(x: F64, y: F64, a: real, b: real)
    ensures Le(Finite(a), Finite(b)) <==> a <= b
    ensures !Le(NaN, x) && !Le(x, NaN)
    ensures !x.NaN? ==> Le(NegInf, x) && Le(x, PosInf) && Le(x, x)
    ensures Le(Finite(a), NegInf) <==> false
    ensures Le(PosInf, Finite(a)) <==> false
    ensures !x.NaN? && !y.NaN? ==> Le(x, y) || Le(y, x)
    ensures Le(x, y) && Le(y, x) ==> x == y
  {
  }

  /** Atomic counters are 64 bits wide and wrap. */
  const W: int := 0x1_0000_0000_0000_0000

  type U64 = x: int | 0 <= x < W

  /** `fetch_add`, and `+` in a release build. */
  function Add(a: U64, b: U64): U64 {
    if a + b < W then a + b else a + b - W
  }

  /** The value of a 64-bit counter after n increments. */
  function Wrap(n: nat): U64 {
    if n == 0 then 0 else Add(Wrap(n - 1), 1)
  }

  /** Adding counters is adding what they count. */
  lemma {:induction false} WrapAdd(a: nat, b: nat)
    ensures Add(Wrap(a), Wrap(b)) == Wrap(a + b)
  {
    if b > 0 {
      WrapAdd(a, b - 1);
    }
  }

  /** A counter that has not overflowed shows how often it was incremented. */
  lemma {:induction false} WrapSmall(n: nat)
    requires n < W
    ensures Wrap(n) == n
  {
    if n > 0 {
      WrapSmall(n - 1);
    }
  }

  lemma NextModulo(n: nat)
    requires n > 0
    ensures n % W == Add((n - 1) % W, 1)
  {
    var q, r := (n - 1) / W, (n - 1) % W;
    assert n == q * W + r + 1;
    if r + 1 == W {
      assert n == (q + 1) * W;
    }
  }

  /** In general it shows that number modulo 2^64. */
  lemma {:induction false} WrapIsModulo(n: nat)
    ensures Wrap(n) == n % W && W == 18446744073709551616
  {
    if n > 0 {
      WrapIsModulo(n - 1);
      NextModulo(n);
    }
  }

  /** Index of the first bound that admits the value, or the overflow bucket. */
  function Bucket(bounds: seq<F64>, v: F64): (i: nat)
    ensures i <= |bounds|
    ensures i < |bounds| ==> Le(v, bounds[i])
    ensures forall j :: 0 <= j < i ==> !Le(v, bounds[j])
  {
    if bounds == [] || Le(v, bounds[0]) then 0 else Bucket(bounds[1..], v) + 1
  }

  /** The first-match bucket is the only one with that property. */
  lemma BucketIs(bounds: seq<F64>, v: F64, i: nat)
    requires i <= |bounds| && (i < |bounds| ==> Le(v, bounds[i]))
    requires forall j :: 0 <= j < i ==> !Le(v, bounds[j])
    ensures Bucket(bounds, v) == i
  {
  }

  /** How many observations fell into bucket i. */
  function InBucket(seen: seq<F64>, bounds: seq<F64>, i: nat): nat {
    if seen == [] then 0
    else InBucket(seen[..|seen| - 1], bounds, i) + if Bucket(bounds, seen[|seen| - 1]) == i then 1 else 0
  }

  /** How many observations fell into buckets 0 .. i - 1. */
  function BelowBucket(seen: seq<F64>, bounds: seq<F64>, i: nat): nat {
    if seen == [] then 0
    else BelowBucket(seen[..|seen| - 1], bounds, i) + if Bucket(bounds, seen[|seen| - 1]) < i then 1 else 0
  }

  /** How many observations are at most x. */
  function AtMost(seen: seq<F64>, x: F64): nat {
    if seen == [] then 0
    else AtMost(seen[..|seen| - 1], x) + if Le(seen[|seen| - 1], x) then 1 else 0
  }

  lemma InBucketOfAppend(seen: seq<F64>, v: F64, bounds: seq<F64>, i: nat)
    ensures InBucket(seen + [v], bounds, i) == InBucket(seen, bounds, i) + if Bucket(bounds, v) == i then 1 else 0
    ensures BelowBucket(seen + [v], bounds, i) == BelowBucket(seen, bounds, i) + if Bucket(bounds, v) < i then 1 else 0
  {
    assert (seen + [v])[..|seen|] == seen;
  }

  /** Running sums over the buckets. */
  lemma {:induction false} BelowNext(seen: seq<F64>, bounds: seq<F64>, i: nat)
    ensures BelowBucket(seen, bounds, 0) == 0
    ensures BelowBucket(seen, bounds, i + 1) == BelowBucket(seen, bounds, i) + InBucket(seen, bounds, i)
  {
    if seen != [] {
      BelowNext(seen[..|seen| - 1], bounds, i);
    }
  }

  /** Every observation is in some bucket. */
  lemma {:induction false} BelowAll(seen: seq<F64>, bounds: seq<F64>)
    ensures BelowBucket(seen, bounds, |bounds| + 1) == |seen|
  {
    if seen != [] {
      BelowAll(seen[..|seen| - 1], bounds);
    }
  }

  /** Bounds in ascending order; a NaN bound, which admits nothing, may only come first. */
  ghost predicate Ascending(bounds: seq<F64>) {
    forall i, j :: 0 <= i < j < |bounds| && !bounds[i].NaN? ==> Le(bounds[i], bounds[j])
  }

  lemma {:induction false} AscendingCounts(seen: seq<F64>, bounds: seq<F64>, i: nat)
    requires Ascending(bounds) && i < |bounds|
    ensures BelowBucket(seen, bounds, i + 1) == AtMost(seen, bounds[i])
  {
    if seen != [] {
      AscendingCounts(seen[..|seen| - 1], bounds, i);
      var v := seen[|seen| - 1];
      var b := Bucket(bounds, v);
      if b < i {
        assert !bounds[b].NaN? && Le(bounds[b], bounds[i]);
      }
    }
  }

  /** A bound standing before one that does not admit it is counted below that one, and is not at most it. */
  lemma DescendingMiscounts(bounds: seq<F64>, i: nat, j: nat)
    requires i < j < |bounds| && !bounds[i].NaN? && !Le(bounds[i], bounds[j])
    ensures BelowBucket([bounds[i]], bounds, j + 1) == 1 && AtMost([bounds[i]], bounds[j]) == 0
  {
    InBucketOfAppend([], bounds[i], bounds, j + 1);
    assert [] + [bounds[i]] == [bounds[i]];
    assert Bucket(bounds, bounds[i]) <= i;
    assert [bounds[i]][..0] == [];
  }

  /**
   The first-match counts summed up to a bound are the observations at most that bound, for every
   list of observations (NaN included), exactly when the bounds ascend.
   */
  lemma CumulativeIffAscending(bounds: seq<F64>)
    ensures (forall seen, i :: 0 <= i < |bounds| ==> BelowBucket(seen, bounds, i + 1) == AtMost(seen, bounds[i])) <==>
            Ascending(bounds)
  {
    if Ascending(bounds) {
      forall seen, i | 0 <= i < |bounds|
        ensures BelowBucket(seen, bounds, i + 1) == AtMost(seen, bounds[i])
      {
        RunningIsAtMost(seen, bounds);
      }
    } else {
      var i, j :| 0 <= i < j < |bounds| && !bounds[i].NaN? && !Le(bounds[i], bounds[j]);
      DescendingMiscounts(bounds, i, j);
    }
  }

  /** One more observation counts in its own bucket only. */
  lemma InBucketsOfAppend(seen: seq<F64>, v: F64, bounds: seq<F64>)
    ensures forall k :: 0 <= k <= |bounds| && k != Bucket(bounds, v) ==> InBucket(seen + [v], bounds, k) == InBucket(seen, bounds, k)
    ensures Wrap(InBucket(seen + [v], bounds, Bucket(bounds, v))) == Add(Wrap(InBucket(seen, bounds, Bucket(bounds, v))), 1)
    ensures Wrap(|seen + [v]|) == Add(Wrap(|seen|), 1)
  {
    forall k | 0 <= k <= |bounds| && k != Bucket(bounds, v)
      ensures InBucket(seen + [v], bounds, k) == InBucket(seen, bounds, k)
    {
      InBucketOfAppend(seen, v, bounds, k);
    }
    InBucketOfAppend(seen, v, bounds, Bucket(bounds, v));
    WrapNext(InBucket(seen, bounds, Bucket(bounds, v)));
    WrapNext(|seen|);
  }

  lemma WrapNext(n: nat)
    ensures Wrap(n + 1) == Add(Wrap(n), 1)
  {
  }

  /** One turn of the running sum. */
  lemma RunningNext(seen: seq<F64>, bounds: seq<F64>, i: nat)
    ensures BelowBucket(seen, bounds, 0) == 0
    ensures Add(Wrap(BelowBucket(seen, bounds, i)), Wrap(InBucket(seen, bounds, i))) == Wrap(BelowBucket(seen, bounds, i + 1))
  {
    BelowNext(seen, bounds, i);
    WrapAdd(BelowBucket(seen, bounds, i), InBucket(seen, bounds, i));
  }

  /** With ascending bounds the running sums are the counts "at most the bound". */
  lemma RunningIsAtMost(seen: seq<F64>, bounds: seq<F64>)
    requires Ascending(bounds)
    ensures forall i :: 0 <= i < |bounds| ==> BelowBucket(seen, bounds, i + 1) == AtMost(seen, bounds[i])
  {
    forall i | 0 <= i < |bounds|
      ensures BelowBucket(seen, bounds, i + 1) == AtMost(seen, bounds[i])
    {
      AscendingCounts(seen, bounds, i);
    }
  }

  class HistogramCell {
    const buckets: seq<F64>
    const counts: array<U64>
    var totalCount: U64
    /** Every value observed so far. */
    ghost var seen: seq<F64>

    ghost predicate Valid()
      reads this, counts
    {
      && counts.Length == |buckets| + 1
      && totalCount == Wrap(|seen|)
      && forall i :: 0 <= i < counts.Length ==> counts[i] == Wrap(InBucket(seen, buckets, i))
    }

    constructor (bounds: seq<F64>)
      ensures Valid() && buckets == bounds && seen == [] && fresh(counts)
    {
      buckets := bounds;
      counts := new U64[|bounds| + 1](_ => 0);
      totalCount := 0;
      seen := [];
    }

    /** `observe`: counts the value in the first bucket that admits it. */
    method Observe(value: F64)
      requires Valid()
      modifies this, counts
      ensures Valid() && seen == old(seen) + [value]
    {
      totalCount := Add(totalCount, 1);
      seen := seen + [value];
      InBucketsOfAppend(old(seen), value, buckets);
      var i := 0;
      while i < |buckets|
        invariant 0 <= i <= |buckets|
        invariant forall j :: 0 <= j < i ==> !Le(value, buckets[j])
        invariant counts[..] == old(counts[..])
      {
        if Le(value, buckets[i]) {
          BucketIs(buckets, value, i);
          counts[i] := Add(counts[i], 1);
          return;
        }
        i := i + 1;
      }
      BucketIs(buckets, value, |buckets|);
      counts[|buckets|] := Add(counts[|buckets|], 1);
    }

    /**
     The numbers of `prometheus_lines`: one cumulative line per bound, the `+Inf` line, the count.
     With ascending bounds line i is the number of observations at most bound i.
     */
    method PrometheusLines() returns (lines: seq<U64>, inf: U64, count: U64)
      requires Valid()
      ensures |lines| == |buckets|
      ensures forall i :: 0 <= i < |lines| ==> lines[i] == Wrap(BelowBucket(seen, buckets, i + 1))
      ensures Ascending(buckets) ==> forall i :: 0 <= i < |lines| ==> lines[i] == Wrap(AtMost(seen, buckets[i]))
      ensures inf == count == Wrap(|seen|)
    {
      var running: U64 := 0;
      lines := [];
      RunningNext(seen, buckets, 0);
      for i := 0 to |buckets|
        invariant |lines| == i && running == Wrap(BelowBucket(seen, buckets, i))
        invariant forall j :: 0 <= j < i ==> lines[j] == Wrap(BelowBucket(seen, buckets, j + 1))
      {
        RunningNext(seen, buckets, i);
        running := Add(running, counts[i]);
        lines := lines + [running];
      }
      RunningNext(seen, buckets, |buckets|);
      BelowAll(seen, buckets);
      inf := Add(running, counts[|buckets|]);
      count := totalCount;
      if Ascending(buckets) {
        RunningIsAtMost(seen, buckets);
      }
    }
  }
}
