/** The lazily filled counter registry of `metrics.rs`, one call at a time. */
module Registry {
  import opened Histogram

  /** A completed increment. */
  datatype Increment = Increment(name: string, amount: nat)

  /** The increments of one name, added up without overflow. */
  function SumFor(log: seq<Increment>, name: string): nat {
    if log == [] then 0
    else
      var last := log[|log| - 1];
      SumFor(log[..|log| - 1], name) + if last.name == name then last.amount else 0
  }

  lemma SumOfAppend(log: seq<Increment>, inc: Increment, name: string)
    ensures SumFor(log + [inc], name) == SumFor(log, name) + if inc.name == name then inc.amount else 0
  {
    assert (log + [inc])[..|log|] == log;
  }

  /** One more increment changes the sum of its own name only. */
  lemma SumsOfAppend(log: seq<Increment>, inc: Increment)
    ensures SumFor(log + [inc], inc.name) == SumFor(log, inc.name) + inc.amount
    ensures forall name :: name != inc.name ==> SumFor(log + [inc], name) == SumFor(log, name)
  {
    forall name
      ensures SumFor(log + [inc], name) == SumFor(log, name) + if inc.name == name then inc.amount else 0
    {
      SumOfAppend(log, inc, name);
    }
  }

  /** Adding to a counter that shows the sum of its name. */
  lemma SumAfter(log: seq<Increment>, name: string, n: U64)
    ensures Add(Wrap(SumFor(log, name)), n) == Wrap(SumFor(log + [Increment(name, n)], name))
    ensures SumFor(log + [Increment(name, n)], name) == SumFor(log, name) + n
    ensures forall other :: other != name ==> SumFor(log + [Increment(name, n)], other) == SumFor(log, other)
  {
    WrapSmall(n);
    WrapAdd(SumFor(log, name), n);
    SumsOfAppend(log, Increment(name, n));
  }

  class Counter {
    var value: U64

    constructor ()
      ensures value == 0
    {
      value := 0;
    }

    method Increase(n: U64)
      modifies this
      ensures value == Add(old(value), n)
    {
      value := Add(value, n);
    }
  }

  class MetricsRegistry {
    var counters: map<string, Counter>
    /** Every increment made through the registry. */
    ghost var log: seq<Increment>

    ghost predicate Valid()
      reads this, counters.Values
    {
      && (forall a, b :: a in counters && b in counters && a != b ==> counters[a] != counters[b])
      && (forall name :: name in counters ==> counters[name].value == Wrap(SumFor(log, name)))
      && (forall name :: name !in counters ==> SumFor(log, name) == 0)
    }

    constructor ()
      ensures Valid() && counters == map[] && log == []
    {
      counters, log := map[], [];
    }

    /** Get or create: the same counter for a name for ever after, and a fresh one for a new name. */
    method GetCounter(name: string) returns (c: Counter)
      requires Valid()
      modifies this`counters
      ensures Valid() && name in counters && c == counters[name]
      ensures if name in old(counters) then counters == old(counters) else fresh(c) && counters == old(counters)[name := c]
    {
      if name in counters {
        return counters[name];
      }
      c := new Counter();
      assert forall other :: other in counters ==> counters[other] != c;
      counters := counters[name := c];
      assert forall other :: other in old(counters) ==> counters[other].value == old(counters[other].value);
    }

    /** `add`: the counter of the name, and no other, grows by n. */
    method AddTo(name: string, n: U64)
      requires Valid()
      modifies this, counters.Values
      ensures Valid() && log == old(log) + [Increment(name, n)]
      ensures counters.Keys == old(counters.Keys) + {name}
      ensures forall other :: other in old(counters) ==> counters[other] == old(counters)[other]
      ensures counters[name].value == Wrap(SumFor(old(log), name) + n)
    {
      var _ := GetCounter(name);
      assert forall other :: other in old(counters) ==> counters[other] == old(counters)[other];
      Record(name, n);
    }

    /** The increment of a counter already found. */
    method Record(name: string, n: U64)
      requires Valid() && name in counters
      modifies this`log, counters[name]
      ensures Valid() && log == old(log) + [Increment(name, n)]
      ensures counters[name].value == Wrap(SumFor(old(log), name) + n)
    {
      SumAfter(log, name, n);
      counters[name].Increase(n);
      log := log + [Increment(name, n)];
    }
  }
}
