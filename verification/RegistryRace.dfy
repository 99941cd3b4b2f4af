/**
 The registry under concurrent use. A lookup checks under the read lock, releases it, and on a miss
 takes the write lock and inserts only if the name is still absent; a thread that holds a handle may
 add to it any number of times. Each critical section and each atomic addition is one step.
 */
module RegistryRace {
  import opened Histogram
  import opened Registry

  type ThreadId = nat
  type Handle = nat

  datatype Stage = Checking | Creating | Holding(h: Handle)
  datatype Thread = Thread(name: string, stage: Stage)

  /** The shared map, the counter cells it points to, and the threads. `log` lists completed increments (history). */
  datatype State = State(
    names: map<string, Handle>,
    cells: seq<U64>,
    threads: map<ThreadId, Thread>,
    log: seq<Increment>)

  datatype Step =
    | Begin(t: ThreadId, name: string)
    | ReadCheck(t: ThreadId)
    | WriteCheck(t: ThreadId)
    | Increase(t: ThreadId, n: U64)

  predicate Enabled(s: State, step: Step) {
    match step
    case Begin(t, _) => t !in s.threads
    case ReadCheck(t) => t in s.threads && s.threads[t].stage == Checking
    case WriteCheck(t) => t in s.threads && s.threads[t].stage == Creating
    case Increase(t, _) => t in s.threads && s.threads[t].stage.Holding? && s.threads[t].stage.h < |s.cells|
  }

  function SetStage(s: State, t: ThreadId, stage: Stage): State
    requires t in s.threads
  {
    s.(threads := s.threads[t := s.threads[t].(stage := stage)])
  }

  function Apply(s: State, step: Step): State
    requires Enabled(s, step)
  {
    match step
    case Begin(t, name) => s.(threads := s.threads[t := Thread(name, Checking)])
    case ReadCheck(t) =>
      var name := s.threads[t].name;
      SetStage(s, t, if name in s.names then Holding(s.names[name]) else Creating)
    case WriteCheck(t) =>
      var name := s.threads[t].name;
      if name in s.names then SetStage(s, t, Holding(s.names[name]))
      else SetStage(s, t, Holding(|s.cells|)).(names := s.names[name := |s.cells|], cells := s.cells + [0])
    case Increase(t, n) =>
      var h := s.threads[t].stage.h;
      s.(cells := s.cells[h := Add(s.cells[h], n)], log := s.log + [Increment(s.threads[t].name, n)])
  }

  predicate Init(s: State) {
    s == State(map[], [], map[], [])
  }

  ghost predicate Follows(states: seq<State>, steps: seq<Step>, i: nat)
    requires i < |steps| && i + 1 < |states|
  {
    Enabled(states[i], steps[i]) && states[i + 1] == Apply(states[i], steps[i])
  }

  ghost predicate IsRun(states: seq<State>, steps: seq<Step>) {
    && |states| == |steps| + 1
    && Init(states[0])
    && forall i :: 0 <= i < |steps| ==> Follows(states, steps, i)
  }

  /** Every name has a cell of its own. */
  ghost predicate NamesOk(s: State) {
    && (forall a :: a in s.names ==> s.names[a] < |s.cells|)
    && (forall a, b :: a in s.names && b in s.names && s.names[a] == s.names[b] ==> a == b)
  }

  /** A handle is the cell of the name it was asked for. */
  ghost predicate HandlesOk(s: State) {
    forall t :: t in s.threads && s.threads[t].stage.Holding? ==>
      s.threads[t].name in s.names && s.names[s.threads[t].name] == s.threads[t].stage.h
  }

  /** A cell shows the increments of its name. */
  ghost predicate CellsOk(s: State)
    requires NamesOk(s)
  {
    && (forall a :: a in s.names ==> s.cells[s.names[a]] == Wrap(SumFor(s.log, a)))
    && (forall a :: a !in s.names ==> SumFor(s.log, a) == 0)
  }

  ghost predicate Inv(s: State) {
    NamesOk(s) && HandlesOk(s) && CellsOk(s)
  }

  /** A step of one thread that leaves map, cells and log alone. */
  lemma ThreadStep(s: State, t: ThreadId, thread: Thread)
    requires Inv(s)
    requires thread.stage.Holding? ==> thread.name in s.names && s.names[thread.name] == thread.stage.h
    ensures Inv(s.(threads := s.threads[t := thread]))
  {
  }

  /** The write check of an absent name: a new cell at the end, which is zero like the sum of that name. */
  lemma CreateStep(s: State, t: ThreadId)
    requires Inv(s) && Enabled(s, WriteCheck(t)) && s.threads[t].name !in s.names
    ensures Inv(Apply(s, WriteCheck(t)))
  {
    var s' := Apply(s, WriteCheck(t));
    var name := s.threads[t].name;
    assert NamesOk(s');
    forall a | a in s'.names
      ensures s'.cells[s'.names[a]] == Wrap(SumFor(s'.log, a))
    {
      if a != name {
        assert s'.cells[s.names[a]] == s.cells[s.names[a]];
      }
    }
  }

  lemma IncreaseStep(s: State, t: ThreadId, n: U64)
    requires Inv(s) && Enabled(s, Increase(t, n))
    ensures Inv(Apply(s, Increase(t, n)))
  {
    var s' := Apply(s, Increase(t, n));
    var name, h := s.threads[t].name, s.threads[t].stage.h;
    SumAfter(s.log, name, n);
    assert NamesOk(s');
    forall a | a in s'.names
      ensures s'.cells[s'.names[a]] == Wrap(SumFor(s'.log, a))
    {
      if a != name {
        assert s.names[a] != h;
      }
    }
  }

  lemma StepKeepsInv(s: State, step: Step)
    requires Inv(s) && Enabled(s, step)
    ensures Inv(Apply(s, step))
  {
    match step
    case Begin(t, name) => ThreadStep(s, t, Thread(name, Checking));
    case ReadCheck(t) => ThreadStep(s, t, Apply(s, step).threads[t]);
    case WriteCheck(t) =>
      if s.threads[t].name in s.names {
        ThreadStep(s, t, Apply(s, step).threads[t]);
      } else {
        CreateStep(s, t);
      }
    case Increase(t, n) => IncreaseStep(s, t, n);
  }

  lemma {:induction false} RunKeepsInv(states: seq<State>, steps: seq<Step>, n: nat)
    requires IsRun(states, steps) && n < |states|
    ensures Inv(states[n])
  {
    if n > 0 {
      RunKeepsInv(states, steps, n - 1);
      assert Follows(states, steps, n - 1);
      StepKeepsInv(states[n - 1], steps[n - 1]);
    }
  }

  /** A registered name keeps its counter. */
  lemma {:induction false} NamesStay(states: seq<State>, steps: seq<Step>, m: nat, n: nat, name: string)
    requires IsRun(states, steps) && m <= n < |states| && name in states[m].names
    ensures name in states[n].names && states[n].names[name] == states[m].names[name]
  {
    if m < n {
      NamesStay(states, steps, m, n - 1, name);
      assert Follows(states, steps, n - 1);
    }
  }

  /** The thread holds this handle for the name it asked for. */
  predicate Holds(s: State, t: ThreadId, name: string, h: Handle) {
    t in s.threads && s.threads[t] == Thread(name, Holding(h))
  }

  /** All handles ever handed out for one name are the same counter, and different names never share one. */
  lemma HandlesAgree(states: seq<State>, steps: seq<Step>, m: nat, n: nat, t: ThreadId, u: ThreadId,
                     a: string, b: string, g: Handle, h: Handle)
    requires IsRun(states, steps) && m <= n < |states|
    requires Holds(states[m], t, a, g) && Holds(states[n], u, b, h)
    ensures a == b <==> g == h
  {
    RunKeepsInv(states, steps, m);
    RunKeepsInv(states, steps, n);
    NamesStay(states, steps, m, n, a);
  }

  /**
   Every handle shows the sum of all completed increments of its name, modulo 2^64: none is lost,
   whichever thread created the counter.
   */
  lemma NoIncrementLost(states: seq<State>, steps: seq<Step>, n: nat, t: ThreadId, name: string, h: Handle)
    requires IsRun(states, steps) && n < |states| && Holds(states[n], t, name, h)
    ensures h < |states[n].cells| && states[n].cells[h] == SumFor(states[n].log, name) % W
  {
    RunKeepsInv(states, steps, n);
    WrapIsModulo(SumFor(states[n].log, name));
  }

  lemma Continue(states: seq<State>, steps: seq<Step>, step: Step) returns (states': seq<State>, steps': seq<Step>)
    requires IsRun(states, steps) && Enabled(states[|steps|], step)
    ensures steps' == steps + [step] && states' == states + [Apply(states[|steps|], step)]
    ensures IsRun(states', steps')
  {
    states', steps' := states + [Apply(states[|steps|], step)], steps + [step];
    forall i | 0 <= i < |steps'|
      ensures Follows(states', steps', i)
    {
      if i < |steps| {
        assert Follows(states, steps, i);
      }
    }
  }

  /** From every reachable state a new thread can get a name's counter and add to it. */
  lemma AdditionCompletes(states: seq<State>, steps: seq<Step>, t: ThreadId, name: string, n: U64)
    returns (states': seq<State>, steps': seq<Step>, h: Handle)
    requires IsRun(states, steps) && t !in states[|steps|].threads
    ensures IsRun(states', steps') && states <= states' && steps <= steps'
    ensures Holds(states'[|steps'|], t, name, h)
    ensures states'[|steps'|].log == states[|steps|].log + [Increment(name, n)]
  {
    var s := states[|steps|];
    states', steps' := Continue(states, steps, Begin(t, name));
    states', steps' := Continue(states', steps', ReadCheck(t));
    if name !in s.names {
      states', steps' := Continue(states', steps', WriteCheck(t));
    }
    RunKeepsInv(states', steps', |steps'|);
    h := states'[|steps'|].threads[t].stage.h;
    states', steps' := Continue(states', steps', Increase(t, n));
  }
}
