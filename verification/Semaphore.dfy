/** The counting semaphore of ipc.c.  The reference machine keeps the waiting threads in the
    order they came and picks whom to grant; the implementation keeps a list in serving order.
 */
module SemaphoreSpec {
  import opened Lists
  import opened WaitOrder

  const VALUE_MAX: nat := 0xffff

  /** `arrivals` are the waiting threads, first come first; `granted` and `released` count what
      has been handed out and put in since the beginning. */
  datatype State = State(value: nat, arrivals: seq<nat>, granted: seq<nat>, released: nat)

  datatype Step = Take(t: nat, mayWait: bool) | Release | Timeout(t: nat)

  /** How a semaphore queues; priorities of queued threads stay as they are. */
  datatype Flag = Fifo | Prio(prio: map<nat, nat>)

  ghost predicate Known(flag: Flag, list: seq<nat>) {
    flag.Prio? ==> forall t :: t in list ==> t in flag.prio
  }

  ghost predicate Inv(flag: Flag, s: State) {
    Distinct(s.arrivals) && Known(flag, s.arrivals) && s.value <= VALUE_MAX && (s.value > 0 ==> s.arrivals == [])
  }

  ghost predicate Allowed(flag: Flag, s: State, step: Step) {
    step.Take? ==> step.t !in s.arrivals && Known(flag, [step.t])
  }

  /** The most urgent thread, and among equals the one that came first. */
  function Earliest(prio: map<nat, nat>, a: seq<nat>): (w: nat)
    requires a != [] && forall t :: t in a ==> t in prio
    ensures w in a && forall t :: t in a ==> prio[w] <= prio[t]
    ensures exists i :: 0 <= i < |a| && a[i] == w && forall j :: 0 <= j < i ==> prio[w] < prio[a[j]]
  {
    if |a| == 1 then a[0]
    else
      var r := Earliest(prio, a[1..]);
      assert r in a;
      if prio[a[0]] <= prio[r] then a[0]
      else
        var i :| 0 <= i < |a[1..]| && a[1..][i] == r && forall j :: 0 <= j < i ==> prio[r] < prio[a[1..][j]];
        assert a[i + 1] == r && forall j :: 0 < j < i + 1 ==> a[j] == a[1..][j - 1];
        r
  }

  function Choice(flag: Flag, a: seq<nat>): (w: nat)
    requires a != [] && Known(flag, a)
    ensures w in a
  {
    match flag
    case Fifo => a[0]
    case Prio(prio) => Earliest(prio, a)
  }

  function Do(flag: Flag, s: State, step: Step): State
    requires Inv(flag, s) && Allowed(flag, s, step)
  {
    match step
    case Take(t, mayWait) =>
      if s.value > 0 then s.(value := s.value - 1, granted := s.granted + [t])
      else if mayWait then s.(arrivals := s.arrivals + [t])
      else s
    case Release =>
      if s.arrivals != [] then
        var w := Choice(flag, s.arrivals);
        s.(arrivals := Without(s.arrivals, w), granted := s.granted + [w], released := s.released + 1)
      else if s.value < VALUE_MAX then s.(value := s.value + 1, released := s.released + 1)
      else s
    case Timeout(t) => s.(arrivals := Without(s.arrivals, t))
  }

  lemma StepInv(flag: Flag, s: State, step: Step)
    requires Inv(flag, s) && Allowed(flag, s, step)
    ensures Inv(flag, Do(flag, s, step))
    ensures var r := Do(flag, s, step); r.value + |r.granted| - r.released == s.value + |s.granted| - s.released
  {
    if step.Take? {
      DistinctSnoc(s.arrivals, step.t);
    }
  }

  ghost predicate AllowedRun(flag: Flag, s: State, steps: seq<Step>)
    requires Inv(flag, s)
    decreases |steps|
  {
    steps == [] ||
    (Allowed(flag, s, steps[0]) && (StepInv(flag, s, steps[0]); AllowedRun(flag, Do(flag, s, steps[0]), steps[1..])))
  }

  ghost function Run(flag: Flag, s: State, steps: seq<Step>): (r: State)
    requires Inv(flag, s) && AllowedRun(flag, s, steps)
    ensures Inv(flag, r)
    decreases |steps|
  {
    if steps == [] then s else StepInv(flag, s, steps[0]); Run(flag, Do(flag, s, steps[0]), steps[1..])
  }

  /** Over every run, what was there at first and what was released is what is there now and
      what was granted, direct hand-offs included; nobody waits while the value is positive. */
  lemma {:induction false} Conservation(flag: Flag, s: State, steps: seq<Step>)
    requires Inv(flag, s) && AllowedRun(flag, s, steps)
    ensures var r := Run(flag, s, steps);
      && s.value + (r.released - s.released) == r.value + (|r.granted| - |s.granted|)
      && (r.value > 0 ==> r.arrivals == [])
    decreases |steps|
  {
    if steps != [] {
      StepInv(flag, s, steps[0]);
      Conservation(flag, Do(flag, s, steps[0]), steps[1..]);
    }
  }

  // --------------------------------------------------------------------------------
  // The list in serving order
  // --------------------------------------------------------------------------------

  /** The suspend list that results when `a` suspended one after the other. */
  function Line(prio: map<nat, nat>, a: seq<nat>): (r: seq<nat>)
    requires forall t :: t in a ==> t in prio
    ensures forall t :: t in r <==> t in a
    ensures |r| == |a|
    decreases |a|
  {
    if a == [] then []
    else
      var init, t := a[..|a| - 1], a[|a| - 1];
      assert a == init + [t];
      Enqueue(prio, Line(prio, init), t)
  }

  function Queue(flag: Flag, a: seq<nat>): seq<nat>
    requires Known(flag, a)
  {
    match flag
    case Fifo => a
    case Prio(prio) => Line(prio, a)
  }

  lemma {:induction false} LineSorted(prio: map<nat, nat>, a: seq<nat>)
    requires Distinct(a) && forall t :: t in a ==> t in prio
    ensures Sorted(prio, Line(prio, a)) && Distinct(Line(prio, a))
    decreases |a|
  {
    if a != [] {
      var init, t := a[..|a| - 1], a[|a| - 1];
      assert a == init + [t];
      SplitDistinct(init, t);
      LineSorted(prio, init);
      EnqueueSorted(prio, Line(prio, init), t);
    }
  }

  lemma SplitDistinct(init: seq<nat>, t: nat)
    requires Distinct(init + [t])
    ensures Distinct(init) && t !in init
  {
    DistinctMeans(init + [t]);
    DistinctMeans(init);
    forall i, j | 0 <= i < j < |init| ensures init[i] != init[j] {
      assert (init + [t])[i] == init[i] && (init + [t])[j] == init[j];
    }
    forall i | 0 <= i < |init| ensures init[i] != t { assert (init + [t])[i] == init[i] && (init + [t])[|init|] == t; }
  }

  lemma {:induction false} EarliestSnoc(prio: map<nat, nat>, a: seq<nat>, t: nat)
    requires a != [] && t in prio && forall w :: w in a ==> w in prio
    ensures Earliest(prio, a + [t]) == if prio[t] < prio[Earliest(prio, a)] then t else Earliest(prio, a)
  {
    assert (a + [t])[1..] == a[1..] + [t];
    if |a| > 1 { EarliestSnoc(prio, a[1..], t); }
  }

  /** The first of the line is the one to be granted. */
  lemma {:induction false} LineFirst(prio: map<nat, nat>, a: seq<nat>)
    requires a != [] && forall t :: t in a ==> t in prio
    ensures Line(prio, a)[0] == Earliest(prio, a)
    decreases |a|
  {
    var init, t := a[..|a| - 1], a[|a| - 1];
    assert a == init + [t];
    if init != [] {
      LineFirst(prio, init);
      EarliestSnoc(prio, init, t);
    }
  }

  lemma {:induction false} EnqueueWithout(prio: map<nat, nat>, list: seq<nat>, t: nat, x: nat)
    requires t in prio && Sorted(prio, list)
    ensures Without(Enqueue(prio, list, t), x) ==
      if x == t then Without(list, x) else Enqueue(prio, Without(list, x), t)
  {
    if list != [] {
      EnqueueWithout(prio, list[1..], t, x);
      var w := Without(list, x);
      if prio[t] < prio[list[0]] {
        assert Enqueue(prio, list, t)[1..] == list;
        assert w != [] ==> w[0] in list && (w[0] == list[0] || w[0] in list[1..]);
      } else {
        assert Enqueue(prio, list, t)[1..] == Enqueue(prio, list[1..], t);
        if list[0] != x { assert w[1..] == Without(list[1..], x); }
      }
    }
  }

  /** Taking a thread out of the line is as if it had never come. */
  lemma {:induction false} LineWithout(prio: map<nat, nat>, a: seq<nat>, x: nat)
    requires Distinct(a) && forall t :: t in a ==> t in prio
    ensures Without(Line(prio, a), x) == Line(prio, Without(a, x))
    decreases |a|
  {
    if a != [] {
      var init, t := a[..|a| - 1], a[|a| - 1];
      assert a == init + [t];
      SplitDistinct(init, t);
      LineSorted(prio, init);
      LineWithout(prio, init, x);
      EnqueueWithout(prio, Line(prio, init), t, x);
      WithoutConcat(init, [t], x);
      assert [t][1..] == [];
      var w := Without(a, x);
      if x == t {
        assert Without([t], x) == [] && w == Without(init, x);
      } else {
        assert w == Without(init, x) + [t];
        assert w[..|w| - 1] == Without(init, x);
      }
    }
  }

  // --------------------------------------------------------------------------------
  // What each step does
  // --------------------------------------------------------------------------------

  /** A take is granted at once while the value is positive; otherwise the thread is the last to have
      come, or is refused. */
  lemma TakeDoes(flag: Flag, s: State, t: nat, mayWait: bool)
    requires Inv(flag, s) && Allowed(flag, s, Take(t, mayWait))
    ensures var r := Do(flag, s, Take(t, mayWait));
      && r.released == s.released
      && (s.value > 0 ==> r.value == s.value - 1 && r.granted == s.granted + [t] && r.arrivals == s.arrivals)
      && (s.value == 0 ==> r.value == 0 && r.granted == s.granted)
      && (s.value == 0 && mayWait ==> r.arrivals == s.arrivals + [t])
      && (s.value == 0 && !mayWait ==> r.arrivals == s.arrivals)
  {
  }

  /** A release goes to a waiting thread, the first to have come or the most urgent one, who leaves the
      line and is granted; or raises the value; or is refused at the limit. */
  lemma ReleaseDoes(flag: Flag, s: State)
    requires Inv(flag, s)
    ensures var r := Do(flag, s, Release);
      && (s.arrivals != [] ==>
          exists k: nat :: Chosen(flag, s.arrivals, k) && r.value == 0 && r.granted == s.granted + [s.arrivals[k]]
            && r.arrivals == s.arrivals[..k] + s.arrivals[k + 1..] && r.released == s.released + 1)
      && (s.arrivals == [] && s.value < VALUE_MAX ==>
          r.value == s.value + 1 && r.granted == s.granted && r.arrivals == [] && r.released == s.released + 1)
      && (s.arrivals == [] && s.value == VALUE_MAX ==> r == s)
  {
    if s.arrivals != [] {
      var w := Choice(flag, s.arrivals);
      var k: nat;
      if flag.Prio? {
        k :| 0 <= k < |s.arrivals| && s.arrivals[k] == w
          && forall j :: 0 <= j < k ==> flag.prio[w] < flag.prio[s.arrivals[j]];
      } else {
        k := 0;
      }
      assert Chosen(flag, s.arrivals, k);
      WithoutAt(s.arrivals, k);
    }
  }

  /** Arrival `k` is to be served: nobody has come earlier, or nobody is more urgent and nobody as
      urgent has come earlier. */
  ghost predicate Chosen(flag: Flag, a: seq<nat>, k: nat) {
    && k < |a| && Known(flag, a)
    && match flag
       case Fifo => k == 0
       case Prio(prio) =>
         && (forall j :: 0 <= j < k ==> prio[a[k]] < prio[a[j]])
         && (forall j :: k < j < |a| ==> prio[a[k]] <= prio[a[j]])
  }

  /** A thread whose time is up leaves the line; value and grants stay. */
  lemma TimeoutDoes(flag: Flag, s: State, t: nat)
    requires Inv(flag, s)
    ensures var r := Do(flag, s, Timeout(t));
      && r == s.(arrivals := r.arrivals) && t !in r.arrivals && (t !in s.arrivals ==> r == s)
      && forall k :: 0 <= k < |s.arrivals| && s.arrivals[k] == t ==>
           r.arrivals == s.arrivals[..k] + s.arrivals[k + 1..]
  {
    forall k | 0 <= k < |s.arrivals| && s.arrivals[k] == t
      ensures Do(flag, s, Timeout(t)).arrivals == s.arrivals[..k] + s.arrivals[k + 1..]
    {
      WithoutAt(s.arrivals, k);
    }
  }
}

module Semaphore {
  import opened Lists
  import opened WaitOrder
  import S = SemaphoreSpec

  datatype Answer = Ok | Full | TimedOut | Suspended

  class Sem {
    var value: nat
    var waiters: seq<nat>
    const flag: S.Flag
    ghost var model: S.State

    ghost predicate Valid()
      reads this
    {
      S.Inv(flag, model) && value == model.value && waiters == S.Queue(flag, model.arrivals)
    }

    /** `rt_sem_init`; the value must fit 16 bits */
    constructor (v: nat, f: S.Flag)
      requires v <= S.VALUE_MAX
      ensures Valid() && flag == f && model == S.State(v, [], [], 0)
    {
      value, waiters, flag := v, [], f;
      model := S.State(v, [], [], 0);
    }

    /** `rt_sem_take` up to the point where the thread has the semaphore, has been refused, or
        is suspended; once suspended it is granted by a release. */
    method Take(t: nat, mayWait: bool) returns (r: Answer)
      requires Valid() && S.Allowed(flag, model, S.Take(t, mayWait))
      modifies this
      ensures Valid() && model == S.Do(flag, old(model), S.Take(t, mayWait))
      ensures r == if old(value) > 0 then Ok else if mayWait then Suspended else TimedOut
    {
      S.StepInv(flag, model, S.Take(t, mayWait));
      ghost var before := model;
      model := S.Do(flag, model, S.Take(t, mayWait));
      if value > 0 {
        value := value - 1;
        return Ok;
      }
      if !mayWait {
        return TimedOut;
      }
      match flag {
        case Fifo => waiters := waiters + [t];
        case Prio(prio) =>
          assert model.arrivals[..|model.arrivals| - 1] == before.arrivals;
          waiters := Enqueue(prio, waiters, t);
      }
      r := Suspended;
    }

    /** `rt_sem_release` */
    method Release() returns (r: Answer)
      requires Valid()
      modifies this
      ensures Valid() && model == S.Do(flag, old(model), S.Release)
      ensures r.Full? <==> old(model).arrivals == [] && old(value) == S.VALUE_MAX
    {
      S.StepInv(flag, model, S.Release);
      ServeFirst(flag, model.arrivals);
      model := S.Do(flag, model, S.Release);
      if waiters != [] {
        waiters := waiters[1..];
      } else if value < S.VALUE_MAX {
        value := value + 1;
      } else {
        return Full;
      }
      r := Ok;
    }

    /** `rt_thread_timeout` of a thread that waits here */
    method Timeout(t: nat)
      requires Valid()
      modifies this
      ensures Valid() && model == S.Do(flag, old(model), S.Timeout(t))
    {
      S.StepInv(flag, model, S.Timeout(t));
      if flag.Prio? { S.LineWithout(flag.prio, model.arrivals, t); }
      model := S.Do(flag, model, S.Timeout(t));
      waiters := Without(waiters, t);
    }
  }

  /** The first of the suspend list is the right one to grant, and the others stay in line. */
  lemma ServeFirst(flag: S.Flag, a: seq<nat>)
    requires Distinct(a) && S.Known(flag, a)
    ensures a == [] <==> S.Queue(flag, a) == []
    ensures a != [] ==>
      && S.Queue(flag, a)[0] == S.Choice(flag, a)
      && S.Queue(flag, a)[1..] == S.Queue(flag, Without(a, S.Choice(flag, a)))
  {
    if a != [] {
      WithoutFront(a);
      if flag.Prio? {
        S.LineFirst(flag.prio, a);
        S.LineSorted(flag.prio, a);
        WithoutFront(S.Line(flag.prio, a));
        S.LineWithout(flag.prio, a, S.Line(flag.prio, a)[0]);
      }
    }
  }
}
