/** The recursive mutexes of ipc.c with priority inheritance, over any number of threads and
    mutexes.  Each critical section is one step.
 */
module MutexSpec {
  import opened Wrappers
  import opened Lists
  import opened WaitOrder

  const HOLD_MAX: nat := 0xff
  const VALUE_MAX: nat := 0xffff

  datatype Mutex = Mutex(value: nat, owner: Option<nat>, hold: nat, original: nat, waiters: seq<nat>)

  /** `prio` is the current priority of each thread. */
  datatype State = State(prio: map<nat, nat>, mutexes: seq<Mutex>)

  datatype Step = Take(t: nat, m: nat, mayWait: bool) | Release(t: nat, m: nat) | Timeout(t: nat, m: nat)

  // --------------------------------------------------------------------------------
  // Steps
  // --------------------------------------------------------------------------------

  /** A free mutex has value 1 and nobody holds it or waits for it; a taken one has value 0, an
      owner and a positive count of holds. */
  ghost predicate Agree(prio: map<nat, nat>, x: Mutex) {
    && (forall w :: w in x.waiters ==> w in prio)
    && if x.owner.None? then x.value == 1 && x.hold == 0 && x.waiters == []
       else x.value == 0 && x.owner.value in prio && 1 <= x.hold <= HOLD_MAX
  }

  ghost predicate Basic(s: State) {
    forall m :: 0 <= m < |s.mutexes| ==> Agree(s.prio, s.mutexes[m])
  }

  /** The thread that runs waits for no mutex. */
  ghost predicate Runs(s: State, t: nat) {
    t in s.prio && forall m :: 0 <= m < |s.mutexes| ==> t !in s.mutexes[m].waiters
  }

  ghost predicate Allowed(s: State, step: Step) {
    step.m < |s.mutexes| && (!step.Timeout? ==> Runs(s, step.t))
  }

  function Increment(x: nat, max: nat): nat {
    if x < max then x + 1 else x
  }

  function Do(s: State, step: Step): State
    requires Basic(s) && Allowed(s, step)
  {
    var x := s.mutexes[step.m];
    match step
    case Take(t, m, mayWait) =>
      if x.owner == Some(t) then s.(mutexes := s.mutexes[m := x.(hold := Increment(x.hold, HOLD_MAX))])
      else if x.value > 0 then
        s.(mutexes := s.mutexes[m := x.(value := x.value - 1, owner := Some(t), original := s.prio[t],
                                        hold := Increment(x.hold, HOLD_MAX))])
      else if !mayWait then s
      else
        var prio := Boost(s.prio, t, x.owner.value);
        State(prio, s.mutexes[m := x.(waiters := Enqueue(prio, x.waiters, t))])
    case Release(t, m) =>
      if x.owner != Some(t) then s
      else if x.hold > 1 then s.(mutexes := s.mutexes[m := x.(hold := x.hold - 1)])
      else
        var prio := s.prio[t := x.original];
        State(prio, s.mutexes[m := PassedOn(prio, x)])
    case Timeout(t, m) => s.(mutexes := s.mutexes[m := x.(waiters := Without(x.waiters, t))])
  }

  /** The owner takes over the priority of a more urgent waiter. */
  function Boost(prio: map<nat, nat>, t: nat, owner: nat): map<nat, nat>
    requires t in prio && owner in prio
  {
    if prio[t] < prio[owner] then prio[owner := prio[t]] else prio
  }

  /** The last release: the first waiter becomes the owner, or the mutex is free. */
  function PassedOn(prio: map<nat, nat>, x: Mutex): Mutex
    requires forall w :: w in x.waiters ==> w in prio
  {
    if x.waiters != [] then
      var w := x.waiters[0];
      assert w in x.waiters;
      x.(owner := Some(w), original := prio[w], hold := 1, waiters := x.waiters[1..])
    else x.(value := Increment(x.value, VALUE_MAX), owner := None, original := 0xff, hold := 0)
  }

  // --------------------------------------------------------------------------------
  // What holds in all runs
  // --------------------------------------------------------------------------------

  /** Value, owner and hold always agree, nested or not. */
  lemma StepBasic(s: State, step: Step)
    requires Basic(s) && Allowed(s, step)
    ensures Basic(Do(s, step)) && Do(s, step).prio.Keys == s.prio.Keys
    ensures |Do(s, step).mutexes| == |s.mutexes|
  {
    var r := Do(s, step);
    assert Agree(s.prio, s.mutexes[step.m]);
    forall k | 0 <= k < |r.mutexes| ensures Agree(r.prio, r.mutexes[k]) {
      assert Agree(s.prio, s.mutexes[k]);
    }
  }

  /** The three overflow exits that follow a first take and a last release are never taken. */
  lemma NoOverflow(s: State, m: nat)
    requires Basic(s) && m < |s.mutexes|
    ensures s.mutexes[m].value > 0 ==> s.mutexes[m].hold < HOLD_MAX
    ensures s.mutexes[m].owner.Some? ==> s.mutexes[m].value < VALUE_MAX && s.mutexes[m].hold - 1 < HOLD_MAX
  {
    assert Agree(s.prio, s.mutexes[m]);
  }

  /** The owner of mutex `m` is at least as urgent as everyone who waits for it. */
  ghost predicate Urgent(s: State, m: nat)
    requires m < |s.mutexes|
  {
    var x := s.mutexes[m];
    x.owner.Some? ==>
      (x.owner.value in s.prio && forall w :: w in x.waiters ==> w in s.prio && s.prio[x.owner.value] <= s.prio[w])
  }

  ghost predicate AllUrgent(s: State) {
    forall m :: 0 <= m < |s.mutexes| ==> Urgent(s, m)
  }

  ghost predicate Ordered(s: State) {
    forall m :: 0 <= m < |s.mutexes| ==> Sorted(s.prio, s.mutexes[m].waiters)
  }

  /** Restoring the priority saved by `m` is harmless to the other mutexes of `t`. */
  ghost predicate RestoreHarmless(s: State, t: nat, m: nat)
    requires m < |s.mutexes|
  {
    forall k :: 0 <= k < |s.mutexes| && k != m && s.mutexes[k].owner == Some(t) ==> AtLeast(s, s.mutexes[m].original, k)
  }

  ghost predicate AtLeast(s: State, p: nat, k: nat)
    requires k < |s.mutexes|
  {
    forall w :: w in s.mutexes[k].waiters ==> w in s.prio && p <= s.prio[w]
  }

  /** The first waiter, who is to become the owner, is at least as urgent as all the others. */
  ghost predicate HeadUrgent(s: State, m: nat)
    requires m < |s.mutexes|
  {
    var q := s.mutexes[m].waiters;
    q != [] ==> q[0] in s.prio && forall w :: w in q[1..] ==> w in s.prio && s.prio[q[0]] <= s.prio[w]
  }

  /** A last release keeps all owners urgent enough if and only if the priority saved at
      acquisition suffices for every other mutex the thread still holds, and the waiter that is
      first in line is a most urgent one. */
  lemma ReleaseKeepsUrgent(s: State, t: nat, m: nat)
    requires Basic(s) && AllUrgent(s) && Allowed(s, Release(t, m))
    requires s.mutexes[m].owner == Some(t) && s.mutexes[m].hold == 1
    ensures AllUrgent(Do(s, Release(t, m))) <==> RestoreHarmless(s, t, m) && HeadUrgent(s, m)
  {
    var r := Do(s, Release(t, m));
    var q := s.mutexes[m].waiters;
    assert Agree(s.prio, s.mutexes[m]);
    assert q != [] ==> q[0] in q && forall w :: w in q[1..] ==> w in q;
    forall k | 0 <= k < |s.mutexes|
      ensures Urgent(r, k) <==>
        if k == m then HeadUrgent(s, m)
        else s.mutexes[k].owner == Some(t) ==> AtLeast(s, s.mutexes[m].original, k)
    {
      assert Agree(s.prio, s.mutexes[k]) && Urgent(s, k);
    }
    if RestoreHarmless(s, t, m) && HeadUrgent(s, m) {
      forall k | 0 <= k < |s.mutexes| ensures Urgent(r, k) {
        assert k != m && s.mutexes[k].owner == Some(t) ==> AtLeast(s, s.mutexes[m].original, k);
      }
    }
  }

  /** Only boosts can put a list out of order: releases and timeouts keep every list ordered. */
  lemma OthersKeepOrder(s: State, step: Step)
    requires Basic(s) && Ordered(s) && Allowed(s, step) && !step.Take?
    ensures Ordered(Do(s, step))
  {
    var r := Do(s, step);
    forall k | 0 <= k < |r.mutexes| ensures Sorted(r.prio, r.mutexes[k].waiters) {
      assert Sorted(s.prio, s.mutexes[k].waiters);
      if step.Release? { SortedFrame(s.prio, s.mutexes[k].waiters, step.t, s.mutexes[step.m].original); }
      if step.Timeout? { SortedWithout(s.prio, s.mutexes[k].waiters, step.t); }
    }
  }

  /** Nobody ahead of `o` in the list of mutex `k` is less urgent than `p`. */
  ghost predicate FitsAhead(s: State, p: nat, o: nat, k: nat)
    requires k < |s.mutexes|
  {
    FitsIn(s.prio, s.mutexes[k].waiters, p, o)
  }

  ghost predicate FitsIn(prio: map<nat, nat>, list: seq<nat>, p: nat, o: nat) {
    forall i, j :: 0 <= i < j < |list| && list[j] == o && list[i] != o ==> list[i] in prio && prio[list[i]] <= p
  }

  /** Raising `o` to the more urgent priority `p` where it stands. */
  lemma BoostSorted(prio: map<nat, nat>, list: seq<nat>, o: nat, p: nat)
    requires Sorted(prio, list) && o in prio && p < prio[o]
    ensures Sorted(prio[o := p], list) <==> FitsIn(prio, list, p, o)
  {
    SortedMeans(prio, list);
    if FitsIn(prio, list, p, o) {
      FittingBoost(prio, list, o, p);
    } else {
      var i, j :| 0 <= i < j < |list| && list[j] == o && list[i] != o && !(list[i] in prio && prio[list[i]] <= p);
      Overtaken(prio, list, o, p, i, j);
    }
  }

  lemma FittingBoost(prio: map<nat, nat>, list: seq<nat>, o: nat, p: nat)
    requires Sorted(prio, list) && o in prio && p < prio[o] && FitsIn(prio, list, p, o)
    ensures Sorted(prio[o := p], list)
  {
    SortedMeans(prio, list);
    SortedMeans(prio[o := p], list);
    forall i, j | 0 <= i < j < |list| ensures prio[o := p][list[i]] <= prio[o := p][list[j]] { }
  }

  lemma Overtaken(prio: map<nat, nat>, list: seq<nat>, o: nat, p: nat, i: nat, j: nat)
    requires i < j < |list| && list[j] == o && list[i] != o && list[i] in prio && p < prio[list[i]]
    ensures !Sorted(prio[o := p], list)
  {
    SortedMeans(prio[o := p], list);
    assert prio[o := p][list[i]] > prio[o := p][list[j]];
  }

  /** Waiting for `m` keeps every list in order if and only if the owner, if it is boosted, does
      not overtake anyone ahead of it in a list where it waits itself: it is not moved. */
  lemma WaitKeepsOrder(s: State, t: nat, m: nat)
    requires Basic(s) && Ordered(s) && Allowed(s, Take(t, m, true))
    requires s.mutexes[m].owner.Some? && s.mutexes[m].owner != Some(t)
    ensures s.mutexes[m].owner.value in s.prio
    ensures var o := s.mutexes[m].owner.value;
      Ordered(Do(s, Take(t, m, true))) <==>
      (s.prio[t] < s.prio[o] ==> forall k :: 0 <= k < |s.mutexes| ==> FitsAhead(s, s.prio[t], o, k))
  {
    assert Agree(s.prio, s.mutexes[m]);
    var r, o := Do(s, Take(t, m, true)), s.mutexes[m].owner.value;
    forall k | 0 <= k < |s.mutexes|
      ensures Sorted(r.prio, r.mutexes[k].waiters) <==> (s.prio[t] < s.prio[o] ==> FitsAhead(s, s.prio[t], o, k))
    {
      assert Sorted(s.prio, s.mutexes[k].waiters);
      if s.prio[t] < s.prio[o] { BoostSorted(s.prio, s.mutexes[k].waiters, o, s.prio[t]); }
      if k == m { EnqueueSortedIff(r.prio, s.mutexes[m].waiters, t); }
    }
    if Ordered(r) {
      forall k | 0 <= k < |s.mutexes| && s.prio[t] < s.prio[o] ensures FitsAhead(s, s.prio[t], o, k) {
        assert Sorted(r.prio, r.mutexes[k].waiters);
      }
    } else {
      var k :| 0 <= k < |r.mutexes| && !Sorted(r.prio, r.mutexes[k].waiters);
      assert s.prio[t] < s.prio[o] && !FitsAhead(s, s.prio[t], o, k);
    }
  }

  /** Waiting for `m` keeps all owners urgent enough if and only if its owner, if it is boosted,
      does not itself wait behind a less urgent owner: boosts are not passed on. */
  lemma WaitKeepsUrgent(s: State, t: nat, m: nat)
    requires Basic(s) && AllUrgent(s) && Allowed(s, Take(t, m, true))
    requires s.mutexes[m].owner.Some? && s.mutexes[m].owner != Some(t)
    ensures AllUrgent(Do(s, Take(t, m, true))) <==>
      forall k :: 0 <= k < |s.mutexes| ==> BoostHarmless(s, t, s.mutexes[m].owner.value, k)
  {
    var r, o := Do(s, Take(t, m, true)), s.mutexes[m].owner.value;
    assert Agree(s.prio, s.mutexes[m]);
    forall k | 0 <= k < |s.mutexes| ensures Urgent(r, k) <==> BoostHarmless(s, t, o, k) {
      assert Agree(s.prio, s.mutexes[k]) && Urgent(s, k);
    }
  }

  ghost predicate BoostHarmless(s: State, t: nat, o: nat, k: nat)
    requires k < |s.mutexes| && t in s.prio && o in s.prio
  {
    var x := s.mutexes[k];
    s.prio[t] < s.prio[o] && o in x.waiters && x.owner.Some? && x.owner.value in s.prio && x.owner.value != o ==>
      s.prio[x.owner.value] <= s.prio[t]
  }

  // --------------------------------------------------------------------------------
  // Runs in which no thread takes a second mutex
  // --------------------------------------------------------------------------------

  datatype Doing = Idle | Owns(m: nat) | Waits(m: nat)

  /** The priority each thread started with, and what it is doing. */
  datatype Ledger = Ledger(base: map<nat, nat>, doing: map<nat, Doing>)

  ghost predicate Disciplined(s: State, l: Ledger, step: Step) {
    Allowed(s, step) && (step.Take? && step.t in l.doing ==> l.doing[step.t] == Idle || l.doing[step.t] == Owns(step.m))
  }

  ghost function Next(s: State, l: Ledger, step: Step): Ledger
    requires Basic(s) && Allowed(s, step)
  {
    var x := s.mutexes[step.m];
    match step
    case Take(t, m, mayWait) =>
      if x.owner == Some(t) then l
      else if x.value > 0 then l.(doing := l.doing[t := Owns(m)])
      else if !mayWait then l
      else l.(doing := l.doing[t := Waits(m)])
    case Release(t, m) =>
      if x.owner != Some(t) || x.hold > 1 then l
      else if x.waiters == [] then l.(doing := l.doing[t := Idle])
      else l.(doing := l.doing[t := Idle][x.waiters[0] := Owns(m)])
    case Timeout(t, m) => if t in x.waiters then l.(doing := l.doing[t := Idle]) else l
  }

  /** A thread that owns nothing has its own priority; an owner has that or a better one, and
      its mutex remembers the right one. */
  ghost predicate ThreadOk(s: State, l: Ledger, t: nat)
    requires t in s.prio && t in l.base && t in l.doing
  {
    match l.doing[t]
    case Idle => s.prio[t] == l.base[t]
    case Owns(m) =>
      && m < |s.mutexes| && s.mutexes[m].owner == Some(t) && s.mutexes[m].original == l.base[t]
      && s.prio[t] <= l.base[t]
    case Waits(m) => m < |s.mutexes| && t in s.mutexes[m].waiters && s.prio[t] == l.base[t]
  }

  ghost predicate MutexOk(s: State, l: Ledger, m: nat)
    requires m < |s.mutexes|
  {
    var x := s.mutexes[m];
    && Agree(s.prio, x) && Urgent(s, m) && Distinct(x.waiters) && Sorted(s.prio, x.waiters)
    && (x.owner.Some? ==> x.owner.value in l.doing && l.doing[x.owner.value] == Owns(m))
    && (forall w :: w in x.waiters ==> w in l.doing && l.doing[w] == Waits(m))
  }

  ghost predicate Inv(s: State, l: Ledger) {
    && l.base.Keys == l.doing.Keys == s.prio.Keys
    && (forall t :: t in s.prio ==> ThreadOk(s, l, t))
    && (forall m :: 0 <= m < |s.mutexes| ==> MutexOk(s, l, m))
  }

  lemma InvBasic(s: State, l: Ledger)
    requires Inv(s, l)
    ensures Basic(s) && AllUrgent(s) && Ordered(s)
  {
    forall m | 0 <= m < |s.mutexes| ensures Agree(s.prio, s.mutexes[m]) && Urgent(s, m) { assert MutexOk(s, l, m); }
    forall m | 0 <= m < |s.mutexes| ensures Sorted(s.prio, s.mutexes[m].waiters) { assert MutexOk(s, l, m); }
  }

  lemma WaitThread(s: State, l: Ledger, t: nat, m: nat, u: nat)
    requires Inv(s, l) && Basic(s) && Disciplined(s, l, Take(t, m, true)) && s.mutexes[m].value == 0 && u in s.prio
    ensures var r := Do(s, Take(t, m, true)); u in r.prio && ThreadOk(r, Next(s, l, Take(t, m, true)), u)
  {
    assert MutexOk(s, l, m) && ThreadOk(s, l, t) && ThreadOk(s, l, u) && ThreadOk(s, l, s.mutexes[m].owner.value);
  }

  lemma WaitMutex(s: State, l: Ledger, t: nat, m: nat, k: nat)
    requires Inv(s, l) && Basic(s) && Disciplined(s, l, Take(t, m, true)) && s.mutexes[m].value == 0 && k < |s.mutexes|
    ensures MutexOk(Do(s, Take(t, m, true)), Next(s, l, Take(t, m, true)), k)
  {
    var prio, x := Do(s, Take(t, m, true)).prio, s.mutexes[m];
    var o := x.owner.value;
    assert MutexOk(s, l, m) && MutexOk(s, l, k) && ThreadOk(s, l, t) && ThreadOk(s, l, o);
    SortedFrame(s.prio, s.mutexes[k].waiters, o, s.prio[t]);
    if k == m && o != t { EnqueueSorted(prio, x.waiters, t); }
  }

  lemma TakeInv(s: State, l: Ledger, t: nat, m: nat)
    requires Inv(s, l) && Basic(s) && Disciplined(s, l, Take(t, m, true)) && s.mutexes[m].value == 0
    ensures Inv(Do(s, Take(t, m, true)), Next(s, l, Take(t, m, true)))
  {
    var r, n := Do(s, Take(t, m, true)), Next(s, l, Take(t, m, true));
    forall u | u in r.prio ensures ThreadOk(r, n, u) { WaitThread(s, l, t, m, u); }
    forall k | 0 <= k < |r.mutexes| ensures MutexOk(r, n, k) { WaitMutex(s, l, t, m, k); }
  }

  lemma FirstTakeInv(s: State, l: Ledger, t: nat, m: nat, mayWait: bool)
    requires Inv(s, l) && Basic(s) && Disciplined(s, l, Take(t, m, mayWait)) && s.mutexes[m].value > 0
    ensures Inv(Do(s, Take(t, m, mayWait)), Next(s, l, Take(t, m, mayWait)))
  {
    var r, n := Do(s, Take(t, m, mayWait)), Next(s, l, Take(t, m, mayWait));
    assert MutexOk(s, l, m) && ThreadOk(s, l, t);
    forall u | u in r.prio ensures ThreadOk(r, n, u) { assert ThreadOk(s, l, u); }
    forall k | 0 <= k < |r.mutexes| ensures MutexOk(r, n, k) { assert MutexOk(s, l, k); }
  }

  lemma ReleaseThread(s: State, l: Ledger, t: nat, m: nat, u: nat)
    requires Inv(s, l) && Basic(s) && Disciplined(s, l, Release(t, m)) && u in s.prio
    ensures var r := Do(s, Release(t, m)); u in r.prio && ThreadOk(r, Next(s, l, Release(t, m)), u)
  {
    var x := s.mutexes[m];
    assert MutexOk(s, l, m) && ThreadOk(s, l, t) && ThreadOk(s, l, u);
    assert x.waiters != [] ==> x.waiters[0] in x.waiters;
  }

  lemma ReleaseMutex(s: State, l: Ledger, t: nat, m: nat, k: nat)
    requires Inv(s, l) && Basic(s) && Disciplined(s, l, Release(t, m)) && k < |s.mutexes|
    ensures MutexOk(Do(s, Release(t, m)), Next(s, l, Release(t, m)), k)
  {
    var x := s.mutexes[m];
    assert MutexOk(s, l, m) && MutexOk(s, l, k) && ThreadOk(s, l, t);
    SortedFrame(s.prio, s.mutexes[k].waiters, t, x.original);
    if k == m {
      if x.waiters != [] { assert x.waiters[0] in x.waiters; }
    } else {
      assert Do(s, Release(t, m)).mutexes[k] == s.mutexes[k];
    }
  }

  lemma ReleaseInv(s: State, l: Ledger, t: nat, m: nat)
    requires Inv(s, l) && Basic(s) && Disciplined(s, l, Release(t, m))
    ensures Inv(Do(s, Release(t, m)), Next(s, l, Release(t, m)))
  {
    var r, n := Do(s, Release(t, m)), Next(s, l, Release(t, m));
    StepBasic(s, Release(t, m));
    assert MutexOk(s, l, m);
    forall u | u in r.prio ensures u in n.base && u in n.doing && ThreadOk(r, n, u) { ReleaseThread(s, l, t, m, u); }
    forall k | 0 <= k < |r.mutexes| ensures MutexOk(r, n, k) { ReleaseMutex(s, l, t, m, k); }
  }

  lemma TimeoutMutex(s: State, l: Ledger, t: nat, m: nat, k: nat)
    requires Inv(s, l) && Basic(s) && Disciplined(s, l, Timeout(t, m)) && k < |s.mutexes|
    ensures MutexOk(Do(s, Timeout(t, m)), Next(s, l, Timeout(t, m)), k)
  {
    assert MutexOk(s, l, m) && MutexOk(s, l, k);
    SortedWithout(s.prio, s.mutexes[m].waiters, t);
  }

  lemma TimeoutThread(s: State, l: Ledger, t: nat, m: nat, u: nat)
    requires Inv(s, l) && Basic(s) && Disciplined(s, l, Timeout(t, m)) && u in s.prio
    ensures ThreadOk(Do(s, Timeout(t, m)), Next(s, l, Timeout(t, m)), u)
  {
    assert MutexOk(s, l, m) && ThreadOk(s, l, u);
  }

  lemma TimeoutInv(s: State, l: Ledger, t: nat, m: nat)
    requires Inv(s, l) && Basic(s) && Disciplined(s, l, Timeout(t, m))
    ensures Inv(Do(s, Timeout(t, m)), Next(s, l, Timeout(t, m)))
  {
    var r, n := Do(s, Timeout(t, m)), Next(s, l, Timeout(t, m));
    assert MutexOk(s, l, m);
    forall u | u in r.prio ensures ThreadOk(r, n, u) { TimeoutThread(s, l, t, m, u); }
    forall k | 0 <= k < |r.mutexes| ensures MutexOk(r, n, k) { TimeoutMutex(s, l, t, m, k); }
  }

  lemma StepInv(s: State, l: Ledger, step: Step)
    requires Inv(s, l) && Basic(s) && Disciplined(s, l, step)
    ensures Inv(Do(s, step), Next(s, l, step))
  {
    match step
    case Take(t, m, mayWait) =>
      assert MutexOk(s, l, m);
      if s.mutexes[m].value > 0 {
        FirstTakeInv(s, l, t, m, mayWait);
      } else if mayWait || s.mutexes[m].owner == Some(t) {
        TakeInv(s, l, t, m);
      }
    case Release(t, m) => ReleaseInv(s, l, t, m);
    case Timeout(t, m) => TimeoutInv(s, l, t, m);
  }

  ghost predicate DisciplinedRun(s: State, l: Ledger, steps: seq<Step>)
    requires Basic(s)
    decreases |steps|
  {
    steps == [] ||
    (&& Disciplined(s, l, steps[0])
     && (StepBasic(s, steps[0]); DisciplinedRun(Do(s, steps[0]), Next(s, l, steps[0]), steps[1..])))
  }

  ghost predicate AllowedRun(s: State, steps: seq<Step>)
    requires Basic(s)
    decreases |steps|
  {
    steps == [] || (Allowed(s, steps[0]) && (StepBasic(s, steps[0]); AllowedRun(Do(s, steps[0]), steps[1..])))
  }

  ghost function Run(s: State, steps: seq<Step>): (r: State)
    requires Basic(s) && AllowedRun(s, steps)
    ensures Basic(r)
    decreases |steps|
  {
    if steps == [] then s else StepBasic(s, steps[0]); Run(Do(s, steps[0]), steps[1..])
  }

  ghost function RunLedger(s: State, l: Ledger, steps: seq<Step>): Ledger
    requires Basic(s) && AllowedRun(s, steps)
    decreases |steps|
  {
    if steps == [] then l else StepBasic(s, steps[0]); RunLedger(Do(s, steps[0]), Next(s, l, steps[0]), steps[1..])
  }

  lemma {:induction false} RunInv(s: State, l: Ledger, steps: seq<Step>)
    requires Inv(s, l) && Basic(s) && DisciplinedRun(s, l, steps)
    ensures AllowedRun(s, steps) && Inv(Run(s, steps), RunLedger(s, l, steps)) && RunLedger(s, l, steps).base == l.base
    decreases |steps|
  {
    if steps != [] {
      StepBasic(s, steps[0]);
      StepInv(s, l, steps[0]);
      RunInv(Do(s, steps[0]), Next(s, l, steps[0]), steps[1..]);
    }
  }

  /** All mutexes as `rt_mutex_init` leaves them. */
  ghost predicate Initial(s: State) {
    forall m :: 0 <= m < |s.mutexes| ==> s.mutexes[m] == Mutex(1, None, 0, 0xff, [])
  }

  ghost function Fresh(s: State): Ledger {
    Ledger(s.prio, map t | t in s.prio :: Idle)
  }

  lemma InitialInv(s: State)
    requires Initial(s)
    ensures Basic(s) && Inv(s, Fresh(s))
  {
    forall m | 0 <= m < |s.mutexes| ensures Agree(s.prio, s.mutexes[m]) && MutexOk(s, Fresh(s), m) { }
    forall t | t in s.prio ensures ThreadOk(s, Fresh(s), t) { }
  }

  /** In every state that disciplined runs reach, owners are at least as urgent as all who wait,
      a thread that owns no mutex runs at the priority it started with, and an owner at that
      priority or a more urgent one. */
  lemma InheritanceHolds(s: State, steps: seq<Step>, t: nat)
    requires Initial(s) && Basic(s) && DisciplinedRun(s, Fresh(s), steps) && t in s.prio
    ensures AllowedRun(s, steps) && AllUrgent(Run(s, steps))
    ensures var r := Run(s, steps);
      && t in r.prio && r.prio[t] <= s.prio[t]
      && ((forall m :: 0 <= m < |r.mutexes| ==> r.mutexes[m].owner != Some(t)) ==> r.prio[t] == s.prio[t])
  {
    InitialInv(s);
    RunInv(s, Fresh(s), steps);
    var r, l := Run(s, steps), RunLedger(s, Fresh(s), steps);
    InvBasic(r, l);
    assert ThreadOk(r, l, t);
  }

  /** The last release puts the owner back at the priority it acquired the mutex with. */
  lemma LastReleaseRestores(s: State, l: Ledger, t: nat, m: nat)
    requires Inv(s, l) && Basic(s) && Disciplined(s, l, Release(t, m))
    requires s.mutexes[m].owner == Some(t) && s.mutexes[m].hold == 1
    ensures Do(s, Release(t, m)).prio == s.prio[t := l.base[t]]
    ensures s.mutexes[m].waiters != [] ==>
      var w := s.mutexes[m].waiters[0];
      && Do(s, Release(t, m)).mutexes[m].owner == Some(w) && w in s.prio
      && forall v :: v in s.mutexes[m].waiters ==> s.prio[w] <= s.prio[v]
  {
    assert MutexOk(s, l, m) && ThreadOk(s, l, t);
    var q := s.mutexes[m].waiters;
    if q != [] {
      assert q[0] in q;
      forall v | v in q ensures s.prio[q[0]] <= s.prio[v] { assert v == q[0] || v in q[1..]; }
    }
  }

  /** A run with nesting: thread 0 takes mutexes 0 and 1, the more urgent thread 1 waits for
      mutex 0, and thread 0 releases mutex 1. */
  function NestedStep(k: nat): Step {
    if k == 0 then Take(0, 0, true) else if k == 1 then Take(0, 1, true)
    else if k == 2 then Take(1, 0, true) else Release(0, 1)
  }

  function NestedState(k: nat): State {
    var free, held := Mutex(1, None, 0, 0xff, []), Mutex(0, Some(0), 1, 20, []);
    if k == 0 then State(map[0 := 20, 1 := 5], [free, free])
    else if k == 1 then State(map[0 := 20, 1 := 5], [held, free])
    else if k == 2 then State(map[0 := 20, 1 := 5], [held, held])
    else if k == 3 then State(map[0 := 5, 1 := 5], [held.(waiters := [1]), held])
    else State(map[0 := 20, 1 := 5], [held.(waiters := [1]), free])
  }

  /** The last step takes the inherited priority away although thread 1 still waits. */
  lemma NestingBreaksInheritance(k: nat)
    requires k < 4
    ensures Initial(NestedState(0)) && Basic(NestedState(k)) && Allowed(NestedState(k), NestedStep(k))
    ensures Do(NestedState(k), NestedStep(k)) == NestedState(k + 1)
    ensures k < 3 || !AllUrgent(NestedState(k + 1))
  {
    assert k == 3 ==> !Urgent(NestedState(4), 0) by { assert 1 in NestedState(4).mutexes[0].waiters; }
  }

  /** Another run with nesting: thread 1 waits for mutex 1 ahead of thread 0, thread 0 is boosted
      where it stands, and thread 3 releases mutex 1. */
  function HandOverStep(k: nat): Step {
    if k == 0 then Take(0, 0, true) else if k == 1 then Take(3, 1, true) else if k == 2 then Take(1, 1, true)
    else if k == 3 then Take(0, 1, true) else if k == 4 then Take(2, 0, true) else Release(3, 1)
  }

  function HandOverState(k: nat): State {
    var free, first := Mutex(1, None, 0, 0xff, []), Mutex(0, Some(0), 1, 20, []);
    var prio, boosted := map[0 := 20, 1 := 10, 2 := 5, 3 := 3], map[0 := 5, 1 := 10, 2 := 5, 3 := 3];
    var second := Mutex(0, Some(3), 1, 3, []);
    if k == 0 then State(prio, [free, free])
    else if k == 1 then State(prio, [first, free])
    else if k == 2 then State(prio, [first, second])
    else if k == 3 then State(prio, [first, second.(waiters := [1])])
    else if k == 4 then State(prio, [first, second.(waiters := [1, 0])])
    else if k == 5 then State(boosted, [first.(waiters := [2]), second.(waiters := [1, 0])])
    else State(boosted, [first.(waiters := [2]), Mutex(0, Some(1), 1, 10, [0])])
  }

  lemma HandOverRun(k: nat)
    requires k < 6
    ensures Initial(HandOverState(0)) && Basic(HandOverState(k)) && Allowed(HandOverState(k), HandOverStep(k))
    ensures Do(HandOverState(k), HandOverStep(k)) == HandOverState(k + 1)
  {
    HandOverAllowed(k);
    if k < 3 { HandOverFirst(k); } else { HandOverRest(k); }
  }

  lemma HandOverAllowed(k: nat)
    requires k < 6
    ensures Initial(HandOverState(0)) && Basic(HandOverState(k)) && Allowed(HandOverState(k), HandOverStep(k))
  {
  }

  lemma HandOverFirst(k: nat)
    requires k < 3 && Allowed(HandOverState(k), HandOverStep(k))
    ensures Do(HandOverState(k), HandOverStep(k)) == HandOverState(k + 1)
  {
  }

  lemma HandOverRest(k: nat)
    requires 3 <= k < 6 && Allowed(HandOverState(k), HandOverStep(k))
    ensures Do(HandOverState(k), HandOverStep(k)) == HandOverState(k + 1)
  {
    if k == 3 { assert [1, 0] == [1] + [0]; }
    if k == 5 { assert [1, 0][1..] == [0]; }
  }

  /** Before the last step every owner is urgent enough and the saved priority is harmless; after
      it thread 1 owns mutex 1 while the more urgent thread 0 waits, because the list was out of
      order. */
  lemma UnorderedHandOver()
    ensures AllUrgent(HandOverState(5)) && RestoreHarmless(HandOverState(5), 3, 1) && !HeadUrgent(HandOverState(5), 1)
    ensures !AllUrgent(HandOverState(6))
  {
    assert 0 in [1, 0][1..] && !Urgent(HandOverState(6), 1) by { assert 0 in HandOverState(6).mutexes[1].waiters; }
  }
}
