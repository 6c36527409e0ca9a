/** What the steps of the mutexes of ipc.c do to owner, hold count, priorities and waiters, and how
    takes and releases balance over a run.
 */
module MutexEffects {
  import opened Wrappers
  import opened Lists
  import opened WaitOrder
  import opened MutexSpec

  // --------------------------------------------------------------------------------
  // Single steps
  // --------------------------------------------------------------------------------

  /** All mutexes but `m` are as they were. */
  ghost predicate OthersAlike(s: State, r: State, m: nat) {
    |r.mutexes| == |s.mutexes| && forall k :: 0 <= k < |s.mutexes| && k != m ==> r.mutexes[k] == s.mutexes[k]
  }

  /** All priorities but that of `t` are as they were. */
  ghost predicate OtherPriorities(s: State, r: State, t: nat) {
    r.prio.Keys == s.prio.Keys && forall u :: u in s.prio && u != t ==> r.prio[u] == s.prio[u]
  }

  /** A free mutex becomes the thread's, held once, with the thread's priority saved. */
  lemma TakeFree(s: State, t: nat, m: nat, mayWait: bool)
    requires Basic(s) && Allowed(s, Take(t, m, mayWait)) && s.mutexes[m].owner.None?
    ensures var r := Do(s, Take(t, m, mayWait));
      && r.prio == s.prio && OthersAlike(s, r, m)
      && r.mutexes[m].owner == Some(t) && r.mutexes[m].hold == 1 && r.mutexes[m].original == s.prio[t]
      && r.mutexes[m].waiters == []
  {
    assert Agree(s.prio, s.mutexes[m]);
  }

  /** The owner's take counts once more and changes nothing else; at the limit it is refused. */
  lemma TakeAgain(s: State, t: nat, m: nat, mayWait: bool)
    requires Basic(s) && Allowed(s, Take(t, m, mayWait)) && s.mutexes[m].owner == Some(t)
    ensures var r := Do(s, Take(t, m, mayWait));
      && r.prio == s.prio && OthersAlike(s, r, m)
      && r.mutexes[m].(hold := s.mutexes[m].hold) == s.mutexes[m]
      && r.mutexes[m].hold - s.mutexes[m].hold == if s.mutexes[m].hold < HOLD_MAX then 1 else 0
  {
    assert Agree(s.prio, s.mutexes[m]);
  }

  /** A thread that finds the mutex taken and may not wait changes nothing. */
  lemma TakeRefused(s: State, t: nat, m: nat)
    requires Basic(s) && Allowed(s, Take(t, m, false))
    requires s.mutexes[m].owner.Some? && s.mutexes[m].owner != Some(t)
    ensures Do(s, Take(t, m, false)) == s
  {
    assert Agree(s.prio, s.mutexes[m]);
  }

  /** One that may wait is put in the list, behind everyone at least as urgent; the owner is boosted
      to its priority, if that is more urgent, and owner and hold stay. */
  lemma TakeWaits(s: State, t: nat, m: nat)
    requires Basic(s) && Allowed(s, Take(t, m, true))
    requires s.mutexes[m].owner.Some? && s.mutexes[m].owner != Some(t)
    ensures var r, x := Do(s, Take(t, m, true)), s.mutexes[m];
      && x.owner.value in s.prio && OthersAlike(s, r, m) && OtherPriorities(s, r, x.owner.value)
      && r.prio[x.owner.value] == (if s.prio[t] < s.prio[x.owner.value] then s.prio[t] else s.prio[x.owner.value])
      && r.mutexes[m].(waiters := x.waiters) == x
      && r.mutexes[m].waiters == Enqueue(r.prio, x.waiters, t) && t in r.mutexes[m].waiters
  {
    assert Agree(s.prio, s.mutexes[m]);
    var r := Do(s, Take(t, m, true));
    EnqueueHas(r.prio, s.mutexes[m].waiters, t);
  }

  lemma {:induction false} EnqueueHas(prio: map<nat, nat>, list: seq<nat>, t: nat)
    requires t in prio && forall w :: w in list ==> w in prio
    ensures forall w :: w in Enqueue(prio, list, t) <==> w in list || w == t
  {
    if list != [] { EnqueueHas(prio, list[1..], t); }
  }

  /** Nobody but the owner can release. */
  lemma ReleaseRefused(s: State, t: nat, m: nat)
    requires Basic(s) && Allowed(s, Release(t, m)) && s.mutexes[m].owner != Some(t)
    ensures Do(s, Release(t, m)) == s
  {
  }

  /** A release that is not the last counts down and changes nothing else. */
  lemma ReleaseCounts(s: State, t: nat, m: nat)
    requires Basic(s) && Allowed(s, Release(t, m)) && s.mutexes[m].owner == Some(t) && s.mutexes[m].hold > 1
    ensures var r := Do(s, Release(t, m));
      && r.prio == s.prio && OthersAlike(s, r, m) && r.mutexes[m].owner == Some(t)
      && r.mutexes[m].hold + 1 == s.mutexes[m].hold && r.mutexes[m].(hold := s.mutexes[m].hold) == s.mutexes[m]
  {
  }

  /** The last release gives the mutex up: to the first waiter, who then holds it once and leaves the
      list, or to nobody.  The thread is back at the priority it had when it took the mutex. */
  lemma ReleaseLast(s: State, t: nat, m: nat)
    requires Basic(s) && Allowed(s, Release(t, m)) && s.mutexes[m].owner == Some(t) && s.mutexes[m].hold == 1
    ensures var r, x := Do(s, Release(t, m)), s.mutexes[m];
      && OthersAlike(s, r, m) && OtherPriorities(s, r, t) && r.prio[t] == x.original
      && r.mutexes[m].owner != Some(t)
      && (x.waiters == [] ==> r.mutexes[m] == Mutex(1, None, 0, 0xff, []))
      && (x.waiters != [] ==>
          && r.mutexes[m].owner == Some(x.waiters[0]) && r.mutexes[m].hold == 1
          && r.mutexes[m].waiters == x.waiters[1..] && r.mutexes[m].original == s.prio[x.waiters[0]])
  {
    var x := s.mutexes[m];
    assert Agree(s.prio, x);
    if x.waiters != [] { assert x.waiters[0] in x.waiters; }
  }

  /** A waiter whose time is up leaves the list; the others keep their order, and a boost stays. */
  lemma TimeoutLeaves(s: State, t: nat, m: nat)
    requires Basic(s) && Allowed(s, Timeout(t, m))
    ensures var r, x := Do(s, Timeout(t, m)), s.mutexes[m];
      && r.prio == s.prio && OthersAlike(s, r, m) && r.mutexes[m].(waiters := x.waiters) == x
      && t !in r.mutexes[m].waiters && forall w :: w in x.waiters && w != t ==> w in r.mutexes[m].waiters
    ensures var r, x := Do(s, Timeout(t, m)), s.mutexes[m];
      forall k :: 0 <= k < |x.waiters| && Distinct(x.waiters) && x.waiters[k] == t ==>
        r.mutexes[m].waiters == x.waiters[..k] + x.waiters[k + 1..]
  {
    var x := s.mutexes[m];
    forall k | 0 <= k < |x.waiters| && Distinct(x.waiters) && x.waiters[k] == t
      ensures Do(s, Timeout(t, m)).mutexes[m].waiters == x.waiters[..k] + x.waiters[k + 1..]
    {
      WithoutAt(x.waiters, k);
    }
  }

  // --------------------------------------------------------------------------------
  // Takes and releases over a run
  // --------------------------------------------------------------------------------

  /** How often thread `t` holds mutex `m` after a step, counted from the step alone: its takes count
      up, unless it holds the mutex as often as it can, and its releases count down. */
  function Counted(n: int, step: Step, t: nat, m: nat): int {
    if step.Take? && step.t == t && step.m == m && n < HOLD_MAX then n + 1
    else if step.Release? && step.t == t && step.m == m then n - 1
    else n
  }

  function Balance(n: int, steps: seq<Step>, t: nat, m: nat): int
    decreases |steps|
  {
    if steps == [] then n else Balance(Counted(n, steps[0], t, m), steps[1..], t, m)
  }

  /** The count is positive at the start and after every step. */
  ghost predicate NeverZero(n: int, steps: seq<Step>, t: nat, m: nat)
    decreases |steps|
  {
    n > 0 && (steps != [] ==> NeverZero(Counted(n, steps[0], t, m), steps[1..], t, m))
  }

  /** One step of any thread, seen from the owner of a mutex. */
  lemma OwnerStep(s: State, step: Step, t: nat, m: nat)
    requires Basic(s) && Allowed(s, step) && m < |s.mutexes| && s.mutexes[m].owner == Some(t)
    ensures Basic(Do(s, step)) && |Do(s, step).mutexes| == |s.mutexes|
    ensures var n := Counted(s.mutexes[m].hold, step, t, m);
      if n > 0 then Do(s, step).mutexes[m].owner == Some(t) && Do(s, step).mutexes[m].hold == n
      else Do(s, step).mutexes[m].owner != Some(t)
  {
    StepBasic(s, step);
    assert Agree(s.prio, s.mutexes[m]);
    if step.m == m && step.t == t {
      if step.Take? {
        TakeAgain(s, t, m, step.mayWait);
      } else if step.Release? {
        if s.mutexes[m].hold > 1 { ReleaseCounts(s, t, m); } else { ReleaseLast(s, t, m); }
      }
    }
  }

  /** Over every run of any threads, from any state in which `t` owns mutex `m`: as long as its takes
      and releases leave a positive count, it still owns the mutex, and holds it that often. */
  lemma {:induction false} HoldIsBalance(s: State, steps: seq<Step>, t: nat, m: nat)
    requires Basic(s) && AllowedRun(s, steps) && m < |s.mutexes| && s.mutexes[m].owner == Some(t)
    requires NeverZero(s.mutexes[m].hold, steps, t, m)
    ensures m < |Run(s, steps).mutexes|
    ensures Run(s, steps).mutexes[m].owner == Some(t)
    ensures Run(s, steps).mutexes[m].hold == Balance(s.mutexes[m].hold, steps, t, m)
    decreases |steps|
  {
    if steps != [] {
      OwnerStep(s, steps[0], t, m);
      HoldIsBalance(Do(s, steps[0]), steps[1..], t, m);
    }
  }

  /** And the release that brings the count to zero gives the mutex up. */
  lemma LastReleaseGivesUp(s: State, steps: seq<Step>, t: nat, m: nat)
    requires Basic(s) && AllowedRun(s, steps) && m < |s.mutexes| && s.mutexes[m].owner == Some(t)
    requires NeverZero(s.mutexes[m].hold, steps, t, m) && Balance(s.mutexes[m].hold, steps, t, m) == 1
    requires Basic(Run(s, steps)) && Allowed(Run(s, steps), Release(t, m))
    ensures |Do(Run(s, steps), Release(t, m)).mutexes| == |s.mutexes|
    ensures Do(Run(s, steps), Release(t, m)).mutexes[m].owner != Some(t)
  {
    HoldIsBalance(s, steps, t, m);
    OwnerStep(Run(s, steps), Release(t, m), t, m);
    RunSize(s, steps);
  }

  lemma {:induction false} RunSize(s: State, steps: seq<Step>)
    requires Basic(s) && AllowedRun(s, steps)
    ensures |Run(s, steps).mutexes| == |s.mutexes|
    decreases |steps|
  {
    if steps != [] {
      StepBasic(s, steps[0]);
      RunSize(Do(s, steps[0]), steps[1..]);
    }
  }

  /** `n` takes */
  function Takes(t: nat, m: nat, n: nat): seq<Step> {
    if n == 0 then [] else [Take(t, m, true)] + Takes(t, m, n - 1)
  }

  function Releases(t: nat, m: nat, n: nat): seq<Step> {
    if n == 0 then [] else [Release(t, m)] + Releases(t, m, n - 1)
  }

  lemma {:induction false} TakesCount(n: nat, k: nat, t: nat, m: nat, rest: seq<Step>)
    requires n > 0 && n + k <= HOLD_MAX
    ensures Balance(n, Takes(t, m, k) + rest, t, m) == Balance(n + k, rest, t, m)
    ensures NeverZero(n, Takes(t, m, k) + rest, t, m) <==> NeverZero(n + k, rest, t, m)
    decreases k
  {
    if k > 0 {
      assert (Takes(t, m, k) + rest)[1..] == Takes(t, m, k - 1) + rest;
      TakesCount(n + 1, k - 1, t, m, rest);
    } else {
      assert Takes(t, m, 0) + rest == rest;
    }
  }

  lemma {:induction false} ReleasesCount(n: nat, k: nat, t: nat, m: nat)
    requires k < n
    ensures Balance(n, Releases(t, m, k), t, m) == n - k && NeverZero(n, Releases(t, m, k), t, m)
    decreases k
  {
    if k > 0 {
      assert Releases(t, m, k)[1..] == Releases(t, m, k - 1);
      ReleasesCount(n - 1, k - 1, t, m);
    }
  }

  /** After `n` takes of a free mutex, the first `n - 1` releases leave it with the thread. */
  lemma NestedTakes(s: State, t: nat, m: nat, n: nat, k: nat)
    requires Basic(s) && m < |s.mutexes| && s.mutexes[m].owner.None? && k < n <= HOLD_MAX
    requires AllowedRun(s, Takes(t, m, n) + Releases(t, m, k))
    ensures var r := Run(s, Takes(t, m, n) + Releases(t, m, k));
      m < |r.mutexes| && r.mutexes[m].owner == Some(t) && r.mutexes[m].hold == n - k
  {
    var rest := Takes(t, m, n - 1) + Releases(t, m, k);
    assert Takes(t, m, n) + Releases(t, m, k) == [Take(t, m, true)] + rest;
    var s1 := Do(s, Take(t, m, true));
    TakeFree(s, t, m, true);
    StepBasic(s, Take(t, m, true));
    TakesCount(1, n - 1, t, m, Releases(t, m, k));
    ReleasesCount(n, k, t, m);
    HoldIsBalance(s1, rest, t, m);
  }
}
