/** What each thread operation does to the thread it names and to the lists, and what it leaves
    alone; and that those that schedule leave the most urgent thread running.
 */
module SchedulerEffects {
  import opened Lists
  import opened Wrappers
  import opened SchedulerSpec

  /** All threads but `t` are as they were, and so are the running thread and the lock. */
  ghost predicate OthersAlike(s: State, r: State, t: nat) {
    && r.tcb.Keys == s.tcb.Keys && r.current == s.current && r.lockNest == s.lockNest
    && forall u :: u in s.tcb && u != t ==> r.tcb[u] == s.tcb[u]
  }

  /** `t` stands at the end of ready list `p`, and apart from it the lists are as they were. */
  ghost predicate QueuedLast(s: State, r: State, t: nat, p: nat) {
    && |r.ready| == |s.ready| && p < |r.ready| && |r.waits| == |s.waits|
    && (forall k :: 0 <= k < |r.ready| ==>
          r.ready[k] == if k == p then Without(s.ready[k], t) + [t] else Without(s.ready[k], t))
    && forall q :: 0 <= q < |r.waits| ==> r.waits[q] == Without(s.waits[q], t)
  }

  /** `t` is in no list, and apart from it the lists are as they were. */
  ghost predicate InNoList(s: State, r: State, t: nat) {
    && |r.ready| == |s.ready| && |r.waits| == |s.waits| && Unlisted(r, t)
    && (forall k :: 0 <= k < |r.ready| ==> r.ready[k] == Without(s.ready[k], t))
    && forall q :: 0 <= q < |r.waits| ==> r.waits[q] == Without(s.waits[q], t)
  }

  /** The thread has the new priority and nothing else is different about it.  If it was READY it is
      last in the list of that priority; otherwise no list has changed. */
  lemma ChangePriorityDoes(s: State, t: nat, prio: nat)
    requires Placed(s) && t in s.tcb && prio < |s.ready|
    ensures var r := ChangePriority(s, t, prio);
      && r.tcb[t] == s.tcb[t].(prio := prio) && OthersAlike(s, r, t) && r.closing == s.closing
      && (s.tcb[t].stat == Ready ==> QueuedLast(s, r, t, prio))
      && (s.tcb[t].stat != Ready ==> r.ready == s.ready && r.waits == s.waits)
  {
    assert s.tcb[t].stat == Ready ==> s.current != Some(t);
  }

  /** A suspended thread becomes READY, last in the list of its priority and off any wait list, or
      RUNNING if it is the current one; any other is left alone. */
  lemma ResumeDoes(s: State, t: nat)
    requires Placed(s) && t in s.tcb
    ensures s.tcb[t].stat != Suspend ==> Resume(s, t) == s
    ensures s.tcb[t].stat == Suspend ==>
      var r := Resume(s, t);
      && OthersAlike(s, r, t)
      && (s.current != Some(t) ==> r.tcb[t] == s.tcb[t].(stat := Ready) && QueuedLast(s, r, t, s.tcb[t].prio))
      && (s.current == Some(t) ==> r.tcb[t] == s.tcb[t].(stat := Running) && InNoList(s, r, t))
  {
    if s.tcb[t].stat == Suspend {
      var r := Resume(s, t);
      if s.current == Some(t) {
        forall p | 0 <= p < |r.ready| ensures t !in r.ready[p] { }
        forall q | 0 <= q < |r.waits| ensures t !in r.waits[q] { }
      }
    }
  }

  /** A READY or RUNNING thread becomes SUSPEND and leaves its list; any other is left alone. */
  lemma PauseDoes(s: State, t: nat)
    requires Placed(s) && t in s.tcb
    ensures s.tcb[t].stat !in {Ready, Running} ==> Pause(s, t) == s
    ensures s.tcb[t].stat in {Ready, Running} ==>
      var r := Pause(s, t);
      r.tcb[t] == s.tcb[t].(stat := Suspend) && OthersAlike(s, r, t) && InNoList(s, r, t)
  {
  }

  /** The running thread becomes SUSPEND and stands in the wait list: at the end, or behind everyone
      at least as urgent and before everyone less urgent.  Nobody else moves. */
  lemma WaitOnDoes(s: State, t: nat, q: nat, flag: Flag)
    requires Placed(s) && t in s.tcb && q < |s.waits| && s.tcb[t].stat == Running
    ensures var r := WaitOn(s, t, q, flag);
      && r.tcb[t] == s.tcb[t].(stat := Suspend) && OthersAlike(s, r, t) && r.ready == s.ready
      && |r.waits| == |s.waits| && (forall k :: 0 <= k < |s.waits| && k != q ==> r.waits[k] == s.waits[k])
      && exists i :: WaitsAt(s, s.waits[q], r.waits[q], t, flag, i)
  {
    Unlinked(s, t);
    var s1 := Pause(s, t);
    assert s1.waits[q] == s.waits[q];
    assert WaitList(s, q);
    forall k | 0 <= k < |s.waits[q]| ensures s.waits[q][k] != t && s1.tcb[s.waits[q][k]] == s.tcb[s.waits[q][k]] {
      assert s.waits[q][k] in s.waits[q];
    }
    var i := if flag == Fifo then |s.waits[q]| else WaitIndex(s1, s.waits[q], s.tcb[t].prio);
    assert WaitOn(s, t, q, flag).waits[q] == s.waits[q][..i] + [t] + s.waits[q][i..];
    assert WaitsAt(s, s.waits[q], WaitOn(s, t, q, flag).waits[q], t, flag, i);
  }

  /** `after` is `list` with `t` at place `i`, where the discipline puts it. */
  ghost predicate WaitsAt(s: State, list: seq<nat>, after: seq<nat>, t: nat, flag: Flag, i: nat) {
    && i <= |list| && after == list[..i] + [t] + list[i..] && t in s.tcb && (forall w :: w in list ==> w in s.tcb)
    && (flag == Fifo ==> i == |list|)
    && (flag == Prio ==> forall j :: 0 <= j < i ==> s.tcb[list[j]].prio <= s.tcb[t].prio)
    && (flag == Prio && i < |list| ==> s.tcb[t].prio < s.tcb[list[i]].prio)
  }

  /** Whom a schedule runs: the thread that was running, if it still runs and nobody READY is more
      urgent, nor as urgent while it has yielded; otherwise the first of the most urgent list. */
  lemma ScheduleRuns(s: State)
    requires Placed(s) && s.current.Some?
    ensures s.lockNest != 0 || !AnyReady(s) ==> Schedule(s) == s
    ensures s.lockNest == 0 && AnyReady(s) ==>
      var c, h := s.tcb[s.current.value], Top(s.ready);
      Schedule(s).current ==
        if c.stat == Running && (c.prio < h || (c.prio == h && !c.yielded)) then s.current else Some(s.ready[h][0])
  {
    if AnyReady(s) {
      TopIsBest(s);
      var to := s.ready[Top(s.ready)][0];
      assert to in s.ready[Top(s.ready)] && ReadyList(s, Top(s.ready));
    }
  }

  /** What a schedule does to the lists: the thread that runs now is in none; the one that ran before,
      if it could have gone on, is last in the list of its priority, and READY. */
  lemma ScheduleMoves(s: State)
    requires Placed(s) && s.current.Some? && Schedule(s).current != s.current
    ensures var r, cur := Schedule(s), s.current.value;
      && r.current.Some? && r.current.value in s.tcb
      && r.tcb[r.current.value] == s.tcb[r.current.value].(stat := Running)
      && (forall u :: u in s.tcb && u != cur && u != r.current.value ==> r.tcb[u] == s.tcb[u])
      && r.waits == s.waits && |r.ready| == |s.ready|
      && (s.tcb[cur].stat == Running ==>
          && r.tcb[cur] == s.tcb[cur].(stat := Ready, yielded := false)
          && forall k :: 0 <= k < |s.ready| ==>
               r.ready[k] == if k == s.tcb[cur].prio then Without(s.ready[k], r.current.value) + [cur]
                             else Without(s.ready[k], r.current.value))
      && (s.tcb[cur].stat != Running ==>
          && r.tcb[cur] == s.tcb[cur]
          && forall k :: 0 <= k < |s.ready| ==> r.ready[k] == Without(s.ready[k], r.current.value))
  {
    ScheduleIsPreemptive(s);
    var cur, to := s.current.value, s.ready[Top(s.ready)][0];
    assert to in s.ready[Top(s.ready)] && ReadyList(s, Top(s.ready));
    if s.tcb[cur].stat == Running {
      var s1 := Put(s, cur, s.tcb[cur].(yielded := false)).(current := Some(to));
      SwitchInsertCommute(s1, cur, to);
    }
  }

  /** A schedule after which the same thread is current changes nothing but that thread's yield flag. */
  lemma ScheduleKeeps(s: State)
    requires Placed(s) && s.current.Some? && Schedule(s).current == s.current
    ensures var r, cur := Schedule(s), s.current.value;
      && OthersAlike(s, r, cur) && r.ready == s.ready && r.waits == s.waits
      && r.tcb[cur] == s.tcb[cur].(yielded := r.tcb[cur].yielded)
      && (s.lockNest == 0 && AnyReady(s) ==> !r.tcb[cur].yielded)
  {
    if s.lockNest == 0 && AnyReady(s) {
      TopIsBest(s);
      var cur, to := s.current.value, s.ready[Top(s.ready)][0];
      assert to in s.ready[Top(s.ready)] && ReadyList(s, Top(s.ready));
      Unlinked(s, cur);
    }
  }

  /** After a yield the thread has its whole time slice again; only its status and yield flag may be
      different besides, and of the other threads only that of the one that runs now. */
  lemma YieldDoes(s: State)
    requires Placed(s) && s.current.Some? && s.tcb[s.current.value].stat == Running
    ensures var r, t := Yield(s), s.current.value;
      && t in r.tcb && r.tcb[t].remaining == s.tcb[t].slice && r.tcb[t].slice == s.tcb[t].slice
      && r.tcb[t].prio == s.tcb[t].prio && r.tcb[t].stat in {Ready, Running}
      && (s.lockNest == 0 ==> r.current.Some? && MostUrgentRuns(r))
      && forall u :: u in s.tcb && u != t && r.current != Some(u) ==> u in r.tcb && r.tcb[u] == s.tcb[u]
  {
    var t := s.current.value;
    var c := s.tcb[t].(remaining := s.tcb[t].slice, yielded := true);
    TouchPlaced(s, t, c);
    var m := Put(s, t, c);
    ScheduleIsPreemptive(m);
    if Schedule(m).current == m.current { ScheduleKeeps(m); } else { ScheduleMoves(m); }
  }

  /** A thread that is started has its initial priority and can run.  A schedule follows: if nothing
      prevents it, the most urgent thread runs afterwards. */
  lemma StartupDoes(s: State, t: nat)
    requires Placed(s) && Allowed(s, OpStartup(t))
    ensures var r := Startup(s, t);
      && r.tcb.Keys == s.tcb.Keys && r.tcb[t].prio == s.tcb[t].initPrio && r.tcb[t].stat in {Ready, Running}
      && (forall u :: u in s.tcb && u != t ==> r.tcb[u].prio == s.tcb[u].prio)
      && (s.current.Some? && s.lockNest == 0 && s.tcb[s.current.value].stat == Running ==> MostUrgentRuns(r))
      && (s.current.None? ==> r.current.None? && r.tcb[t].stat == Ready)
  {
    StartupQueues(s, t);
    if s.current.Some? { ScheduleIsPreemptive(Resume(Prepare(s, t), t)); }
  }

  /** Before it schedules, a start has queued the thread last in the list of its initial priority. */
  lemma StartupQueues(s: State, t: nat)
    requires Placed(s) && Allowed(s, OpStartup(t))
    ensures var m := Resume(Prepare(s, t), t);
      && Placed(m) && OthersAlike(s, m, t) && QueuedLast(s, m, t, s.tcb[t].initPrio)
      && m.tcb[t] == s.tcb[t].(prio := s.tcb[t].initPrio, stat := Ready, yielded := false)
  {
    PreparePlaced(s, t);
    ResumePlaced(Prepare(s, t), t);
    ResumeDoes(Prepare(s, t), t);
  }

  /** A thread whose time is up can run and waits no more, and a schedule follows. */
  lemma TimeoutDoes(s: State, t: nat)
    requires Placed(s) && Allowed(s, OpTimeout(t))
    ensures var r := Timeout(s, t);
      && r.tcb.Keys == s.tcb.Keys && r.tcb[t].stat in {Ready, Running}
      && (forall q :: 0 <= q < |r.waits| ==> t !in r.waits[q])
      && (forall u :: u in s.tcb ==> r.tcb[u].prio == s.tcb[u].prio)
      && (s.lockNest == 0 && s.tcb[s.current.value].stat == Running ==> MostUrgentRuns(r))
  {
    ResumePlaced(s, t);
    TimedOutRuns(s, t);
    ScheduleIsPreemptive(Resume(s, t));
  }

  lemma TimedOutRuns(s: State, t: nat)
    requires Placed(s) && t in s.tcb && s.tcb[t].stat == Suspend
    ensures var m := Resume(s, t);
      && m.tcb.Keys == s.tcb.Keys && m.tcb[t].stat in {Ready, Running} && m.current == s.current
      && m.lockNest == s.lockNest && (forall u :: u in s.tcb ==> m.tcb[u].prio == s.tcb[u].prio)
      && (forall q :: 0 <= q < |m.waits| ==> t !in m.waits[q])
      && (s.current.Some? && s.current.value in s.tcb && s.tcb[s.current.value].stat == Running ==>
          m.tcb[s.current.value].stat == Running)
  {
    ResumeDoes(s, t);
  }

  /** While the scheduler is locked a timeout just queues the thread. */
  lemma TimeoutLocked(s: State, t: nat)
    requires Placed(s) && Allowed(s, OpTimeout(t)) && s.lockNest != 0 && s.current != Some(t)
    ensures var r := Timeout(s, t);
      r.tcb[t] == s.tcb[t].(stat := Ready) && OthersAlike(s, r, t) && QueuedLast(s, r, t, s.tcb[t].prio)
  {
    ResumeDoes(s, t);
  }

  /** The end of a critical section counts down, and the last one is followed by a schedule. */
  lemma ExitDoes(s: State)
    requires Placed(s)
    ensures s.lockNest > 1 ==> ExitCritical(s) == s.(lockNest := s.lockNest - 1)
    ensures s.lockNest <= 1 ==>
      var r := ExitCritical(s);
      && r.lockNest == 0
      && (s.current.None? ==> r == s.(lockNest := 0))
      && (s.current.Some? && (AnyReady(s) || s.tcb[s.current.value].stat == Running) ==> MostUrgentRuns(r))
      && (s.current.Some? ==> SameThreads(s, r))
  {
    if s.lockNest <= 1 {
      LockPlaced(s, 0);
      if s.current.Some? { ScheduleIsPreemptive(s.(lockNest := 0)); }
    }
  }

  /** A thread that exits is closed and in no list, and if anybody can run, somebody else does. */
  lemma QuitDoes(s: State)
    requires Placed(s) && s.current.Some?
    ensures var r, t := Quit(s), s.current.value;
      && t in r.tcb && r.tcb[t].stat == Close && Unlisted(r, t)
      && (s.lockNest == 0 && AnyReady(s) ==> MostUrgentRuns(r) && r.current != Some(t))
  {
    var t := s.current.value;
    UnlinkPlaced(s, t);
    var c := s.tcb[t].(stat := Close, yielded := false);
    SetPlaced(Unlink(s, t), t, c);
    var m := Put(Unlink(s, t), t, c);
    assert Unlisted(m, t);
    CurrentUnqueued(s);
    assert AnyReady(s) ==> AnyReady(m);
    ScheduleIsPreemptive(m);
    QuitPlaced(s);
    var r := Quit(s);
    ClosedUnlisted(r, t);
  }

  /** The current thread is in no ready list, so unlinking it leaves them all alone. */
  lemma CurrentUnqueued(s: State)
    requires Placed(s) && s.current.Some?
    ensures UnlinkAll(s.ready, s.current.value) == s.ready
  {
    forall p | 0 <= p < |s.ready| ensures Without(s.ready[p], s.current.value) == s.ready[p] {
      assert ReadyList(s, p);
    }
  }

  /** Where every thread stands as its status says, one that is neither READY nor SUSPEND is in no
      list. */
  lemma ClosedUnlisted(s: State, t: nat)
    requires Placed(s) && t in s.tcb && s.tcb[t].stat !in {Ready, Suspend}
    ensures Unlisted(s, t)
  {
    forall p | 0 <= p < |s.ready| ensures t !in s.ready[p] { assert ReadyList(s, p); }
    forall q | 0 <= q < |s.waits| ensures t !in s.waits[q] { assert WaitList(s, q); }
  }

  /** A detach or delete takes the thread out of every list, unless it has not been started or has been
      closed before; its status is as before until the last step marks it. */
  lemma CloseDoes(s: State, t: nat)
    requires Placed(s) && t in s.tcb
    ensures s.tcb[t].stat == Close ==> BeginClose(s, t) == s
    ensures s.tcb[t].stat != Close ==>
      var r := BeginClose(s, t);
      && r.tcb == s.tcb && OthersAlike(s, r, t) && InNoList(s, r, t) && r.closing == s.closing + {t}
    ensures var r := EndClose(s, t);
      && r.tcb[t].stat == Close && !r.tcb[t].yielded && OthersAlike(s, r, t)
      && r.ready == s.ready && r.waits == s.waits && r.closing == s.closing - {t}
  {
    if s.tcb[t].stat == Init { ClosedUnlisted(s, t); InitUnlinked(s, t); }
  }

  lemma InitUnlinked(s: State, t: nat)
    requires Unlisted(s, t)
    ensures forall p :: 0 <= p < |s.ready| ==> Without(s.ready[p], t) == s.ready[p]
    ensures forall q :: 0 <= q < |s.waits| ==> Without(s.waits[q], t) == s.waits[q]
  {
  }

  /** The scheduler starts with the first of the most urgent list. */
  lemma StartRuns(s: State)
    requires Placed(s) && s.current.None? && AnyReady(s)
    ensures var r, to := Start(s), s.ready[Top(s.ready)][0];
      && r.current == Some(to) && to in s.tcb && r.tcb[to] == s.tcb[to].(stat := Running, yielded := false)
      && (forall u :: u in s.tcb && u != to ==> r.tcb[u] == s.tcb[u]) && InNoList(s, r, to)
  {
    var to := s.ready[Top(s.ready)][0];
    assert to in s.ready[Top(s.ready)];
    StartPlaced(s);
  }
}
