/** The scheduler as scheduler.c and thread.c keep it: ready lists indexed by a 32-bit
    bitmap, each thread carrying the mask of its priority.  Every method is proved against
    the bitmap-free operation of SchedulerSpec.
 */
module Scheduler {
  import opened Lists
  import opened Wrappers
  import opened Bits
  import opened SchedulerSpec

  const PRIORITY_MAX: nat := 32

  /** Finding the first set bit of a bitmap that agrees with the lists is finding the first
      non-empty list. */
  lemma FfsIsTop(group: nat, ready: seq<seq<nat>>)
    requires group < 0x1_0000_0000 && |ready| == PRIORITY_MAX
    requires forall p :: 0 <= p < PRIORITY_MAX ==> (Bit(group, p) <==> ready[p] != [])
    ensures group != 0 <==> exists p :: 0 <= p < |ready| && ready[p] != []
    ensures group != 0 ==> Ffs(group) - 1 == Top(ready)
  {
    FfsIsLowest(group);
    if group != 0 {
      var h := Ffs(group) - 1;
      assert ready[h] != [];
      var t := Top(ready);
      assert Bit(group, t);
    } else {
      forall p | 0 <= p < PRIORITY_MAX ensures ready[p] == [] { ZeroHasNoBits(p); }
    }
  }

  class Kernel {
    var tcb: map<nat, Tcb>
    var ready: seq<seq<nat>>
    var waits: seq<seq<nat>>
    var current: Option<nat>
    var lockNest: nat
    ghost var closing: set<nat>
    /** `thread->number_mask` */
    var mask: map<nat, nat>
    /** `rt_thread_ready_priority_group` */
    var group: nat

    ghost function Abs(): State
      reads this`tcb, this`ready, this`waits, this`current, this`lockNest, this`closing
    {
      State(tcb, ready, waits, current, lockNest, closing)
    }

    /** Bit `p` is set exactly when list `p` is not empty, and masks agree with priorities. */
    ghost predicate Indexed()
      reads this`tcb, this`ready, this`mask, this`group
    {
      && |ready| == PRIORITY_MAX
      && group < 0x1_0000_0000
      && (forall p :: 0 <= p < PRIORITY_MAX ==> (Bit(group, p) <==> ready[p] != []))
      && (forall t :: t in tcb ==> t in mask && (tcb[t].stat !in {Init, Close} ==> mask[t] == Mask(tcb[t].prio)))
    }

    /** As `Indexed`, but bit `b` may be set while its list is empty. */
    ghost predicate IndexedBut(b: nat)
      reads this`tcb, this`ready, this`mask, this`group
    {
      && |ready| == PRIORITY_MAX
      && group < 0x1_0000_0000
      && (forall p :: 0 <= p < PRIORITY_MAX && p != b ==> (Bit(group, p) <==> ready[p] != []))
      && (0 <= b < PRIORITY_MAX && ready[b] != [] ==> Bit(group, b))
      && (forall t :: t in tcb ==> t in mask && (tcb[t].stat !in {Init, Close} ==> mask[t] == Mask(tcb[t].prio)))
    }

    ghost predicate Valid()
      reads this
    {
      Placed(Abs()) && Indexed()
    }

    /** `rt_thread_init` for every thread of the system, before anything is started */
    constructor (threads: map<nat, Tcb>, objects: nat)
      requires forall t :: t in threads ==>
        threads[t].stat == Init && threads[t].prio < PRIORITY_MAX && threads[t].initPrio < PRIORITY_MAX
      ensures Valid() && tcb == threads && |waits| == objects && current == None && lockNest == 0 && closing == {}
    {
      tcb := threads;
      ready := seq(PRIORITY_MAX, _ => []);
      waits := seq(objects, _ => []);
      current := None;
      lockNest := 0;
      closing := {};
      mask := map t | t in threads :: 0;
      group := 0;
      new;
      BootPlaced(Abs());
      forall p: nat ensures !Bit(0, p) { ZeroHasNoBits(p); }
    }

    /** `_scheduler_get_highest_priority_thread` */
    method Highest() returns (h: nat)
      requires Indexed() && group != 0
      ensures AnyReady(Abs()) && h == Top(ready)
    {
      FfsIsTop(group, ready);
      h := Ffs(group) - 1;
    }

    /** `rt_schedule_insert_thread` */
    method InsertThread(t: nat)
      requires t in tcb && tcb[t].prio < PRIORITY_MAX && t in mask && mask[t] == Mask(tcb[t].prio)
      requires if current == Some(t) then Indexed() else IndexedBut(tcb[t].prio)
      modifies this`tcb, this`ready, this`group
      ensures Indexed() && Abs() == Insert(old(Abs()), t)
    {
      if current == Some(t) {
        tcb := tcb[t := tcb[t].(stat := Running)];
        return;
      }
      tcb := tcb[t := tcb[t].(stat := Ready)];
      var p := tcb[t].prio;
      ready := ready[p := ready[p] + [t]];
      var g := Or(group, mask[t]);
      forall q | 0 <= q < PRIORITY_MAX ensures Bit(g, q) <==> Bit(group, q) || q == p {
        OrBit(group, mask[t], q);
        MaskBit(p, q);
      }
      Mask32();
      MaskBelow(p, 32);
      OrBelow(group, mask[t], 32);
      group := g;
    }

    /** `rt_schedule_remove_thread` */
    method RemoveThread(t: nat)
      requires Indexed() && t in tcb && tcb[t].prio < PRIORITY_MAX && mask[t] == Mask(tcb[t].prio)
      requires OnlyAt(t)
      modifies this`ready, this`waits, this`group
      ensures Indexed() && Abs() == Unlink(old(Abs()), t)
    {
      ready, waits := UnlinkAll(ready, t), UnlinkAll(waits, t);
      var p := tcb[t].prio;
      if ready[p] == [] {
        forall q | 0 <= q < PRIORITY_MAX ensures Bit(AndNot(group, mask[t]), q) <==> Bit(group, q) && q != p {
          AndNotBit(group, mask[t], q);
          MaskBit(p, q);
        }
        AndNotBelow(group, mask[t]);
        group := AndNot(group, mask[t]);
      }
    }

    /** A thread is in no ready list but that of its own priority. */
    ghost predicate OnlyAt(t: nat)
      requires t in tcb
      reads this`tcb, this`ready
    {
      forall p :: 0 <= p < |ready| && t in ready[p] ==> p == tcb[t].prio
    }

    lemma PlacedOnlyAt(t: nat)
      requires Placed(Abs()) && t in tcb
      ensures OnlyAt(t)
    {
      forall p | 0 <= p < |ready| && t in ready[p] ensures p == tcb[t].prio { assert ReadyList(Abs(), p); }
    }

    /** The part of `rt_schedule` that changes the running thread. */
    method SwitchThread(cur: nat, to: nat, insertFrom: bool)
      requires Indexed() && cur in tcb && to in tcb && cur != to && OnlyAt(to)
      requires insertFrom ==> tcb[cur].prio < PRIORITY_MAX && mask[cur] == Mask(tcb[cur].prio)
      requires tcb[to].prio < PRIORITY_MAX && tcb[to].stat == Ready
      modifies this`tcb, this`ready, this`waits, this`group, this`current
      ensures Indexed()
      ensures var s := old(Abs()).(current := Some(to));
        Abs() == SwitchTo(if insertFrom then Insert(s, cur) else s, to)
    {
      current := Some(to);
      if insertFrom {
        InsertThread(cur);
      }
      RemoveThread(to);
      tcb := tcb[to := tcb[to].(stat := Running)];
    }

    /** What the placement says about the head of the most urgent list and about `current`. */
    lemma ReadyFacts()
      requires Valid() && current.Some?
      ensures current.value in tcb && OnlyAt(current.value)
      ensures group != 0 <==> AnyReady(Abs())
      ensures AnyReady(Abs()) ==>
        var to := ready[Top(ready)][0];
        to in tcb && to != current.value && OnlyAt(to) && tcb[to].stat == Ready && tcb[to].prio < PRIORITY_MAX
    {
      FfsIsTop(group, ready);
      PlacedOnlyAt(current.value);
      if AnyReady(Abs()) {
        TopIsBest(Abs());
        PlacedOnlyAt(ready[Top(ready)][0]);
      }
    }

    /** `rt_schedule` */
    method Reschedule()
      requires Valid() && current.Some?
      modifies this`tcb, this`ready, this`waits, this`group, this`current
      ensures Valid() && Abs() == Schedule(old(Abs()))
    {
      ScheduleIsPreemptive(Abs());
      ReadyFacts();
      if lockNest == 0 && group != 0 {
        SelectThread();
      }
    }

    /** The unlocked part of `rt_schedule`, when some thread is ready. */
    method SelectThread()
      requires WellFormed(Abs()) && Indexed() && group != 0 && lockNest == 0 && AnyReady(Abs())
      requires current.Some? && current.value in tcb && OnlyAt(current.value)
      requires tcb[current.value].stat !in {Init, Ready}
      requires var to := ready[Top(ready)][0];
        to in tcb && to != current.value && OnlyAt(to) && tcb[to].stat == Ready && tcb[to].prio < PRIORITY_MAX
      modifies this`tcb, this`ready, this`waits, this`group, this`current
      ensures Indexed() && Abs() == Schedule(old(Abs()))
    {
      var h := Highest();
      var to, cur := ready[h][0], current.value;
      var insertFrom := false;
      if tcb[cur].stat == Running {
        if tcb[cur].prio < h || (tcb[cur].prio == h && !tcb[cur].yielded) {
          to := cur;
        } else {
          insertFrom := true;
        }
        tcb := tcb[cur := tcb[cur].(yielded := false)];
      }
      ChangeThread(cur, to, insertFrom);
    }

    /** The switch, or the return to the thread that was running */
    method ChangeThread(cur: nat, to: nat, insertFrom: bool)
      requires Indexed() && cur in tcb && to in tcb && OnlyAt(to) && (to != cur ==> tcb[to].stat == Ready)
      requires tcb[to].prio < PRIORITY_MAX && mask[to] == Mask(tcb[to].prio)
      requires insertFrom ==> tcb[cur].prio < PRIORITY_MAX && mask[cur] == Mask(tcb[cur].prio)
      modifies this`tcb, this`ready, this`waits, this`group, this`current
      ensures Indexed()
      ensures var s := old(Abs()).(current := Some(to));
        Abs() == if to == cur then SwitchTo(old(Abs()), cur) else SwitchTo(if insertFrom then Insert(s, cur) else s, to)
    {
      if to != cur {
        SwitchThread(cur, to, insertFrom);
      } else {
        RemoveThread(cur);
        tcb := tcb[cur := tcb[cur].(stat := Running)];
      }
    }

    /** `rt_system_scheduler_start` */
    method StartScheduler()
      requires Valid() && current.None? && group != 0
      modifies this
      ensures Valid() && AnyReady(old(Abs())) && Abs() == Start(old(Abs()))
    {
      FfsIsTop(group, ready);
      StartPlaced(Abs());
      TopIsBest(Abs());
      var h := Highest();
      var to := ready[h][0];
      PlacedOnlyAt(to);
      current := Some(to);
      RemoveThread(to);
      tcb := tcb[to := tcb[to].(stat := Running, yielded := false)];
      assert Abs() == Start(old(Abs()));
      assert Indexed();
    }

    /** `rt_thread_resume`, with nothing between its test and its critical section */
    method ResumeThread(t: nat) returns (ok: bool)
      requires Valid() && t in tcb
      modifies this`tcb, this`ready, this`waits, this`group
      ensures Valid() && Abs() == Resume(old(Abs()), t)
      ensures ok == (old(tcb[t].stat) == Suspend)
    {
      if tcb[t].stat != Suspend {
        return false;
      }
      ResumeSection(t);
      return true;
    }

    /** The critical section of `rt_thread_resume`, whatever the status of the thread is by now: the
        thread is unlinked without a look at the bitmap, and yet bitmap and lists agree again after
        the insertion.  A thread that has been started keeps the mask of its priority. */
    method ResumeSection(t: nat)
      requires Valid() && t in tcb && mask[t] == Mask(tcb[t].prio)
      modifies this`tcb, this`ready, this`waits, this`group
      ensures Valid() && Abs() == LateResume(old(Abs()), t)
    {
      LateResumePlaced(Abs(), t);
      OffOthers(t);
      if tcb[t].stat != Ready { OffReady(t); }
      ready, waits := UnlinkAll(ready, t), UnlinkAll(waits, t);
      InsertThread(t);
    }

    /** A thread that is not READY is in no ready list, so unlinking it leaves them all alone. */
    lemma OffReady(t: nat)
      requires Valid() && t in tcb && tcb[t].stat != Ready
      ensures UnlinkAll(ready, t) == ready
    {
      forall p | 0 <= p < |ready| ensures Without(ready[p], t) == ready[p] { assert ReadyList(Abs(), p); }
    }

    /** Any thread is in no ready list but that of its priority. */
    lemma OffOthers(t: nat)
      requires Valid() && t in tcb
      ensures forall p :: 0 <= p < |ready| && p != tcb[t].prio ==> UnlinkAll(ready, t)[p] == ready[p]
      ensures current == Some(t) ==> tcb[t].stat != Ready
    {
      forall p | 0 <= p < |ready| && p != tcb[t].prio ensures Without(ready[p], t) == ready[p] {
        assert ReadyList(Abs(), p);
      }
    }

    /** `rt_thread_startup` */
    method StartThread(t: nat)
      requires Valid() && t in tcb && tcb[t].stat == Init
      modifies this
      ensures Valid() && Abs() == Startup(old(Abs()), t)
    {
      ghost var c := tcb[t].(prio := tcb[t].initPrio, stat := Suspend, yielded := false);
      OffListPlaced(Abs(), t, c);
      mask := mask[t := Mask(tcb[t].initPrio)];
      tcb := tcb[t := tcb[t].(prio := tcb[t].initPrio, stat := Suspend, yielded := false)];
      var _ := ResumeThread(t);
      if current.Some? {
        Reschedule();
      }
    }

    /** `rt_thread_suspend`, with nothing between its test and its critical section */
    method SuspendThread(t: nat) returns (ok: bool)
      requires Valid() && t in tcb
      modifies this`tcb, this`ready, this`waits, this`group
      ensures Valid() && Abs() == Pause(old(Abs()), t)
      ensures ok == (old(tcb[t].stat) in {Ready, Running})
    {
      if tcb[t].stat != Ready && tcb[t].stat != Running {
        return false;
      }
      PauseSection(t);
      return true;
    }

    /** The critical section of `rt_thread_suspend`, whatever the status of the thread is by now */
    method PauseSection(t: nat)
      requires Valid() && t in tcb && mask[t] == Mask(tcb[t].prio)
      modifies this`tcb, this`ready, this`waits, this`group
      ensures Valid() && Abs() == LatePause(old(Abs()), t)
    {
      LatePausePlaced(Abs(), t);
      PlacedOnlyAt(t);
      RemoveThread(t);
      tcb := tcb[t := tcb[t].(stat := Suspend)];
    }

    /** `_ipc_list_suspend` for the running thread, on the wait list of object `q` */
    method WaitFor(q: nat, flag: Flag)
      requires Valid() && q < |waits| && current.Some? && tcb[current.value].stat == Running
      modifies this`tcb, this`ready, this`waits, this`group
      ensures Valid() && Abs() == WaitOn(old(Abs()), current.value, q, flag)
    {
      var t := current.value;
      WaitOnPlaced(Abs(), t, q, flag);
      var _ := SuspendThread(t);
      assert WaitList(Abs(), q);
      var list, n := waits[q], |waits[q]|;
      if flag == Prio {
        n := ScanWaiters(list, tcb[t].prio);
      }
      waits := waits[q := list[..n] + [t] + list[n..]];
    }

    /** The loop of `_ipc_list_suspend`: stop at the first waiter that is less urgent. */
    method ScanWaiters(list: seq<nat>, prio: nat) returns (n: nat)
      requires forall t :: t in list ==> t in tcb
      ensures n == WaitIndex(Abs(), list, prio)
    {
      n := 0;
      WaitIndexFrom(Abs(), list, 0, prio);
      while n < |list| && !(prio < tcb[list[n]].prio)
        invariant n <= |list|
        invariant WaitIndex(Abs(), list, prio) == n + WaitIndex(Abs(), list[n..], prio)
      {
        WaitIndexFrom(Abs(), list, n, prio);
        n := n + 1;
      }
    }

    /** `rt_thread_timeout` */
    method TimeoutThread(t: nat)
      requires Valid() && t in tcb && tcb[t].stat == Suspend && current.Some?
      modifies this
      ensures Valid() && Abs() == Timeout(old(Abs()), t)
    {
      UnlinkPlaced(Abs(), t);
      InsertPlaced(Unlink(Abs(), t), t);
      OffReady(t);
      ready, waits := UnlinkAll(ready, t), UnlinkAll(waits, t);
      InsertThread(t);
      Reschedule();
    }

    /** `rt_thread_yield` */
    method YieldThread()
      requires Valid() && current.Some?
      modifies this
      ensures Valid() && Abs() == Yield(old(Abs()))
    {
      var t := current.value;
      TouchPlaced(Abs(), t, tcb[t].(remaining := tcb[t].slice, yielded := true));
      tcb := tcb[t := tcb[t].(remaining := tcb[t].slice, yielded := true)];
      Reschedule();
    }

    /** The time-slice part of `rt_tick_increase` */
    method TickIncrease()
      requires Valid() && current.Some?
      modifies this
      ensures Valid() && Abs() == Tick(old(Abs()))
    {
      CountDown();
      if tcb[current.value].remaining == 0 {
        EndSlice();
      }
    }

    /** `-- thread->remaining_tick` */
    method CountDown()
      requires Valid() && current.Some?
      modifies this`tcb
      ensures Valid() && Abs() == CountedDown(old(Abs()))
    {
      var t := current.value;
      TouchPlaced(Abs(), t, tcb[t].(remaining := (tcb[t].remaining - 1) % 0x1_0000_0000));
      tcb := tcb[t := tcb[t].(remaining := (tcb[t].remaining - 1) % 0x1_0000_0000)];
    }

    /** What a tick does when it was the last of the slice */
    method EndSlice()
      requires Valid() && current.Some?
      modifies this
      ensures Valid() && Abs() == SliceEnded(old(Abs()))
    {
      var t := current.value;
      TouchPlaced(Abs(), t, tcb[t].(remaining := tcb[t].slice, yielded := true));
      tcb := tcb[t := tcb[t].(remaining := tcb[t].slice, yielded := true)];
      Reschedule();
    }

    /** `rt_thread_control` with `RT_THREAD_CTRL_CHANGE_PRIORITY` */
    method SetPriority(t: nat, prio: nat)
      requires Valid() && t in tcb && prio < PRIORITY_MAX
      modifies this
      ensures Valid() && Abs() == ChangePriority(old(Abs()), t, prio)
    {
      ChangePriorityPlaced(Abs(), t, prio);
      if tcb[t].stat == Ready {
        PlacedOnlyAt(t);
        RemoveThread(t);
        tcb := tcb[t := tcb[t].(prio := prio)];
        mask := mask[t := Mask(prio)];
        InsertThread(t);
      } else {
        tcb := tcb[t := tcb[t].(prio := prio)];
        mask := mask[t := Mask(prio)];
      }
    }

    /** First step of `rt_thread_detach` and `rt_thread_delete` */
    method BeginCloseThread(t: nat)
      requires Valid() && t in tcb
      modifies this`ready, this`waits, this`group, this`closing
      ensures Valid() && Abs() == BeginClose(old(Abs()), t)
    {
      BeginClosePlaced(Abs(), t);
      if tcb[t].stat == Close {
        return;
      }
      if tcb[t].stat != Init {
        PlacedOnlyAt(t);
        RemoveThread(t);
      }
      closing := closing + {t};
    }

    /** Last step of both: the placement survives iff nothing has queued the thread again. */
    method EndCloseThread(t: nat)
      requires Valid() && t in tcb && t in closing
      modifies this`tcb, this`closing
      ensures Abs() == EndClose(old(Abs()), t) && Indexed() && OthersPlaced(Abs(), t)
      ensures Valid() <==> Unlisted(old(Abs()), t)
    {
      EndClosePlaced(Abs(), t);
      tcb := tcb[t := tcb[t].(stat := Close, yielded := false)];
      closing := closing - {t};
      assert Abs() == EndClose(old(Abs()), t);
      assert Indexed();
    }

    /** `_thread_exit`; a thread that has been closed before is in no list any more */
    method QuitThread()
      requires Valid() && current.Some?
      modifies this
      ensures Valid() && Abs() == Quit(old(Abs()))
    {
      var t := current.value;
      QuitPlaced(Abs());
      UnlinkPlaced(Abs(), t);
      PlacedOnlyAt(t);
      SetPlaced(Unlink(Abs(), t), t, tcb[t].(stat := Close, yielded := false));
      if tcb[t].stat != Close {
        RemoveThread(t);
      } else {
        OffReady(t);
        ready, waits := UnlinkAll(ready, t), UnlinkAll(waits, t);
      }
      tcb := tcb[t := tcb[t].(stat := Close, yielded := false)];
      Reschedule();
    }

    /** `rt_enter_critical` */
    method EnterCriticalSection()
      requires Valid()
      modifies this`lockNest
      ensures Valid() && Abs() == old(Abs()).(lockNest := old(lockNest) + 1)
    {
      LockPlaced(Abs(), lockNest + 1);
      lockNest := lockNest + 1;
    }

    /** `rt_exit_critical` */
    method ExitCriticalSection()
      requires Valid()
      modifies this
      ensures Valid() && Abs() == ExitCritical(old(Abs()))
    {
      if lockNest <= 1 {
        LockPlaced(Abs(), 0);
        lockNest := 0;
        if current.Some? {
          Reschedule();
        }
      } else {
        LockPlaced(Abs(), lockNest - 1);
        lockNest := lockNest - 1;
      }
    }
  }

  /** The scan of `_ipc_list_suspend`, one waiter at a time. */
  lemma WaitIndexFrom(s: State, list: seq<nat>, n: nat, prio: nat)
    requires n <= |list| && forall t :: t in list ==> t in s.tcb
    ensures list[0..] == list
    ensures n < |list| && s.tcb[list[n]].prio <= prio ==>
      WaitIndex(s, list[n..], prio) == 1 + WaitIndex(s, list[n + 1..], prio)
  {
    assert list[0..] == list;
    if n < |list| {
      assert list[n..][0] == list[n] && list[n..][1..] == list[n + 1..];
    }
  }
}
