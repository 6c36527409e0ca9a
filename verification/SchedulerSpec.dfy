/** What the single-core scheduler and the thread operations of scheduler.c and thread.c
    do, one critical section at a time.  Ready lists are indexed by priority, 0 the most
    urgent; the running thread is in no list.  The number of priorities is `|ready|`,
    32 as the projects ship it; nothing below depends on it.
 */
module SchedulerSpec {
  import opened Lists
  import opened Wrappers
  import WaitOrder

  /** The field `RT_THREAD_STAT_MASK` of a thread's `stat`. */
  datatype Stat = Init | Ready | Running | Suspend | Close

  /** A thread; `yielded` is the flag `RT_THREAD_STAT_YIELD`. */
  datatype Tcb = Tcb(stat: Stat, yielded: bool, prio: nat, initPrio: nat, remaining: nat, slice: nat)

  /** `waits` are the suspend lists of the IPC objects; `closing` are the threads that a detach or
      delete has unlinked and not yet marked closed. */
  datatype State = State(
    tcb: map<nat, Tcb>, ready: seq<seq<nat>>, waits: seq<seq<nat>>, current: Option<nat>, lockNest: nat,
    closing: set<nat>)

  datatype Flag = Fifo | Prio

  // --------------------------------------------------------------------------------
  // Every started thread sits exactly where its status says
  // --------------------------------------------------------------------------------

  ghost predicate WellFormed(s: State) {
    && (forall t :: t in s.tcb ==> s.tcb[t].prio < |s.ready| && s.tcb[t].initPrio < |s.ready|)
    && (forall p, t :: 0 <= p < |s.ready| && t in s.ready[p] ==> t in s.tcb)
    && (forall q, t :: 0 <= q < |s.waits| && t in s.waits[q] ==> t in s.tcb)
    && (s.current.Some? ==> s.current.value in s.tcb)
  }

  /** Ready list `p` holds exactly the READY threads of priority `p`, each once; only one that is
      being closed may be missing. */
  ghost predicate ReadyList(s: State, p: nat)
    requires p < |s.ready|
  {
    && Distinct(s.ready[p])
    && (forall t :: t in s.ready[p] ==> t in s.tcb && s.tcb[t].stat == Ready && s.tcb[t].prio == p)
    && (forall t :: t in s.tcb && s.tcb[t].stat == Ready && s.tcb[t].prio == p && t !in s.closing ==> t in s.ready[p])
  }

  /** Only suspended threads wait, each once in a list. */
  ghost predicate WaitList(s: State, q: nat)
    requires q < |s.waits|
  {
    && Distinct(s.waits[q])
    && forall t :: t in s.waits[q] ==> t in s.tcb && s.tcb[t].stat == Suspend
  }

  /** A thread waits in one list at most. */
  ghost predicate Apart(lists: seq<seq<nat>>) {
    forall q, r, t :: 0 <= q < r < |lists| && t in lists[q] ==> t !in lists[r]
  }

  /** RUNNING only as the current thread, which is never queued as READY. */
  ghost predicate CurrentPlaced(s: State) {
    && (forall t :: t in s.tcb && s.tcb[t].stat == Running ==> s.current == Some(t))
    && (s.current.Some? && s.current.value in s.tcb ==> s.tcb[s.current.value].stat !in {Init, Ready})
  }

  ghost predicate Placed(s: State) {
    && WellFormed(s)
    && (forall p :: 0 <= p < |s.ready| ==> ReadyList(s, p))
    && (forall q :: 0 <= q < |s.waits| ==> WaitList(s, q))
    && Apart(s.waits)
    && CurrentPlaced(s)
  }

  // --------------------------------------------------------------------------------
  // The operations
  // --------------------------------------------------------------------------------

  function Put(s: State, t: nat, c: Tcb): State {
    s.(tcb := s.tcb[t := c])
  }

  /** A node is unlinked from whatever list it is in. */
  function UnlinkAll(lists: seq<seq<nat>>, t: nat): seq<seq<nat>> {
    seq(|lists|, p requires 0 <= p < |lists| => Without(lists[p], t))
  }

  /** `rt_list_remove(&thread->tlist)` */
  function Unlink(s: State, t: nat): State {
    s.(ready := UnlinkAll(s.ready, t), waits := UnlinkAll(s.waits, t))
  }

  /** `rt_schedule_insert_thread` */
  function Insert(s: State, t: nat): State
    requires t in s.tcb && s.tcb[t].prio < |s.ready|
  {
    var c := s.tcb[t];
    if s.current == Some(t) then Put(s, t, c.(stat := Running))
    else Put(s, t, c.(stat := Ready)).(ready := s.ready[c.prio := s.ready[c.prio] + [t]])
  }

  /** The most urgent priority that has a ready thread, found by scanning. */
  function Top(ready: seq<seq<nat>>): (h: nat)
    requires exists p :: 0 <= p < |ready| && ready[p] != []
    ensures h < |ready| && ready[h] != [] && forall p :: 0 <= p < h ==> ready[p] == []
  {
    if ready[0] != [] then 0
    else
      assert forall p :: 0 < p < |ready| ==> ready[1..][p - 1] == ready[p];
      var h := Top(ready[1..]) + 1;
      assert forall p :: 0 < p < h ==> ready[p] == ready[1..][p - 1];
      h
  }

  ghost predicate AnyReady(s: State) {
    exists p :: 0 <= p < |s.ready| && s.ready[p] != []
  }

  function SwitchTo(s: State, t: nat): State
    requires t in s.tcb
  {
    Put(Unlink(s, t), t, s.tcb[t].(stat := Running))
  }

  /** `rt_schedule` */
  ghost function Schedule(s: State): State
    requires WellFormed(s) && s.current.Some?
  {
    if s.lockNest != 0 || !AnyReady(s) then s
    else
      var h := Top(s.ready);
      var to := s.ready[h][0];
      assert to in s.ready[h];
      var cur := s.current.value;
      var c := s.tcb[cur];
      if c.stat != Running then
        SwitchTo(s.(current := Some(to)), to)
      else
        var s1 := Put(s, cur, c.(yielded := false));
        if c.prio < h || (c.prio == h && !c.yielded) then SwitchTo(s1, cur)
        else if to == cur then SwitchTo(s1, cur)
        else SwitchTo(Insert(s1.(current := Some(to)), cur), to)
  }

  /** `rt_system_scheduler_start` */
  ghost function Start(s: State): State
    requires WellFormed(s) && AnyReady(s)
  {
    var to := s.ready[Top(s.ready)][0];
    assert to in s.ready[Top(s.ready)];
    Put(Unlink(s.(current := Some(to)), to), to, s.tcb[to].(stat := Running, yielded := false))
  }

  /** The critical section of `rt_thread_resume`, which relies on a test made before it */
  function LateResume(s: State, t: nat): State
    requires t in s.tcb && s.tcb[t].prio < |s.ready|
  {
    Insert(Unlink(s, t), t)
  }

  /** `rt_thread_resume`; a thread that is not suspended is refused. */
  function Resume(s: State, t: nat): State
    requires t in s.tcb && s.tcb[t].prio < |s.ready|
  {
    if s.tcb[t].stat != Suspend then s else LateResume(s, t)
  }

  /** What `rt_thread_startup` does before it resumes the thread */
  function Prepare(s: State, t: nat): State
    requires t in s.tcb
  {
    var c := s.tcb[t];
    Put(s, t, c.(prio := c.initPrio, stat := Suspend, yielded := false))
  }

  /** `rt_thread_startup` */
  ghost function Startup(s: State, t: nat): State
    requires WellFormed(s) && t in s.tcb
  {
    var s1 := Resume(Prepare(s, t), t);
    if s1.current.Some? then Schedule(s1) else s1
  }

  /** The critical section of `rt_thread_suspend`, which relies on a test made before it */
  function LatePause(s: State, t: nat): State
    requires t in s.tcb
  {
    Put(Unlink(s, t), t, s.tcb[t].(stat := Suspend))
  }

  /** `rt_thread_suspend`; only ready and running threads are accepted. */
  function Pause(s: State, t: nat): State
    requires t in s.tcb
  {
    if s.tcb[t].stat !in {Ready, Running} then s
    else LatePause(s, t)
  }

  /** Where `_ipc_list_suspend` puts a thread of priority `prio` in a wait list. */
  function WaitIndex(s: State, list: seq<nat>, prio: nat): (i: nat)
    requires forall t :: t in list ==> t in s.tcb
    ensures i <= |list|
    ensures forall j :: 0 <= j < i ==> s.tcb[list[j]].prio <= prio
    ensures i < |list| ==> prio < s.tcb[list[i]].prio
  {
    if list == [] then 0
    else
      assert list[0] in list;
      if prio < s.tcb[list[0]].prio then 0
      else
        assert forall t :: t in list[1..] ==> t in list;
        WaitIndex(s, list[1..], prio) + 1
  }

  /** `_ipc_list_suspend` on wait list `q` */
  function WaitOn(s: State, t: nat, q: nat, flag: Flag): State
    requires t in s.tcb && q < |s.waits|
    requires forall u :: u in s.waits[q] ==> u in s.tcb
  {
    var s1 := Pause(s, t);
    var list := s1.waits[q];
    var i := if flag == Fifo then |list| else WaitIndex(s1, list, s.tcb[t].prio);
    s1.(waits := s1.waits[q := list[..i] + [t] + list[i..]])
  }

  /** `rt_thread_timeout` */
  ghost function Timeout(s: State, t: nat): State
    requires WellFormed(s) && t in s.tcb && s.current.Some?
  {
    Schedule(Insert(Unlink(s, t), t))
  }

  /** `rt_thread_yield` */
  ghost function Yield(s: State): State
    requires WellFormed(s) && s.current.Some?
  {
    var c := s.tcb[s.current.value];
    Schedule(Put(s, s.current.value, c.(remaining := c.slice, yielded := true)))
  }

  /** `-- thread->remaining_tick`; the counter is a 32-bit word. */
  function CountedDown(s: State): State
    requires s.current.Some? && s.current.value in s.tcb
  {
    var c := s.tcb[s.current.value];
    Put(s, s.current.value, c.(remaining := (c.remaining - 1) % 0x1_0000_0000))
  }

  /** What a tick does when it was the last of the slice. */
  ghost function SliceEnded(s: State): State
    requires WellFormed(s) && s.current.Some?
  {
    var c := s.tcb[s.current.value];
    Schedule(Put(s, s.current.value, c.(remaining := c.slice, yielded := true)))
  }

  /** What `rt_tick_increase` does before it enables interrupts and may schedule */
  function TickSection(s: State): State
    requires s.current.Some? && s.current.value in s.tcb
  {
    var s1, c := CountedDown(s), s.tcb[s.current.value];
    if s1.tcb[s.current.value].remaining == 0 then
      Put(s1, s.current.value, c.(remaining := c.slice, yielded := true))
    else s1
  }

  /** The time-slice part of `rt_tick_increase` */
  ghost function Tick(s: State): State
    requires WellFormed(s) && s.current.Some?
  {
    var s1 := CountedDown(s);
    if s1.tcb[s1.current.value].remaining == 0 then SliceEnded(s1) else s1
  }

  /** `rt_thread_control` with `RT_THREAD_CTRL_CHANGE_PRIORITY` */
  function ChangePriority(s: State, t: nat, prio: nat): State
    requires t in s.tcb && prio < |s.ready|
  {
    if s.tcb[t].stat == Ready then Insert(Put(Unlink(s, t), t, s.tcb[t].(prio := prio)), t)
    else Put(s, t, s.tcb[t].(prio := prio))
  }

  /** First step of `rt_thread_detach` and `rt_thread_delete`: the thread leaves its list. */
  function BeginClose(s: State, t: nat): State
    requires t in s.tcb
  {
    if s.tcb[t].stat == Close then s
    else (if s.tcb[t].stat == Init then s else Unlink(s, t)).(closing := s.closing + {t})
  }

  /** Last step of both, after a time with interrupts enabled: the thread is marked closed. */
  function EndClose(s: State, t: nat): State
    requires t in s.tcb
  {
    Put(s, t, s.tcb[t].(stat := Close, yielded := false)).(closing := s.closing - {t})
  }

  /** `_thread_exit`, which does both in one critical section and then schedules */
  ghost function Quit(s: State): State
    requires WellFormed(s) && s.current.Some?
  {
    var t := s.current.value;
    Schedule(Put(Unlink(s, t), t, s.tcb[t].(stat := Close, yielded := false)))
  }

  /** `rt_exit_critical` */
  ghost function ExitCritical(s: State): State
    requires WellFormed(s)
  {
    if s.lockNest > 1 then s.(lockNest := s.lockNest - 1)
    else
      var s1 := s.(lockNest := 0);
      if s1.current.Some? then Schedule(s1) else s1
  }

  // --------------------------------------------------------------------------------
  // Each operation keeps the placement
  // --------------------------------------------------------------------------------

  /** Everything is placed, except that `t`, of whatever status, is in no list. */
  ghost predicate PlacedBut(s: State, t: nat) {
    && WellFormed(s)
    && t in s.tcb
    && (forall p :: 0 <= p < |s.ready| ==> ReadyListBut(s, p, t))
    && (forall q :: 0 <= q < |s.waits| ==> WaitList(s, q) && t !in s.waits[q])
    && Apart(s.waits)
    && (forall u :: u in s.tcb && u != t && s.tcb[u].stat == Running ==> s.current == Some(u))
    && (s.current.Some? && s.current.value != t ==> s.tcb[s.current.value].stat !in {Init, Ready})
  }

  ghost predicate ReadyListBut(s: State, p: nat, t: nat)
    requires p < |s.ready|
  {
    && Distinct(s.ready[p])
    && (forall u :: u in s.ready[p] ==> u != t && u in s.tcb && s.tcb[u].stat == Ready && s.tcb[u].prio == p)
    && (forall u :: u in s.tcb && u != t && s.tcb[u].stat == Ready && s.tcb[u].prio == p && u !in s.closing ==>
          u in s.ready[p])
  }

  lemma UnlinkPlaced(s: State, t: nat)
    requires Placed(s) && t in s.tcb
    ensures PlacedBut(Unlink(s, t), t)
  {
    forall p | 0 <= p < |s.ready| ensures ReadyListBut(Unlink(s, t), p, t) {
      assert ReadyList(s, p);
    }
    forall q | 0 <= q < |s.waits| ensures WaitList(Unlink(s, t), q) && t !in Unlink(s, t).waits[q] {
      assert WaitList(s, q);
    }
  }

  /** The thread outside every list may be given any status that keeps it there. */
  lemma SetPlaced(s: State, t: nat, c: Tcb)
    requires PlacedBut(s, t) && c.prio < |s.ready| && c.initPrio < |s.ready|
    ensures PlacedBut(Put(s, t, c), t)
    ensures c.stat in {Suspend, Close} || (c.stat == Running && s.current == Some(t)) ==> Placed(Put(s, t, c))
  {
    var r := Put(s, t, c);
    forall p | 0 <= p < |s.ready|
      ensures ReadyListBut(r, p, t) && (c.stat != Ready ==> ReadyList(r, p))
    {
      assert ReadyListBut(s, p, t);
    }
    forall q | 0 <= q < |s.waits| ensures WaitList(r, q) {
      assert WaitList(s, q);
    }
  }

  lemma InsertPlaced(s: State, t: nat)
    requires PlacedBut(s, t)
    ensures Placed(Insert(s, t))
  {
    if s.current == Some(t) {
      SetPlaced(s, t, s.tcb[t].(stat := Running));
    } else {
      var r := Insert(s, t);
      forall p | 0 <= p < |s.ready| ensures ReadyList(r, p) {
        assert ReadyListBut(s, p, t);
        DistinctSnoc(s.ready[p], t);
      }
      forall q | 0 <= q < |s.waits| ensures WaitList(r, q) {
        assert WaitList(s, q);
      }
    }
  }

  /** A thread that is not READY may change in place as long as its status still fits. */
  lemma OffListPlaced(s: State, t: nat, c: Tcb)
    requires Placed(s) && t in s.tcb && s.tcb[t].stat != Ready
    requires c.prio < |s.ready| && c.initPrio < |s.ready|
    requires c.stat == s.tcb[t].stat || (s.tcb[t].stat == Init && c.stat in {Suspend, Close})
    ensures Placed(Put(s, t, c))
  {
    var r := Put(s, t, c);
    forall p | 0 <= p < |s.ready| ensures ReadyList(r, p) { assert ReadyList(s, p); }
    forall q | 0 <= q < |s.waits| ensures WaitList(r, q) { assert WaitList(s, q); }
  }

  /** The sections keep the placement even if the thread has changed its status since the test. */
  lemma LateResumePlaced(s: State, t: nat)
    requires Placed(s) && t in s.tcb
    ensures Placed(LateResume(s, t))
  {
    UnlinkPlaced(s, t);
    InsertPlaced(Unlink(s, t), t);
  }

  lemma LatePausePlaced(s: State, t: nat)
    requires Placed(s) && t in s.tcb
    ensures Placed(LatePause(s, t)) && PlacedBut(LatePause(s, t), t)
  {
    UnlinkPlaced(s, t);
    SetPlaced(Unlink(s, t), t, s.tcb[t].(stat := Suspend));
  }

  lemma ResumePlaced(s: State, t: nat)
    requires Placed(s) && t in s.tcb
    ensures Placed(Resume(s, t))
  {
    LateResumePlaced(s, t);
  }

  lemma PausePlaced(s: State, t: nat)
    requires Placed(s) && t in s.tcb
    ensures Placed(Pause(s, t))
    ensures s.tcb[t].stat in {Ready, Running} ==> PlacedBut(Pause(s, t), t)
  {
    LatePausePlaced(s, t);
  }

  lemma WaitOnPlaced(s: State, t: nat, q: nat, flag: Flag)
    requires Placed(s) && t in s.tcb && q < |s.waits| && s.tcb[t].stat == Running
    ensures Placed(WaitOn(s, t, q, flag))
  {
    PausePlaced(s, t);
    var s1 := Pause(s, t);
    var list := s1.waits[q];
    var i := if flag == Fifo then |list| else WaitIndex(s1, list, s.tcb[t].prio);
    DistinctInsert(list, i, t);
    var r := WaitOn(s, t, q, flag);
    forall p | 0 <= p < |r.ready| ensures ReadyList(r, p) {
      assert ReadyListBut(s1, p, t);
    }
    forall k | 0 <= k < |r.waits| ensures WaitList(r, k) {
      assert WaitList(s1, k);
    }
  }

  lemma ChangePriorityPlaced(s: State, t: nat, prio: nat)
    requires Placed(s) && t in s.tcb && prio < |s.ready|
    ensures Placed(ChangePriority(s, t, prio))
  {
    if s.tcb[t].stat == Ready {
      UnlinkPlaced(s, t);
      SetPlaced(Unlink(s, t), t, s.tcb[t].(prio := prio));
      InsertPlaced(Put(Unlink(s, t), t, s.tcb[t].(prio := prio)), t);
    } else {
      OffListPlaced(s, t, s.tcb[t].(prio := prio));
    }
  }

  /** Unlinking a thread that is to be closed keeps the placement, whatever its status. */
  lemma BeginClosePlaced(s: State, t: nat)
    requires Placed(s) && t in s.tcb
    ensures Placed(BeginClose(s, t))
  {
    var r := BeginClose(s, t);
    UnlinkPlaced(s, t);
    forall p | 0 <= p < |r.ready| ensures ReadyList(r, p) {
      assert ReadyList(s, p) && ReadyListBut(Unlink(s, t), p, t);
    }
    forall q | 0 <= q < |r.waits| ensures WaitList(r, q) { assert WaitList(s, q) && WaitList(Unlink(s, t), q); }
  }

  /** A thread is in no ready list and in no wait list. */
  ghost predicate Unlisted(s: State, t: nat) {
    && (forall p :: 0 <= p < |s.ready| ==> t !in s.ready[p])
    && (forall q :: 0 <= q < |s.waits| ==> t !in s.waits[q])
  }

  /** The placement as far as threads other than `t` are concerned. */
  ghost predicate OthersPlaced(s: State, t: nat) {
    && WellFormed(s) && Apart(s.waits)
    && (forall p :: 0 <= p < |s.ready| ==> Distinct(s.ready[p]))
    && (forall p, u :: 0 <= p < |s.ready| && u in s.ready[p] && u != t ==> s.tcb[u].stat == Ready && s.tcb[u].prio == p)
    && (forall u :: u in s.tcb && u != t && s.tcb[u].stat == Ready && u !in s.closing ==> u in s.ready[s.tcb[u].prio])
    && (forall q, u :: 0 <= q < |s.waits| && u in s.waits[q] && u != t ==> s.tcb[u].stat == Suspend)
    && (forall u :: u in s.tcb && u != t && s.tcb[u].stat == Running ==> s.current == Some(u))
  }

  /** Marking a thread closed keeps the placement if and only if nothing has put the thread back
      into a list since it was unlinked; everybody else stays placed in any case. */
  lemma EndClosePlaced(s: State, t: nat)
    requires Placed(s) && t in s.tcb
    ensures Placed(EndClose(s, t)) <==> Unlisted(s, t)
    ensures OthersPlaced(EndClose(s, t), t)
  {
    var r := EndClose(s, t);
    forall p, u | 0 <= p < |r.ready| && u in r.ready[p] && u != t ensures r.tcb[u].stat == Ready && r.tcb[u].prio == p {
      assert ReadyList(s, p);
    }
    forall p | 0 <= p < |r.ready| ensures Distinct(r.ready[p]) { assert ReadyList(s, p); }
    forall u | u in r.tcb && u != t && r.tcb[u].stat == Ready && u !in r.closing ensures u in r.ready[r.tcb[u].prio] {
      assert ReadyList(s, s.tcb[u].prio);
    }
    forall q, u | 0 <= q < |r.waits| && u in r.waits[q] && u != t ensures r.tcb[u].stat == Suspend {
      assert WaitList(s, q);
    }
    if Unlisted(s, t) {
      forall p | 0 <= p < |r.ready| ensures ReadyList(r, p) { assert ReadyList(s, p); }
      forall q | 0 <= q < |r.waits| ensures WaitList(r, q) { assert WaitList(s, q); }
    } else if p :| 0 <= p < |s.ready| && t in s.ready[p] {
      assert !ReadyList(r, p);
    } else {
      var q :| 0 <= q < |s.waits| && t in s.waits[q];
      assert !WaitList(r, q);
    }
  }

  lemma QuitPlaced(s: State)
    requires Placed(s) && s.current.Some?
    ensures Placed(Quit(s))
  {
    var t := s.current.value;
    UnlinkPlaced(s, t);
    var c := s.tcb[t].(stat := Close, yielded := false);
    SetPlaced(Unlink(s, t), t, c);
    ScheduleIsPreemptive(Put(Unlink(s, t), t, c));
  }

  /** READY and not withdrawn by a detach or delete that is under way. */
  ghost predicate Runnable(s: State, t: nat) {
    && t in s.tcb && s.tcb[t].stat == Ready
    && (t in s.closing ==> s.tcb[t].prio < |s.ready| && t in s.ready[s.tcb[t].prio])
  }

  ghost predicate MostUrgentRuns(s: State) {
    && s.current.Some? && s.current.value in s.tcb && s.tcb[s.current.value].stat == Running
    && forall t :: Runnable(s, t) ==> s.tcb[s.current.value].prio <= s.tcb[t].prio
  }

  /** Scheduling neither loses nor invents a runnable thread and changes no priority. */
  ghost predicate SameThreads(s: State, r: State) {
    && r.tcb.Keys == s.tcb.Keys && r.waits == s.waits
    && forall t :: t in s.tcb ==>
         && (r.tcb[t].stat in {Ready, Running} <==> s.tcb[t].stat in {Ready, Running})
         && r.tcb[t].prio == s.tcb[t].prio
  }

  /** `to` is ready and nobody ready is more urgent. */
  ghost predicate Best(s: State, to: nat) {
    && to in s.tcb && s.tcb[to].stat == Ready
    && forall t :: Runnable(s, t) ==> s.tcb[to].prio <= s.tcb[t].prio
  }

  lemma TopIsBest(s: State)
    requires Placed(s) && AnyReady(s)
    ensures var to := s.ready[Top(s.ready)][0]; Best(s, to) && s.tcb[to].prio == Top(s.ready)
  {
    var h := Top(s.ready);
    assert s.ready[h][0] in s.ready[h] && ReadyList(s, h);
    forall t | Runnable(s, t) ensures h <= s.tcb[t].prio {
      assert ReadyList(s, s.tcb[t].prio);
    }
  }

  /** The chosen thread is in no wait list, so switching leaves those alone. */
  lemma SwitchKeepsWaits(s: State, t: nat)
    requires Placed(s) && t in s.tcb && s.tcb[t].stat != Suspend
    ensures Unlink(s, t).waits == s.waits
  {
    forall q | 0 <= q < |s.waits| ensures Without(s.waits[q], t) == s.waits[q] {
      assert WaitList(s, q);
    }
  }

  /** The current thread is not RUNNING: the chosen one leaves its queue and runs. */
  lemma SwitchPlaced(s: State, to: nat)
    requires Placed(s) && Best(s, to) && s.current.Some? && s.tcb[s.current.value].stat != Running
    ensures var r := SwitchTo(s.(current := Some(to)), to);
      Placed(r) && MostUrgentRuns(r) && SameThreads(s, r)
  {
    UnlinkPlaced(s, to);
    SwitchKeepsWaits(s, to);
    var s1 := Unlink(s, to);
    var s2 := s1.(current := Some(to));
    forall p | 0 <= p < |s.ready| ensures ReadyListBut(s2, p, to) { assert ReadyListBut(s1, p, to); }
    forall q | 0 <= q < |s.waits| ensures WaitList(s2, q) { assert WaitList(s1, q); }
    assert PlacedBut(s2, to);
    SetPlaced(s2, to, s.tcb[to].(stat := Running));
  }

  /** The current thread gives way: it is queued, the chosen one leaves its queue and runs. */
  lemma PreemptPlaced(s: State, cur: nat, to: nat)
    requires Placed(s) && Best(s, to)
    requires s.current == Some(cur) && s.tcb[cur].stat == Running && s.tcb[to].prio <= s.tcb[cur].prio
    ensures var r := SwitchTo(Insert(s.(current := Some(to)), cur), to);
      Placed(r) && MostUrgentRuns(r) && SameThreads(s, r)
  {
    var s3 := PreemptKeepsPlace(s, cur, to);
    assert s3.tcb == s.tcb[to := s.tcb[to].(stat := Running)][cur := s.tcb[cur].(stat := Ready)];
    forall t | Runnable(s3, t) ensures s3.tcb[to].prio <= s3.tcb[t].prio { assert t == cur || Runnable(s, t); }
  }

  lemma PreemptKeepsPlace(s: State, cur: nat, to: nat) returns (r: State)
    requires Placed(s) && Best(s, to)
    requires s.current == Some(cur) && s.tcb[cur].stat == Running
    ensures r == SwitchTo(Insert(s.(current := Some(to)), cur), to) && Placed(r)
    ensures r.waits == s.waits && r.closing == s.closing && r.current == Some(to)
    ensures r.tcb == s.tcb[to := s.tcb[to].(stat := Running)][cur := s.tcb[cur].(stat := Ready)]
    ensures forall p, t :: 0 <= p < |r.ready| && t in r.ready[p] ==> t == cur || (p < |s.ready| && t in s.ready[p])
  {
    var s1 := s.(current := Some(to));
    UnlinkPlaced(s, to);
    SwitchKeepsWaits(s, to);
    var s2 := Unlink(s, to);
    var s3 := SwitchTo(s1, to);
    forall p | 0 <= p < |s.ready| ensures ReadyListBut(s3, p, cur) { assert ReadyListBut(s2, p, to); }
    forall q | 0 <= q < |s.waits| ensures WaitList(s3, q) && cur !in s3.waits[q] {
      assert WaitList(s, q) && WaitList(s2, q);
    }
    assert PlacedBut(s3, cur);
    InsertPlaced(s3, cur);
    SwitchInsertCommute(s1, cur, to);
    r := Insert(s3, cur);
  }

  /** Queueing one thread and unlinking another may be done in either order. */
  lemma SwitchInsertCommute(s: State, cur: nat, to: nat)
    requires cur in s.tcb && to in s.tcb && cur != to && s.current == Some(to)
    requires s.tcb[cur].prio < |s.ready|
    ensures SwitchTo(Insert(s, cur), to) == Insert(SwitchTo(s, to), cur)
  {
    var p := s.tcb[cur].prio;
    WithoutConcat(s.ready[p], [cur], to);
    assert SwitchTo(Insert(s, cur), to).ready == Insert(SwitchTo(s, to), cur).ready;
    assert SwitchTo(Insert(s, cur), to).tcb == Insert(SwitchTo(s, to), cur).tcb;
  }

  /** The current thread stays: it is in no list, so unlinking it changes nothing. */
  lemma StayPlaced(s: State, cur: nat)
    requires Placed(s) && s.current == Some(cur) && s.tcb[cur].stat == Running
    ensures SwitchTo(s, cur) == s
  {
    forall p | 0 <= p < |s.ready| ensures Without(s.ready[p], cur) == s.ready[p] { assert ReadyList(s, p); }
    SwitchKeepsWaits(s, cur);
    assert SwitchTo(s, cur).ready == s.ready && SwitchTo(s, cur).tcb == s.tcb;
  }

  /** A field the placement does not read. */
  lemma TouchPlaced(s: State, t: nat, c: Tcb)
    requires Placed(s) && t in s.tcb
    requires c.stat == s.tcb[t].stat && c.prio == s.tcb[t].prio && c.initPrio == s.tcb[t].initPrio
    ensures Placed(Put(s, t, c)) && SameThreads(s, Put(s, t, c))
    ensures forall u :: Best(s, u) ==> Best(Put(s, t, c), u)
  {
    var r := Put(s, t, c);
    forall p | 0 <= p < |s.ready| ensures ReadyList(r, p) { assert ReadyList(s, p); }
    forall q | 0 <= q < |s.waits| ensures WaitList(r, q) { assert WaitList(s, q); }
  }

  /** After an unlocked `rt_schedule` the running thread is RUNNING and no READY thread is
      more urgent; nobody is lost or invented, and the placement is kept. */
  lemma ScheduleIsPreemptive(s: State)
    requires Placed(s) && s.current.Some?
    ensures Placed(Schedule(s)) && Schedule(s).current.Some? && Schedule(s).lockNest == s.lockNest
    ensures SameThreads(s, Schedule(s))
    ensures s.lockNest == 0 && (AnyReady(s) || s.tcb[s.current.value].stat == Running) ==> MostUrgentRuns(Schedule(s))
  {
    if s.lockNest == 0 && AnyReady(s) {
      var h := Top(s.ready);
      var to := s.ready[h][0];
      TopIsBest(s);
      var cur := s.current.value;
      var c := s.tcb[cur];
      if c.stat != Running {
        SwitchPlaced(s, to);
      } else {
        var s1 := Put(s, cur, c.(yielded := false));
        TouchPlaced(s, cur, c.(yielded := false));
        if c.prio < h || (c.prio == h && !c.yielded) {
          StayPlaced(s1, cur);
        } else {
          PreemptPlaced(s1, cur, to);
        }
      }
    } else {
      NoneReady(s);
    }
  }

  lemma NoneReady(s: State)
    requires Placed(s)
    ensures !AnyReady(s) ==> forall t :: !Runnable(s, t)
  {
    forall t | Runnable(s, t) ensures AnyReady(s) {
      assert ReadyList(s, s.tcb[t].prio);
    }
  }

  // --------------------------------------------------------------------------------
  // Runs
  // --------------------------------------------------------------------------------

  /** Whole calls, and the sections of those that enable interrupts before they schedule: with
      `OpPrepare`, `OpResume`, `OpTickSection` and `OpUnlock` in front of `OpSchedule`, starting and
      timing out a thread, a tick and the end of a critical section may be interrupted there. */
  datatype Op =
    | OpStart | OpSchedule | OpYield | OpTick | OpTickSection | OpEnter | OpExit | OpUnlock | OpQuit
    | OpStartup(t: nat) | OpPrepare(t: nat) | OpResume(t: nat) | OpPause(t: nat) | OpTimeout(t: nat)
    | OpBeginClose(t: nat) | OpEndClose(t: nat) | OpLateResume(t: nat) | OpLatePause(t: nat)
    | OpPriority(t: nat, prio: nat)
    | OpWait(q: nat, flag: Flag)

  /** What the callers of an operation, or its own assertions, demand. */
  ghost predicate Allowed(s: State, op: Op) {
    match op
    case OpStart => s.current.None? && AnyReady(s)
    case OpSchedule => s.current.Some?
    case OpYield => s.current.Some?
    case OpTick => s.current.Some?
    case OpTickSection => s.current.Some? && s.current.value in s.tcb
    case OpEnter => true
    case OpExit => true
    case OpUnlock => true
    case OpStartup(t) => t in s.tcb && s.tcb[t].stat == Init
    case OpPrepare(t) => t in s.tcb && s.tcb[t].stat == Init
    case OpResume(t) => t in s.tcb
    case OpPause(t) => t in s.tcb
    case OpTimeout(t) => t in s.tcb && s.current.Some? && s.tcb[t].stat == Suspend
    case OpQuit => s.current.Some?
    case OpBeginClose(t) => t in s.tcb
    case OpLateResume(t) => t in s.tcb && s.tcb[t].stat != Init
    case OpLatePause(t) => t in s.tcb && s.tcb[t].stat != Init
    case OpEndClose(t) => t in s.tcb && t in s.closing
    case OpPriority(t, prio) => t in s.tcb && prio < |s.ready|
    case OpWait(q, flag) =>
      q < |s.waits| && s.current.Some? && s.current.value in s.tcb && s.tcb[s.current.value].stat == Running
  }

  ghost function Apply(s: State, op: Op): State
    requires WellFormed(s) && Allowed(s, op)
  {
    match op
    case OpStart => Start(s)
    case OpSchedule => Schedule(s)
    case OpYield => Yield(s)
    case OpTick => Tick(s)
    case OpTickSection => TickSection(s)
    case OpEnter => s.(lockNest := s.lockNest + 1)
    case OpExit => ExitCritical(s)
    case OpUnlock => s.(lockNest := if s.lockNest > 1 then s.lockNest - 1 else 0)
    case OpStartup(t) => Startup(s, t)
    case OpPrepare(t) => Prepare(s, t)
    case OpResume(t) => Resume(s, t)
    case OpPause(t) => Pause(s, t)
    case OpTimeout(t) => Timeout(s, t)
    case OpQuit => Quit(s)
    case OpBeginClose(t) => BeginClose(s, t)
    case OpLateResume(t) => LateResume(s, t)
    case OpLatePause(t) => LatePause(s, t)
    case OpEndClose(t) => EndClose(s, t)
    case OpPriority(t, prio) => ChangePriority(s, t, prio)
    case OpWait(q, flag) => WaitOn(s, s.current.value, q, flag)
  }

  lemma StartPlaced(s: State)
    requires Placed(s) && s.current.None? && AnyReady(s)
    ensures Placed(Start(s)) && MostUrgentRuns(Start(s))
  {
    var to := s.ready[Top(s.ready)][0];
    TopIsBest(s);
    UnlinkPlaced(s, to);
    var s1 := Unlink(s, to);
    var s2 := s1.(current := Some(to));
    forall p | 0 <= p < |s.ready| ensures ReadyListBut(s2, p, to) { assert ReadyListBut(s1, p, to); }
    forall q | 0 <= q < |s.waits| ensures WaitList(s2, q) { assert WaitList(s1, q); }
    assert PlacedBut(s2, to);
    SetPlaced(s2, to, s.tcb[to].(stat := Running, yielded := false));
  }

  lemma LockPlaced(s: State, nest: nat)
    requires Placed(s)
    ensures Placed(s.(lockNest := nest))
  {
    var r := s.(lockNest := nest);
    forall p | 0 <= p < |s.ready| ensures ReadyList(r, p) { assert ReadyList(s, p); }
    forall q | 0 <= q < |s.waits| ensures WaitList(r, q) { assert WaitList(s, q); }
  }

  /** The one step that may come too late: a thread marked closed when it is in a list again. */
  ghost predicate InTime(s: State, op: Op) {
    op.OpEndClose? ==> Unlisted(s, op.t)
  }

  /** Every step keeps every thread where its status says, if and only if it is not a thread being
      marked closed when it is in a list. */
  lemma ApplyPlaced(s: State, op: Op)
    requires Placed(s) && Allowed(s, op)
    ensures Placed(Apply(s, op)) <==> InTime(s, op)
  {
    match op
    case OpStart => StartPlaced(s);
    case OpSchedule => ScheduleIsPreemptive(s);
    case OpYield => YieldPlaced(s);
    case OpTick => TickPlaced(s);
    case OpTickSection => TickSectionPlaced(s);
    case OpEnter => LockPlaced(s, s.lockNest + 1);
    case OpExit => ExitPlaced(s);
    case OpUnlock => LockPlaced(s, if s.lockNest > 1 then s.lockNest - 1 else 0);
    case OpStartup(t) => StartupPlaced(s, t);
    case OpPrepare(t) => PreparePlaced(s, t);
    case OpResume(t) => ResumePlaced(s, t);
    case OpPause(t) => PausePlaced(s, t);
    case OpTimeout(t) => TimeoutPlaced(s, t);
    case OpQuit => QuitPlaced(s);
    case OpBeginClose(t) => BeginClosePlaced(s, t);
    case OpLateResume(t) => LateResumePlaced(s, t);
    case OpLatePause(t) => LatePausePlaced(s, t);
    case OpEndClose(t) => EndClosePlaced(s, t);
    case OpPriority(t, prio) => ChangePriorityPlaced(s, t, prio);
    case OpWait(q, flag) => WaitOnPlaced(s, s.current.value, q, flag);
  }

  lemma TickPlaced(s: State)
    requires Placed(s) && s.current.Some?
    ensures Placed(Tick(s))
  {
    if Expires(s) {
      TickIsYield(s);
      YieldPlaced(s);
    } else {
      var c := s.tcb[s.current.value];
      TouchPlaced(s, s.current.value, c.(remaining := (c.remaining - 1) % 0x1_0000_0000));
    }
  }

  lemma TickSectionPlaced(s: State)
    requires Placed(s) && s.current.Some?
    ensures s.current.value in s.tcb && Placed(TickSection(s))
  {
    var t := s.current.value;
    var c := s.tcb[t];
    var s1 := CountedDown(s);
    TouchPlaced(s, t, c.(remaining := (c.remaining - 1) % 0x1_0000_0000));
    TouchPlaced(s1, t, c.(remaining := c.slice, yielded := true));
  }

  /** A tick and a timeout are their first sections followed by a schedule. */
  lemma SectionsMakeCalls(s: State, t: nat)
    requires Placed(s) && s.current.Some?
    ensures s.current.value in s.tcb && Placed(TickSection(s))
    ensures Tick(s) == if Expires(s) then Schedule(TickSection(s)) else TickSection(s)
    ensures t in s.tcb && s.tcb[t].stat == Suspend ==>
      Placed(Resume(s, t)) && Timeout(s, t) == Schedule(Resume(s, t))
  {
    TickSectionPlaced(s);
    if t in s.tcb { ResumePlaced(s, t); }
  }

  lemma ExitPlaced(s: State)
    requires Placed(s)
    ensures Placed(ExitCritical(s))
  {
    if s.lockNest > 1 {
      LockPlaced(s, s.lockNest - 1);
    } else {
      LockPlaced(s, 0);
      if s.current.Some? { ScheduleIsPreemptive(s.(lockNest := 0)); }
    }
  }

  lemma PreparePlaced(s: State, t: nat)
    requires Placed(s) && Allowed(s, OpPrepare(t))
    ensures Placed(Prepare(s, t))
  {
    var c := s.tcb[t];
    OffListPlaced(s, t, c.(prio := c.initPrio, stat := Suspend, yielded := false));
  }

  lemma StartupPlaced(s: State, t: nat)
    requires Placed(s) && Allowed(s, OpStartup(t))
    ensures Placed(Startup(s, t))
  {
    PreparePlaced(s, t);
    ResumePlaced(Prepare(s, t), t);
    if s.current.Some? { ScheduleIsPreemptive(Resume(Prepare(s, t), t)); }
  }

  lemma TimeoutPlaced(s: State, t: nat)
    requires Placed(s) && Allowed(s, OpTimeout(t))
    ensures Placed(Timeout(s, t))
  {
    UnlinkPlaced(s, t);
    InsertPlaced(Unlink(s, t), t);
    ScheduleIsPreemptive(Insert(Unlink(s, t), t));
  }

  lemma YieldPlaced(s: State)
    requires Placed(s) && s.current.Some?
    ensures Placed(Yield(s))
  {
    var c := s.tcb[s.current.value];
    TouchPlaced(s, s.current.value, c.(remaining := c.slice, yielded := true));
    ScheduleIsPreemptive(Put(s, s.current.value, c.(remaining := c.slice, yielded := true)));
  }

  /** Before the scheduler starts: threads initialised, nothing queued, nobody running. */
  ghost predicate Boot(s: State) {
    && (forall t :: t in s.tcb ==> s.tcb[t].stat == Init && s.tcb[t].prio < |s.ready| && s.tcb[t].initPrio < |s.ready|)
    && (forall p :: 0 <= p < |s.ready| ==> s.ready[p] == [])
    && (forall q :: 0 <= q < |s.waits| ==> s.waits[q] == [])
    && s.current.None? && s.closing == {}
  }

  ghost predicate AllowedRun(s: State, ops: seq<Op>)
    requires Placed(s)
    decreases |ops|
  {
    ops == [] ||
    (Allowed(s, ops[0]) && InTime(s, ops[0]) && (ApplyPlaced(s, ops[0]); AllowedRun(Apply(s, ops[0]), ops[1..])))
  }

  /** In every state a run can reach, each thread sits exactly where its status says. */
  ghost function Run(s: State, ops: seq<Op>): (r: State)
    requires Placed(s) && AllowedRun(s, ops)
    ensures Placed(r)
    decreases |ops|
  {
    if ops == [] then s else ApplyPlaced(s, ops[0]); Run(Apply(s, ops[0]), ops[1..])
  }

  /** Whatever happened before, an unlocked `rt_schedule` leaves the most urgent thread running. */
  lemma ReachablePreemptive(s: State, ops: seq<Op>)
    requires Placed(s) && AllowedRun(s, ops)
    ensures var r := Run(s, ops);
      r.current.Some? && r.lockNest == 0 && (AnyReady(r) || r.tcb[r.current.value].stat == Running)
      ==> MostUrgentRuns(Schedule(r)) && Placed(Schedule(r))
  {
    var r := Run(s, ops);
    if r.current.Some? { ScheduleIsPreemptive(r); }
  }

  lemma BootPlaced(s: State)
    requires Boot(s)
    ensures Placed(s)
  {
    assert forall t :: t in s.tcb ==> s.tcb[t].stat == Init;
  }

  // --------------------------------------------------------------------------------
  // Round robin
  // --------------------------------------------------------------------------------

  /** The current thread followed by the queue of its priority. */
  ghost function Line(s: State): seq<nat>
    requires WellFormed(s) && s.current.Some?
  {
    [s.current.value] + s.ready[s.tcb[s.current.value].prio]
  }

  /** `after` is `line` with its head moved to its end `n` times. */
  ghost predicate Rotated(line: seq<nat>, after: seq<nat>, n: nat)
    decreases n
  {
    if n == 0 then after == line else line != [] && Rotated(line[1..] + [line[0]], after, n - 1)
  }

  ghost predicate Steady(s: State) {
    Placed(s) && s.lockNest == 0 && MostUrgentRuns(s)
  }

  /** The running priority is the same and no other queue has changed. */
  ghost predicate OnlyLineMoved(s: State, r: State)
    requires WellFormed(s) && s.current.Some? && WellFormed(r) && r.current.Some?
  {
    r.tcb[r.current.value].prio == s.tcb[s.current.value].prio
    && SameBut(s.ready, r.ready, s.tcb[s.current.value].prio)
  }

  ghost predicate SameBut(a: seq<seq<nat>>, b: seq<seq<nat>>, p: nat) {
    |a| == |b| && forall q :: 0 <= q < |a| && q != p ==> a[q] == b[q]
  }

  /** Giving way to the head of one's own queue. */
  lemma PreemptEqual(s: State, cur: nat, h: nat)
    requires Placed(s) && s.current == Some(cur) && s.tcb[cur].stat == Running && s.tcb[cur].prio == h
    requires s.ready[h] != []
    ensures s.ready[h][0] in s.tcb && s.tcb[s.ready[h][0]].prio == h
    ensures var to := s.ready[h][0];
      SwitchTo(Insert(s.(current := Some(to)), cur), to).ready == s.ready[h := s.ready[h][1..] + [cur]]
  {
    var to := s.ready[h][0];
    assert to in s.ready[h] && ReadyList(s, h);
    SwitchInsertCommute(s.(current := Some(to)), cur, to);
    WithoutFront(s.ready[h]);
    forall p | 0 <= p < |s.ready| && p != h ensures Without(s.ready[p], to) == s.ready[p] {
      assert ReadyList(s, p);
    }
  }

  /** What a yield does to the queues. */
  lemma YieldShape(s: State)
    requires Steady(s)
    ensures var p := s.tcb[s.current.value].prio;
      if s.ready[p] == [] then Yield(s).ready == s.ready && Yield(s).current == s.current
      else && Yield(s).ready == s.ready[p := s.ready[p][1..] + [s.current.value]]
           && Yield(s).current == Some(s.ready[p][0])
           && s.ready[p][0] in s.tcb && s.tcb[s.ready[p][0]].prio == p
  {
    var cur := s.current.value;
    var c := s.tcb[cur].(remaining := s.tcb[cur].slice, yielded := true);
    var s1 := Put(s, cur, c);
    TouchPlaced(s, cur, c);
    if AnyReady(s1) {
      var h := Top(s.ready);
      TopIsBest(s1);
      var s2 := Put(s1, cur, c.(yielded := false));
      TouchPlaced(s1, cur, c.(yielded := false));
      if c.prio < h {
        StayPlaced(s2, cur);
      } else {
        PreemptEqual(s2, cur, h);
      }
    }
  }

  lemma YieldSteady(s: State)
    requires Steady(s)
    ensures Steady(Yield(s)) && SameThreads(s, Yield(s))
  {
    var cur := s.current.value;
    var c := s.tcb[cur].(remaining := s.tcb[cur].slice, yielded := true);
    TouchPlaced(s, cur, c);
    ScheduleIsPreemptive(Put(s, cur, c));
  }

  /** One yield moves the head of the line to its end; no other priority is touched. */
  lemma YieldRotates(s: State)
    requires Steady(s)
    ensures Steady(Yield(s)) && OnlyLineMoved(s, Yield(s))
    ensures Line(Yield(s)) == Line(s)[1..] + [Line(s)[0]]
  {
    YieldSteady(s);
    YieldShape(s);
  }


  /** `r` differs from `s` by `n` rotations of the line. */
  ghost predicate RotatedBy(s: State, r: State, n: nat) {
    && WellFormed(s) && s.current.Some? && WellFormed(r) && r.current.Some?
    && OnlyLineMoved(s, r) && Rotated(Line(s), Line(r), n)
  }

  /** What may happen to the running thread: it yields, or a tick passes. */
  datatype Beat = YieldBeat | TickBeat

  /** The tick that comes now is the last of the time slice. */
  ghost predicate Expires(s: State)
    requires WellFormed(s) && s.current.Some?
  {
    (s.tcb[s.current.value].remaining - 1) % 0x1_0000_0000 == 0
  }

  ghost function After(s: State, b: Beat): State
    requires WellFormed(s) && s.current.Some?
  {
    if b.YieldBeat? then Yield(s) else Tick(s)
  }

  /** Whether a beat ends the turn of the running thread. */
  ghost predicate EndsTurn(s: State, b: Beat)
    requires WellFormed(s) && s.current.Some?
  {
    b.YieldBeat? || Expires(s)
  }

  /** The assignments that `rt_tick_increase` makes when a slice ends come to those of a yield. */
  lemma TickIsYield(s: State)
    requires WellFormed(s) && s.current.Some? && Expires(s)
    ensures Tick(s) == Yield(s)
  {
    var t, c := s.current.value, s.tcb[s.current.value];
    assert s.tcb[t := c.(remaining := 0)][t := c.(remaining := c.slice, yielded := true)] ==
      s.tcb[t := c.(remaining := c.slice, yielded := true)];
  }

  /** A beat that ends a turn rotates the line by one; another leaves it as it is. */
  lemma BeatRotates(s: State, b: Beat)
    requires Steady(s)
    ensures Steady(After(s, b)) && RotatedBy(s, After(s, b), if EndsTurn(s, b) then 1 else 0)
  {
    if EndsTurn(s, b) {
      if b.TickBeat? { TickIsYield(s); }
      YieldRotates(s);
      var m := Yield(s);
      assert Rotated(Line(m), Line(m), 0);
    } else {
      QuietTick(s);
    }
  }

  lemma QuietTick(s: State)
    requires Steady(s) && !Expires(s)
    ensures Steady(Tick(s)) && RotatedBy(s, Tick(s), 0)
    ensures Tick(s).current == s.current
    ensures Tick(s).tcb[s.current.value].remaining == (s.tcb[s.current.value].remaining - 1) % 0x1_0000_0000
  {
    TickCounts(s);
    CountedSteady(s);
  }

  lemma TickCounts(s: State)
    requires WellFormed(s) && s.current.Some? && !Expires(s)
    ensures Tick(s) == CountedDown(s)
  {
  }

  lemma CountedSteady(s: State)
    requires Steady(s)
    ensures Steady(CountedDown(s)) && RotatedBy(s, CountedDown(s), 0)
  {
    var c, r := s.tcb[s.current.value], CountedDown(s);
    TouchPlaced(s, s.current.value, c.(remaining := (c.remaining - 1) % 0x1_0000_0000));
    assert Steady(r) by {
      forall t | Runnable(r, t) ensures r.tcb[r.current.value].prio <= r.tcb[t].prio { assert Runnable(s, t); }
    }
  }

  ghost function Beats(s: State, bs: seq<Beat>): (r: State)
    requires Steady(s)
    ensures Steady(r)
    decreases |bs|
  {
    if bs == [] then s else BeatRotates(s, bs[0]); Beats(After(s, bs[0]), bs[1..])
  }

  /** How many turns end in a run of beats. */
  ghost function Turns(s: State, bs: seq<Beat>): nat
    requires Steady(s)
    decreases |bs|
  {
    if bs == [] then 0
    else BeatRotates(s, bs[0]); (if EndsTurn(s, bs[0]) then 1 else 0) + Turns(After(s, bs[0]), bs[1..])
  }

  /** `ss` are states each of which is the one before with its line rotated at most once. */
  ghost predicate Trail(ss: seq<State>, ks: seq<nat>)
    decreases |ss|
  {
    && |ss| == |ks| + 1
    && (ks != [] ==> ks[0] <= 1 && RotatedBy(ss[0], ss[1], ks[0]) && Trail(ss[1..], ks[1..]))
  }

  function Sum(ks: seq<nat>): nat {
    if ks == [] then 0 else ks[0] + Sum(ks[1..])
  }

  lemma {:induction false} TrailRotates(ss: seq<State>, ks: seq<nat>)
    requires Trail(ss, ks) && WellFormed(ss[0]) && ss[0].current.Some?
    ensures RotatedBy(ss[0], ss[|ks|], Sum(ks))
    decreases |ks|
  {
    if ks == [] {
      NotRotated(ss[0]);
    } else {
      TrailRotates(ss[1..], ks[1..]);
      RotateTrans(ss[0], ss[1], ss[|ks|], ks[0], Sum(ks[1..]));
    }
  }

  lemma {:induction false} BeatTrail(s: State, bs: seq<Beat>) returns (ss: seq<State>, ks: seq<nat>)
    requires Steady(s)
    ensures Trail(ss, ks) && |ks| == |bs| && ss[0] == s && ss[|ks|] == Beats(s, bs) && Sum(ks) == Turns(s, bs)
    decreases |bs|
  {
    if bs == [] {
      ss, ks := [s], [];
    } else {
      var m, k := FirstBeat(s, bs);
      var rest, more := BeatTrail(m, bs[1..]);
      ss, ks := [s] + rest, [k] + more;
      assert ss[1..] == rest && ks[1..] == more;
    }
  }

  /** Any mix of yields and ticks rotates the line by the number of turns that ended in it. */
  lemma BeatsRotate(s: State, bs: seq<Beat>)
    requires Steady(s)
    ensures RotatedBy(s, Beats(s, bs), Turns(s, bs))
  {
    var ss, ks := BeatTrail(s, bs);
    TrailRotates(ss, ks);
  }

  lemma NotRotated(s: State)
    requires WellFormed(s) && s.current.Some?
    ensures RotatedBy(s, s, 0)
  {
    assert Rotated(Line(s), Line(s), 0);
  }

  lemma FirstBeat(s: State, bs: seq<Beat>) returns (m: State, k: nat)
    requires Steady(s) && bs != []
    ensures Steady(m) && k <= 1 && RotatedBy(s, m, k)
    ensures Beats(s, bs) == Beats(m, bs[1..]) && Turns(s, bs) == k + Turns(m, bs[1..])
  {
    BeatRotates(s, bs[0]);
    m, k := After(s, bs[0]), if EndsTurn(s, bs[0]) then 1 else 0;
  }

  lemma RotateTrans(s: State, m: State, r: State, k: nat, n: nat)
    requires k <= 1 && RotatedBy(s, m, k) && RotatedBy(m, r, n)
    ensures RotatedBy(s, r, k + n)
  {
    if k == 1 { assert Rotated(Line(s)[1..] + [Line(s)[0]], Line(m), 0); }
  }

  function Ticks(n: nat): seq<Beat> {
    seq(n, _ => TickBeat)
  }

  /** A time slice of `r` ticks lasts exactly that long: fewer ticks end no turn, and `r` ticks end
      one, so they rotate the line once. */
  lemma {:induction false} SliceLasts(s: State, n: nat)
    requires Steady(s) && 1 <= s.tcb[s.current.value].remaining < 0x1_0000_0000
    requires n <= s.tcb[s.current.value].remaining
    ensures Turns(s, Ticks(n)) == if n == s.tcb[s.current.value].remaining then 1 else 0
    decreases n
  {
    if n > 0 {
      if s.tcb[s.current.value].remaining == 1 {
        LastTick(s);
      } else {
        var m := EarlierTick(s, n);
        SliceLasts(m, n - 1);
      }
    }
  }

  lemma LastTick(s: State)
    requires Steady(s) && s.tcb[s.current.value].remaining == 1
    ensures Turns(s, Ticks(1)) == 1
  {
    TurnsSplit(s, 1);
    assert Turns(After(s, TickBeat), []) == 0;
  }

  lemma TurnsSplit(s: State, n: nat)
    requires Steady(s) && n > 0
    ensures Steady(After(s, TickBeat)) && Ticks(n - 1) == Ticks(n)[1..]
    ensures Turns(s, Ticks(n)) == (if EndsTurn(s, TickBeat) then 1 else 0) + Turns(After(s, TickBeat), Ticks(n - 1))
  {
    BeatRotates(s, TickBeat);
    assert Ticks(n)[0] == TickBeat && Ticks(n)[1..] == Ticks(n - 1);
  }

  lemma EarlierTick(s: State, n: nat) returns (m: State)
    requires Steady(s) && 1 < s.tcb[s.current.value].remaining < 0x1_0000_0000 && n > 0
    ensures Steady(m) && m.tcb[m.current.value].remaining == s.tcb[s.current.value].remaining - 1
    ensures Turns(s, Ticks(n)) == Turns(m, Ticks(n - 1))
  {
    QuietTick(s);
    TurnsSplit(s, n);
    m := Tick(s);
  }

  lemma {:induction false} RotateIsShift(line: seq<nat>, after: seq<nat>, n: nat)
    requires n <= |line| && Rotated(line, after, n)
    ensures after == line[n..] + line[..n]
    decreases n
  {
    if n > 0 {
      var next := line[1..] + [line[0]];
      RotateIsShift(next, after, n - 1);
      assert next[n - 1..] + next[..n - 1] == line[n..] + line[..n];
    }
  }

  /** With `k` threads in the line and any mix of yields and expired slices, the thread that runs
      after `i` turns is the i-th of the line, and after `k` turns everyone has run once and the
      order is as before. */
  lemma RoundRobin(s: State, bs: seq<Beat>)
    requires Steady(s) && Turns(s, bs) <= |Line(s)|
    ensures Turns(s, bs) < |Line(s)| ==> Beats(s, bs).current == Some(Line(s)[Turns(s, bs)])
    ensures Turns(s, bs) == |Line(s)| ==> Line(Beats(s, bs)) == Line(s)
  {
    BeatsRotate(s, bs);
    var r, n := Beats(s, bs), Turns(s, bs);
    RotateIsShift(Line(s), Line(r), n);
    assert n < |Line(s)| ==> Line(r)[0] == Line(s)[n];
  }

  // --------------------------------------------------------------------------------
  // Detaching a thread that waits with a timeout
  // --------------------------------------------------------------------------------

  /** A schedule that finds the most urgent thread running changes nothing. */
  lemma ScheduleStays(s: State)
    requires Placed(s) && MostUrgentRuns(s) && !s.tcb[s.current.value].yielded
    ensures Schedule(s) == s
  {
    if s.lockNest == 0 && AnyReady(s) {
      TopIsBest(s);
      var to, cur := s.ready[Top(s.ready)][0], s.current.value;
      assert to in s.ready[Top(s.ready)] && Runnable(s, to);
      assert s.tcb[cur := s.tcb[cur].(yielded := false)] == s.tcb;
      StayPlaced(s, cur);
    }
  }

  /** Whenever a waiting thread is detached and its timeout comes before it is marked closed, it
      ends up closed and queued as READY: the other threads are placed, this one is not. */
  lemma DetachWindow(s: State, t: nat) returns (s1: State, s2: State, r: State)
    requires Placed(s) && MostUrgentRuns(s) && !s.tcb[s.current.value].yielded
    requires t in s.tcb && s.tcb[t].stat == Suspend && s.tcb[s.current.value].prio <= s.tcb[t].prio
    ensures Allowed(s, OpBeginClose(t)) && s1 == BeginClose(s, t) && Placed(s1)
    ensures Allowed(s1, OpTimeout(t)) && s2 == Timeout(s1, t)
    ensures Allowed(s2, OpEndClose(t)) && r == EndClose(s2, t) && !Placed(r) && OthersPlaced(r, t)
    ensures r.tcb[t].stat == Close && t in r.ready[s.tcb[t].prio]
  {
    s1 := BeginClose(s, t);
    BeginClosePlaced(s, t);
    s2 := TimedOut(s1, t);
    r := EndClose(s2, t);
    EndClosePlaced(s2, t);
  }

  /** A timeout of a thread that is not more urgent than the running one just queues it. */
  lemma TimedOut(s: State, t: nat) returns (r: State)
    requires Placed(s) && MostUrgentRuns(s) && !s.tcb[s.current.value].yielded
    requires t in s.tcb && s.tcb[t].stat == Suspend && s.tcb[s.current.value].prio <= s.tcb[t].prio
    ensures r == Timeout(s, t) && r == Insert(Unlink(s, t), t) && Placed(r) && t in r.ready[s.tcb[t].prio]
  {
    UnlinkPlaced(s, t);
    InsertPlaced(Unlink(s, t), t);
    r := Insert(Unlink(s, t), t);
    forall u | Runnable(r, u) ensures s.tcb[s.current.value].prio <= r.tcb[u].prio {
      assert u != t ==> Runnable(s, u);
    }
    ScheduleStays(r);
  }

  /** Such a state: thread 0 runs, and thread 1, less urgent, waits. */
  lemma DetachWindowHappens()
    ensures var s := State(map[0 := Tcb(Running, false, 0, 0, 1, 1), 1 := Tcb(Suspend, false, 1, 1, 1, 1)],
                           [[], []], [[1]], Some(0), 0, {});
      && Placed(s) && MostUrgentRuns(s) && s.tcb[1].stat == Suspend && Placed(BeginClose(s, 1))
      && !Placed(EndClose(Timeout(BeginClose(s, 1), 1), 1))
  {
    var s := State(map[0 := Tcb(Running, false, 0, 0, 1, 1), 1 := Tcb(Suspend, false, 1, 1, 1, 1)],
                   [[], []], [[1]], Some(0), 0, {});
    assert [1][1..] == [];
    forall p | 0 <= p < 2 ensures ReadyList(s, p) { }
    forall q | 0 <= q < 1 ensures WaitList(s, q) { }
    var s1, s2, r := DetachWindow(s, 1);
  }

  // --------------------------------------------------------------------------------
  // Priority-ordered wait lists
  // --------------------------------------------------------------------------------

  /** Most urgent first. */
  ghost predicate ByPriority(s: State, list: seq<nat>) {
    && (forall t :: t in list ==> t in s.tcb)
    && forall i, j :: 0 <= i < j < |list| ==> s.tcb[list[i]].prio <= s.tcb[list[j]].prio
  }

  /** A priority-flagged wait keeps the list ordered, behind every waiter that is at least as
      urgent, so that equals leave in the order they came. */
  lemma WaitKeepsPriority(s: State, t: nat, q: nat)
    requires Placed(s) && t in s.tcb && s.tcb[t].stat == Running && q < |s.waits|
    requires ByPriority(s, s.waits[q])
    ensures var i := WaitIndex(s, s.waits[q], s.tcb[t].prio);
      && WaitOn(s, t, q, Prio).waits == s.waits[q := s.waits[q][..i] + [t] + s.waits[q][i..]]
      && (forall j :: i <= j < |s.waits[q]| ==> s.tcb[t].prio < s.tcb[s.waits[q][j]].prio)
    ensures ByPriority(WaitOn(s, t, q, Prio), WaitOn(s, t, q, Prio).waits[q])
  {
    SwitchKeepsWaits(s, t);
    var list := s.waits[q];
    SameWaitIndex(s, Pause(s, t), list, s.tcb[t].prio);
    var i := WaitIndex(s, list, s.tcb[t].prio);
    forall j | i <= j < |list| ensures s.tcb[t].prio < s.tcb[list[j]].prio {
      assert i == j || s.tcb[list[i]].prio <= s.tcb[list[j]].prio;
    }
    InsertByPriority(s, list, i, t);
    assert forall u :: u in s.tcb ==> WaitOn(s, t, q, Prio).tcb[u].prio == s.tcb[u].prio;
  }

  lemma {:induction false} SameWaitIndex(s: State, r: State, list: seq<nat>, prio: nat)
    requires forall t :: t in list ==> t in s.tcb && t in r.tcb && s.tcb[t].prio == r.tcb[t].prio
    ensures WaitIndex(s, list, prio) == WaitIndex(r, list, prio)
  {
    if list != [] {
      assert list[0] in list;
      SameWaitIndex(s, r, list[1..], prio);
    }
  }

  lemma InsertByPriority(s: State, list: seq<nat>, i: nat, t: nat)
    requires ByPriority(s, list) && t in s.tcb && i <= |list|
    requires forall j :: 0 <= j < i ==> s.tcb[list[j]].prio <= s.tcb[t].prio
    requires forall j :: i <= j < |list| ==> s.tcb[t].prio < s.tcb[list[j]].prio
    ensures ByPriority(s, list[..i] + [t] + list[i..])
  {
    var r := list[..i] + [t] + list[i..];
    forall a, b | 0 <= a < b < |r| ensures s.tcb[r[a]].prio <= s.tcb[r[b]].prio {
      assert r[a] == (if a < i then list[a] else if a == i then t else list[a - 1]);
      assert r[b] == (if b < i then list[b] else if b == i then t else list[b - 1]);
    }
  }

  /** The current priorities, as wait lists see them. */
  function Priorities(s: State): map<nat, nat> {
    map t | t in s.tcb :: s.tcb[t].prio
  }

  lemma {:induction false} IndexIsEnqueue(s: State, list: seq<nat>, t: nat)
    requires t in s.tcb && forall u :: u in list ==> u in s.tcb
    ensures var i := WaitIndex(s, list, s.tcb[t].prio);
      WaitOrder.Enqueue(Priorities(s), list, t) == list[..i] + [t] + list[i..]
  {
    var p := s.tcb[t].prio;
    if list == [] || p < s.tcb[list[0]].prio {
      assert list[..0] + [t] + list[0..] == [t] + list;
    } else {
      var tail := list[1..];
      IndexIsEnqueue(s, tail, t);
      Spliced(list, WaitIndex(s, tail, p), t);
    }
  }

  lemma Spliced(list: seq<nat>, i: nat, t: nat)
    requires list != [] && i < |list|
    ensures [list[0]] + (list[1..][..i] + [t] + list[1..][i..]) == list[..i + 1] + [t] + list[i + 1..]
  {
  }

  /** The suspend lists of semaphores and mutexes are those that `_ipc_list_suspend` builds. */
  lemma WaitIsEnqueue(s: State, t: nat, q: nat)
    requires Placed(s) && t in s.tcb && s.tcb[t].stat == Running && q < |s.waits|
    ensures WaitOn(s, t, q, Prio).waits == s.waits[q := WaitOrder.Enqueue(Priorities(s), s.waits[q], t)]
    ensures WaitOn(s, t, q, Fifo).waits == s.waits[q := s.waits[q] + [t]]
  {
    SwitchKeepsWaits(s, t);
    SameWaitIndex(s, Pause(s, t), s.waits[q], s.tcb[t].prio);
    IndexIsEnqueue(s, s.waits[q], t);
    AtTheEnd(s.waits[q], t);
  }

  lemma AtTheEnd(list: seq<nat>, t: nat)
    ensures list[..|list|] + [t] + list[|list|..] == list + [t]
  {
  }

  // --------------------------------------------------------------------------------
  // Resuming and suspending on a test that no longer holds
  // --------------------------------------------------------------------------------

  lemma {:induction false} MovedToEnd(list: seq<nat>, t: nat)
    requires Distinct(list)
    ensures Without(list, t) + [t] == list <==> list != [] && list[|list| - 1] == t
  {
    if list != [] {
      if list[0] == t {
        WithoutFront(list);
        assert list == [t] + list[1..];
        if |list| > 1 { assert (list[1..] + [t])[0] == list[1]; }
      } else {
        MovedToEnd(list[1..], t);
        assert Without(list, t) + [t] == [list[0]] + (Without(list[1..], t) + [t]);
        assert list == [list[0]] + list[1..];
        assert Without(list, t) + [t] == list <==> Without(list[1..], t) + [t] == list[1..];
      }
    }
  }

  /** The late section does what the whole call does exactly if the thread is still suspended, runs,
      or is ready and the last of its queue. */
  lemma LateResumeSame(s: State, t: nat)
    requires Placed(s) && t in s.tcb
    ensures LateResume(s, t) == Resume(s, t) <==>
      || s.tcb[t].stat in {Suspend, Running}
      || (s.tcb[t].stat == Ready && s.ready[s.tcb[t].prio] != [] &&
          s.ready[s.tcb[t].prio][|s.ready[s.tcb[t].prio]| - 1] == t)
  {
    var c, p := s.tcb[t], s.tcb[t].prio;
    var r := LateResume(s, t);
    assert ReadyList(s, p);
    MovedToEnd(s.ready[p], t);
    if c.stat == Running {
      Unlinked(s, t);
      assert s.tcb[t := c] == s.tcb;
    } else if c.stat == Ready {
      assert s.current != Some(t);
      assert r.ready[p] == Without(s.ready[p], t) + [t];
      if r.ready[p] == s.ready[p] {
        OthersUnlinked(s, t);
        assert s.tcb[t := c] == s.tcb;
        assert r.ready == s.ready;
      }
    } else if c.stat != Suspend {
      assert r.tcb[t].stat != c.stat;
    }
  }

  /** Unlinking a thread that is in no list changes nothing. */
  lemma Unlinked(s: State, t: nat)
    requires Unlisted(s, t) || (Placed(s) && t in s.tcb && s.tcb[t].stat == Running)
    ensures Unlink(s, t).ready == s.ready && Unlink(s, t).waits == s.waits
  {
    forall p | 0 <= p < |s.ready| ensures Without(s.ready[p], t) == s.ready[p] {
      if Placed(s) { assert ReadyList(s, p); }
    }
    forall q | 0 <= q < |s.waits| ensures Without(s.waits[q], t) == s.waits[q] {
      if Placed(s) { assert WaitList(s, q); }
    }
  }

  /** Unlinking a ready thread changes the list of its priority only. */
  lemma OthersUnlinked(s: State, t: nat)
    requires Placed(s) && t in s.tcb && s.tcb[t].stat == Ready
    ensures |Unlink(s, t).ready| == |s.ready| && Unlink(s, t).waits == s.waits
    ensures forall p :: 0 <= p < |s.ready| && p != s.tcb[t].prio ==> Unlink(s, t).ready[p] == s.ready[p]
  {
    forall p | 0 <= p < |s.ready| && p != s.tcb[t].prio ensures Without(s.ready[p], t) == s.ready[p] {
      assert ReadyList(s, p);
    }
    forall q | 0 <= q < |s.waits| ensures Without(s.waits[q], t) == s.waits[q] { assert WaitList(s, q); }
  }

  /** Whenever a suspended thread is closed between the test and the section, it is queued to run
      again, or made RUNNING if it is the current one; every thread stays where its status says. */
  lemma ClosedComesBack(s: State, t: nat)
    requires Placed(s) && t in s.tcb && s.tcb[t].stat == Suspend
    ensures var s1 := BeginClose(s, t);
      var s2 := EndClose(s1, t);
      && Placed(s1) && Placed(s2) && s2.tcb[t].stat == Close
      && var r := LateResume(s2, t);
        && Placed(r)
        && (s.current == Some(t) ==> r.tcb[t].stat == Running)
        && (s.current != Some(t) ==> Runnable(r, t) && t in r.ready[r.tcb[t].prio])
  {
    BeginClosePlaced(s, t);
    var s1 := BeginClose(s, t);
    UnlinkPlaced(s, t);
    EndClosePlaced(s1, t);
    assert Unlisted(s1, t) by {
      forall p | 0 <= p < |s1.ready| ensures t !in s1.ready[p] { assert ReadyListBut(Unlink(s, t), p, t); }
    }
    var s2 := EndClose(s1, t);
    LateResumePlaced(s2, t);
    var r := LateResume(s2, t);
    assert s.current != Some(t) ==> t in r.ready[r.tcb[t].prio];
  }

  /** A thread that is more urgent than the running one and all others runs after a schedule. */
  lemma UrgentRuns(s: State, t: nat)
    requires Placed(s) && s.lockNest == 0 && s.current.Some? && s.tcb[s.current.value].stat == Running
    requires Runnable(s, t) && s.tcb[t].prio < s.tcb[s.current.value].prio
    requires forall u :: Runnable(s, u) && u != t ==> s.tcb[t].prio < s.tcb[u].prio
    ensures Schedule(s).current == Some(t)
  {
    assert ReadyList(s, s.tcb[t].prio) && t in s.ready[s.tcb[t].prio];
    TopIsBest(s);
    var to := s.ready[Top(s.ready)][0];
    assert to in s.ready[Top(s.ready)] && ReadyList(s, Top(s.ready));
    assert Runnable(s, to);
  }

  /** Thread 0 passes the test for thread 1, which is more urgent and waits; thread 1 is deleted, and
      then thread 0 goes on: the next schedule runs the deleted thread. */
  function LateState(k: nat): State {
    var tcb := map[0 := Tcb(Running, false, 1, 1, 1, 1), 1 := Tcb(Suspend, false, 0, 0, 1, 1)];
    if k == 0 then State(tcb, [[], []], [[1]], Some(0), 0, {})
    else if k == 1 then State(tcb, [[], []], [[]], Some(0), 0, {1})
    else if k == 2 then State(tcb[1 := tcb[1].(stat := Close)], [[], []], [[]], Some(0), 0, {})
    else State(tcb[1 := tcb[1].(stat := Ready)], [[1], []], [[]], Some(0), 0, {})
  }

  lemma LateRun()
    ensures BeginClose(LateState(0), 1) == LateState(1) && EndClose(LateState(1), 1) == LateState(2)
    ensures LateResume(LateState(2), 1) == LateState(3)
  {
    assert [1][1..] == [];
    assert Without([], 1) == [] && Without([1], 1) == [];
    assert BeginClose(LateState(0), 1).ready == [[], []] && BeginClose(LateState(0), 1).waits == [[]];
    assert Unlink(LateState(2), 1).ready == [[], []] && Unlink(LateState(2), 1).waits == [[]];
    assert [] + [1] == [1];
  }

  lemma ClosedRunsAgain()
    ensures Placed(LateState(0)) && LateState(0).tcb[1].stat == Suspend
    ensures Placed(LateState(2)) && LateState(2).tcb[1].stat == Close
    ensures Placed(LateState(3)) && Schedule(LateState(3)).current == Some(1)
  {
    LatePlaced();
    LateRun();
    ClosedComesBack(LateState(0), 1);
    var r := LateState(3);
    forall u | Runnable(r, u) ensures u == 1 { assert u in r.tcb && r.tcb[u].stat == Ready; }
    UrgentRuns(r, 1);
  }

  lemma LatePlaced()
    ensures Placed(LateState(0))
  {
    var s := LateState(0);
    forall p | 0 <= p < 2 ensures ReadyList(s, p) { }
    forall q | 0 <= q < 1 ensures WaitList(s, q) { assert [1][1..] == []; }
  }

  /** Whenever a thread has gone to wait for an object between the test and the section, suspending
      it takes it off that list: no release of the object wakes it any more. */
  lemma LatePauseDrops(s: State, t: nat, q: nat)
    requires Placed(s) && t in s.tcb && q < |s.waits| && t in s.waits[q]
    ensures var r := LatePause(s, t); Placed(r) && Unlisted(r, t) && r.tcb[t].stat == Suspend
  {
    LatePausePlaced(s, t);
    var r := LatePause(s, t);
    forall p | 0 <= p < |r.ready| ensures t !in r.ready[p] { assert ReadyListBut(r, p, t); }
  }
}
