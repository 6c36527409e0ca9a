/** `rt_mutex_take` and `rt_mutex_release` as they change a mutex and the priorities of threads. */
module Mutexes {
  import opened Wrappers
  import opened Lists
  import opened WaitOrder
  import M = MutexSpec

  datatype Answer = Ok | Full | TimedOut | NotOwner | Suspended

  /** The priority field of every thread. */
  class Threads {
    var prio: map<nat, nat>

    /** `rt_thread_control(RT_THREAD_CTRL_CHANGE_PRIORITY)`, as far as the priority goes */
    method ChangePriority(t: nat, p: nat)
      modifies this
      ensures prio == old(prio)[t := p]
    {
      prio := prio[t := p];
    }
  }

  class Mutex {
    var value: nat
    var owner: Option<nat>
    var hold: nat
    var original: nat
    var waiters: seq<nat>
    const threads: Threads

    ghost function Abs(): M.Mutex
      reads this
    {
      M.Mutex(value, owner, hold, original, waiters)
    }

    /** This is mutex `m` among `all`. */
    ghost predicate Among(all: seq<M.Mutex>, m: nat)
      reads this, threads
    {
      m < |all| && all[m] == Abs() && M.Basic(M.State(threads.prio, all))
    }

    /** `rt_mutex_init` */
    constructor (ts: Threads)
      ensures Abs() == M.Mutex(1, None, 0, 0xff, []) && threads == ts
    {
      value, owner, original, hold, waiters, threads := 1, None, 0xff, 0, [], ts;
    }

    /** `rt_mutex_take` up to the point where the thread has the mutex, has been refused, or is
        suspended.  Only a recursive take can run into the limit of the hold count. */
    method Take(t: nat, mayWait: bool, ghost all: seq<M.Mutex>, ghost m: nat) returns (r: Answer)
      requires Among(all, m) && M.Allowed(M.State(threads.prio, all), M.Take(t, m, mayWait))
      modifies this, threads
      ensures M.State(threads.prio, all[m := Abs()]) == M.Do(M.State(old(threads.prio), all), M.Take(t, m, mayWait))
      ensures r.Full? <==> old(owner) == Some(t) && old(hold) == M.HOLD_MAX
      ensures r.Ok? <==> owner == Some(t) && !r.Full?
      ensures r.Suspended? <==> old(owner).Some? && old(owner) != Some(t) && mayWait
    {
      assert M.Agree(threads.prio, all[m]);
      M.NoOverflow(M.State(threads.prio, all), m);
      if owner == Some(t) {
        if hold < M.HOLD_MAX {
          hold := hold + 1;
          return Ok;
        }
        return Full;
      }
      if value > 0 {
        value := value - 1;
        owner := Some(t);
        original := threads.prio[t];
        if hold < M.HOLD_MAX {
          hold := hold + 1;
          return Ok;
        }
        return Full;
      }
      if !mayWait {
        return TimedOut;
      }
      if threads.prio[t] < threads.prio[owner.value] {
        threads.ChangePriority(owner.value, threads.prio[t]);
      }
      waiters := Enqueue(threads.prio, waiters, t);
      r := Suspended;
    }

    /** `rt_mutex_release`; neither of its overflow exits is ever taken. */
    method Release(t: nat, ghost all: seq<M.Mutex>, ghost m: nat) returns (r: Answer)
      requires Among(all, m) && M.Allowed(M.State(threads.prio, all), M.Release(t, m))
      modifies this, threads
      ensures M.State(threads.prio, all[m := Abs()]) == M.Do(M.State(old(threads.prio), all), M.Release(t, m))
      ensures r == if old(owner) == Some(t) then Ok else NotOwner
    {
      assert M.Agree(threads.prio, all[m]);
      M.NoOverflow(M.State(threads.prio, all), m);
      if owner != Some(t) {
        return NotOwner;
      }
      hold := hold - 1;
      if hold == 0 {
        if original != threads.prio[t] {
          threads.ChangePriority(t, original);
        }
        assert threads.prio == old(threads.prio)[t := original];
        if waiters != [] {
          var w := waiters[0];
          assert w in waiters;
          owner := Some(w);
          original := threads.prio[w];
          if hold < M.HOLD_MAX {
            hold := hold + 1;
          } else {
            return Full;
          }
          waiters := waiters[1..];
        } else {
          if value < M.VALUE_MAX {
            value := value + 1;
          } else {
            return Full;
          }
          owner := None;
          original := 0xff;
        }
      }
      r := Ok;
    }

    /** `rt_thread_timeout` of a thread that waits here */
    method Timeout(t: nat, ghost all: seq<M.Mutex>, ghost m: nat)
      requires Among(all, m)
      modifies this
      ensures M.State(threads.prio, all[m := Abs()]) == M.Do(M.State(threads.prio, all), M.Timeout(t, m))
    {
      waiters := Without(waiters, t);
    }
  }
}
