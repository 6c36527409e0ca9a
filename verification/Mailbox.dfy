/** The mailbox of ipc.c: a bounded deque of words with waiting senders and receivers, and the
    ring of offsets that implements it.
 */
module MailboxSpec {
  import opened Gates

  datatype State = State(size: nat, letters: seq<nat>, receivers: Gate, senders: Gate)

  /** One critical section of thread `t`. */
  datatype Step =
    | Send(t: nat, value: nat, urgent: bool, mayWait: bool, pos: nat)
    | Recv(t: nat, mayWait: bool, pos: nat)
    | Timeout(t: nat)
    | Reset

  ghost predicate AtRest(s: State, t: nat) {
    t !in s.receivers.waiters && t !in s.senders.waiters
  }

  ghost predicate Allowed(s: State, step: Step) {
    match step
    case Send(t, value, urgent, mayWait, pos) =>
      && AtRest(s, t) && t !in s.receivers.woken && (t in s.senders.woken ==> !urgent)
      && pos <= |s.senders.waiters| && (urgent ==> !mayWait)
    case Recv(t, mayWait, pos) => AtRest(s, t) && t !in s.senders.woken && pos <= |s.receivers.waiters|
    case Timeout(t) => true
    case Reset => true
  }

  ghost predicate Inv(s: State) {
    |s.letters| <= s.size && Good(s.receivers, |s.letters|) && Good(s.senders, s.size - |s.letters|)
  }

  function Do(s: State, step: Step): State
    requires Allowed(s, step)
  {
    match step
    case Send(t, v, urgent, mayWait, pos) =>
      if |s.letters| != s.size then
        s.(letters := if urgent then [v] + s.letters else s.letters + [v],
           senders := Leave(s.senders, t), receivers := WakeFirst(s.receivers))
      else if mayWait then s.(senders := Join(s.senders, t, pos))
      else s.(senders := Leave(s.senders, t))
    case Recv(t, mayWait, pos) =>
      if s.letters != [] then
        s.(letters := s.letters[1..], receivers := Leave(s.receivers, t), senders := WakeFirst(s.senders))
      else if mayWait then s.(receivers := Join(s.receivers, t, pos))
      else s.(receivers := Leave(s.receivers, t))
    case Timeout(t) => s.(receivers := Expire(s.receivers, t), senders := Expire(s.senders, t))
    case Reset => s.(letters := [], receivers := Flush(s.receivers), senders := Flush(s.senders))
  }

  lemma StepInv(s: State, step: Step)
    requires Inv(s) && Allowed(s, step)
    ensures Inv(Do(s, step))
  {
    match step
    case Send(t, v, urgent, mayWait, pos) =>
      if |s.letters| != s.size {
        TakeKeeps(s.senders, s.size - |s.letters|, t);
        GiveKeeps(s.receivers, |s.letters|);
      } else {
        GiveUpKeeps(s.senders, t);
        JoinKeeps(s.senders, t, pos);
      }
    case Recv(t, mayWait, pos) =>
      if s.letters != [] {
        TakeKeeps(s.receivers, |s.letters|, t);
        GiveKeeps(s.senders, s.size - |s.letters|);
      } else {
        GiveUpKeeps(s.receivers, t);
        JoinKeeps(s.receivers, t, pos);
      }
    case Timeout(t) =>
      ExpireKeeps(s.receivers, |s.letters|, t);
      ExpireKeeps(s.senders, s.size - |s.letters|, t);
    case Reset =>
      FlushKeeps(s.receivers, 0);
      FlushKeeps(s.senders, s.size);
  }

  ghost predicate AllowedRun(s: State, steps: seq<Step>)
    decreases |steps|
  {
    steps == [] || (Allowed(s, steps[0]) && AllowedRun(Do(s, steps[0]), steps[1..]))
  }

  ghost function Run(s: State, steps: seq<Step>): State
    requires AllowedRun(s, steps)
    decreases |steps|
  {
    if steps == [] then s else Run(Do(s, steps[0]), steps[1..])
  }

  /** The word that a step puts in, and the one that it takes out. */
  function In(s: State, step: Step): seq<nat> {
    if step.Send? && |s.letters| != s.size then [step.value] else []
  }

  function Out(s: State, step: Step): seq<nat> {
    if step.Recv? && s.letters != [] then [s.letters[0]] else []
  }

  ghost function Sent(s: State, steps: seq<Step>): seq<nat>
    requires AllowedRun(s, steps)
    decreases |steps|
  {
    if steps == [] then [] else In(s, steps[0]) + Sent(Do(s, steps[0]), steps[1..])
  }

  ghost function Received(s: State, steps: seq<Step>): seq<nat>
    requires AllowedRun(s, steps)
    decreases |steps|
  {
    if steps == [] then [] else Out(s, steps[0]) + Received(Do(s, steps[0]), steps[1..])
  }

  /** No wake-up is ever lost, in either direction. */
  lemma {:induction false} ReachableState(s: State, steps: seq<Step>)
    requires Inv(s) && AllowedRun(s, steps)
    ensures Inv(Run(s, steps))
    ensures NoLostWakeup(Run(s, steps).receivers, |Run(s, steps).letters|)
    decreases |steps|
  {
    if steps != [] {
      StepInv(s, steps[0]);
      ReachableState(Do(s, steps[0]), steps[1..]);
    }
  }

  /** One step: what was there and what went in is what came out and what is there. */
  lemma StepFlow(s: State, step: Step)
    requires Allowed(s, step) && !step.Reset?
    ensures !(step.Send? && step.urgent) ==> s.letters + In(s, step) == Out(s, step) + Do(s, step).letters
    ensures multiset(s.letters) + multiset(In(s, step)) == multiset(Out(s, step)) + multiset(Do(s, step).letters)
  {
    if step.Recv? && s.letters != [] {
      assert s.letters == [s.letters[0]] + s.letters[1..];
    } else {
      assert Out(s, step) == [];
    }
  }

  /** Over any run without a reset or urgent mail, words come out in the order they went in. */
  lemma {:induction false} FirstInFirstOut(s: State, steps: seq<Step>)
    requires AllowedRun(s, steps)
    requires forall i :: 0 <= i < |steps| ==> !steps[i].Reset? && !(steps[i].Send? && steps[i].urgent)
    ensures s.letters + Sent(s, steps) == Received(s, steps) + Run(s, steps).letters
    decreases |steps|
  {
    if steps != [] {
      var r := Do(s, steps[0]);
      StepFlow(s, steps[0]);
      FirstInFirstOut(r, steps[1..]);
      Regroup(s.letters, In(s, steps[0]), Sent(r, steps[1..]), Out(s, steps[0]), r.letters,
              Received(r, steps[1..]), Run(r, steps[1..]).letters);
    }
  }

  lemma Regroup(a: seq<nat>, i: seq<nat>, more: seq<nat>, o: seq<nat>, b: seq<nat>, outs: seq<nat>, c: seq<nat>)
    requires a + i == o + b && b + more == outs + c
    ensures a + (i + more) == (o + outs) + c
  {
    assert a + (i + more) == (a + i) + more;
    assert (o + b) + more == o + (b + more);
    assert o + (outs + c) == (o + outs) + c;
  }

  /** With urgent mail too, every word comes out at most once and none is invented. */
  lemma {:induction false} EachWordOnce(s: State, steps: seq<Step>)
    requires AllowedRun(s, steps) && forall i :: 0 <= i < |steps| ==> !steps[i].Reset?
    ensures multiset(s.letters) + multiset(Sent(s, steps)) ==
      multiset(Received(s, steps)) + multiset(Run(s, steps).letters)
    decreases |steps|
  {
    if steps != [] {
      var r := Do(s, steps[0]);
      StepFlow(s, steps[0]);
      EachWordOnce(r, steps[1..]);
      assert multiset(Sent(s, steps)) == multiset(In(s, steps[0])) + multiset(Sent(r, steps[1..]));
      assert multiset(Received(s, steps)) == multiset(Out(s, steps[0])) + multiset(Received(r, steps[1..]));
      RegroupBags(multiset(s.letters), multiset(In(s, steps[0])), multiset(Sent(r, steps[1..])),
                  multiset(Out(s, steps[0])),
                  multiset(r.letters), multiset(Received(r, steps[1..])), multiset(Run(r, steps[1..]).letters));
    }
  }

  lemma RegroupBags(
    a: multiset<nat>, i: multiset<nat>, more: multiset<nat>, o: multiset<nat>, b: multiset<nat>, outs: multiset<nat>,
    c: multiset<nat>)
    requires a + i == o + b && b + more == outs + c
    ensures a + (i + more) == (o + outs) + c
  {
    assert a + (i + more) == (a + i) + more;
    assert (o + b) + more == o + (b + more);
    assert o + (outs + c) == (o + outs) + c;
  }

  // --------------------------------------------------------------------------------
  // What each step does
  // --------------------------------------------------------------------------------

  /** A send puts the word behind all others, or, if it is urgent, in front of them, and wakes the first
      receiver; with a full box the sender waits at its place, or has left. */
  lemma SendDoes(s: State, t: nat, v: nat, urgent: bool, mayWait: bool, pos: nat)
    requires Inv(s) && Allowed(s, Send(t, v, urgent, mayWait, pos))
    ensures var r := Do(s, Send(t, v, urgent, mayWait, pos));
      && r.size == s.size
      && (|s.letters| < s.size ==>
          && |r.letters| == |s.letters| + 1
          && (urgent ==> r.letters[0] == v && r.letters[1..] == s.letters)
          && (!urgent ==> r.letters[|s.letters|] == v && r.letters[..|s.letters|] == s.letters)
          && FirstWoken(s.receivers, r.receivers) && WentThrough(s.senders, r.senders, t))
      && (|s.letters| == s.size ==>
          && r.letters == s.letters && r.receivers == s.receivers
          && if mayWait then NowWaits(s.senders, r.senders, t, pos) else WentThrough(s.senders, r.senders, t))
  {
    StepsDo(s.receivers, t, 0);
    StepsDo(s.senders, t, pos);
  }

  /** A receive takes the first word and wakes the first sender; with an empty box the receiver waits
      at its place, or has left. */
  lemma RecvDoes(s: State, t: nat, mayWait: bool, pos: nat)
    requires Inv(s) && Allowed(s, Recv(t, mayWait, pos))
    ensures var r := Do(s, Recv(t, mayWait, pos));
      && r.size == s.size
      && (s.letters != [] ==>
          && s.letters == [s.letters[0]] + r.letters
          && FirstWoken(s.senders, r.senders) && WentThrough(s.receivers, r.receivers, t))
      && (s.letters == [] ==>
          && r.letters == [] && r.senders == s.senders
          && if mayWait then NowWaits(s.receivers, r.receivers, t, pos) else WentThrough(s.receivers, r.receivers, t))
  {
    StepsDo(s.senders, t, 0);
    StepsDo(s.receivers, t, pos);
  }

  /** A timeout takes the thread off its list and touches no word; a reset leaves neither words nor
      waiters. */
  lemma TimeoutAndResetDo(s: State, t: nat)
    requires Inv(s)
    ensures var r := Do(s, Timeout(t));
      && r.size == s.size && r.letters == s.letters
      && TakenOff(s.receivers, r.receivers, t) && TakenOff(s.senders, r.senders, t)
    ensures var r := Do(s, Reset);
      && r.size == s.size && r.letters == [] && r.receivers.waiters == [] && r.senders.waiters == []
      && r.receivers.woken == s.receivers.woken && r.senders.woken == s.senders.woken
  {
    StepsDo(s.receivers, t, 0);
    StepsDo(s.senders, t, 0);
  }
}

module Mailbox {
  import opened Lists
  import opened Gates
  import M = MailboxSpec

  /** `k` places behind offset `from` in a ring of `size` places */
  function Ring(size: nat, from: nat, k: nat): (r: nat)
    requires from < size && k <= size
    ensures r < size
  {
    if from + k < size then from + k else from + k - size
  }

  /** The ring holds `letters`, the first of them at offset `out`. */
  ghost predicate InRing(a: seq<nat>, out: nat, letters: seq<nat>) {
    |letters| <= |a| && (a != [] ==> out < |a|) && forall k :: 0 <= k < |letters| ==> HoldsAt(a, out, letters, k)
  }

  ghost predicate HoldsAt(a: seq<nat>, out: nat, letters: seq<nat>, k: nat)
    requires k < |letters| <= |a| && out < |a|
  {
    a[Ring(|a|, out, k)] == letters[k]
  }

  lemma RingPush(a: seq<nat>, out: nat, letters: seq<nat>, v: nat)
    requires InRing(a, out, letters) && |letters| < |a|
    ensures InRing(a[Ring(|a|, out, |letters|) := v], out, letters + [v])
    ensures Ring(|a|, out, |letters| + 1) == Ring(|a|, Ring(|a|, out, |letters|), 1)
  {
    var b, l := a[Ring(|a|, out, |letters|) := v], letters + [v];
    forall k | 0 <= k < |l| ensures HoldsAt(b, out, l, k) {
      if k < |letters| { assert HoldsAt(a, out, letters, k); }
    }
  }

  lemma RingPushFront(a: seq<nat>, out: nat, letters: seq<nat>, v: nat)
    requires InRing(a, out, letters) && |letters| < |a|
    ensures var o := if out > 0 then out - 1 else |a| - 1;
      InRing(a[o := v], o, [v] + letters) && Ring(|a|, o, |letters| + 1) == Ring(|a|, out, |letters|)
  {
    var o := if out > 0 then out - 1 else |a| - 1;
    var b, l := a[o := v], [v] + letters;
    forall k | 0 <= k < |l| ensures HoldsAt(b, o, l, k) {
      if k > 0 { assert HoldsAt(a, out, letters, k - 1); }
    }
  }

  lemma RingPop(a: seq<nat>, out: nat, letters: seq<nat>)
    requires InRing(a, out, letters) && letters != []
    ensures a[out] == letters[0] && InRing(a, Ring(|a|, out, 1), letters[1..])
    ensures Ring(|a|, Ring(|a|, out, 1), |letters| - 1) == Ring(|a|, out, |letters|)
  {
    assert HoldsAt(a, out, letters, 0);
    var o := Ring(|a|, out, 1);
    forall k | 0 <= k < |letters[1..]| ensures HoldsAt(a, o, letters[1..], k) {
      assert HoldsAt(a, out, letters, k + 1);
    }
  }

  datatype Answer = Done | Refused | Suspended

  class Box {
    const pool: array<nat>
    var entry: nat
    var inOffset: nat
    var outOffset: nat
    /** `parent.suspend_thread` and `suspend_sender_thread` */
    var receivers: seq<nat>
    var senders: seq<nat>
    ghost var model: M.State

    ghost predicate Valid()
      reads this, pool
    {
      && M.Inv(model) && model.size == pool.Length <= 0xffff && entry == |model.letters|
      && (pool.Length == 0 ==> inOffset == outOffset == 0)
      && (pool.Length > 0 ==> outOffset < pool.Length && inOffset == Ring(pool.Length, outOffset, entry))
      && InRing(pool[..], outOffset, model.letters)
      && receivers == model.receivers.waiters && senders == model.senders.waiters
    }

    /** `rt_mb_init` */
    constructor (msgpool: array<nat>)
      requires msgpool.Length <= 0xffff
      ensures Valid() && pool == msgpool && model == M.State(msgpool.Length, [], Gate([], {}), Gate([], {}))
    {
      pool := msgpool;
      entry, inOffset, outOffset, receivers, senders := 0, 0, 0, [], [];
      model := M.State(msgpool.Length, [], Gate([], {}), Gate([], {}));
    }

    /** One round of the wait loop of `rt_mb_send_wait` and what follows it */
    method Send(t: nat, value: nat, mayWait: bool, pos: nat) returns (r: Answer)
      requires Valid() && M.Allowed(model, M.Send(t, value, false, mayWait, pos))
      modifies this, pool
      ensures Valid() && model == M.Do(old(model), M.Send(t, value, false, mayWait, pos))
      ensures r.Done? <==> |old(model).letters| < pool.Length
      ensures r.Suspended? ==> t in senders
    {
      ghost var step := M.Send(t, value, false, mayWait, pos);
      M.StepInv(model, step);
      if entry == pool.Length {
        if !mayWait {
          model := M.Do(model, step);
          return Refused;
        }
        senders := senders[..pos] + [t] + senders[pos..];
        model := M.Do(model, step);
        return Suspended;
      }
      RingPush(pool[..], outOffset, model.letters, value);
      pool[inOffset] := value;
      inOffset := inOffset + 1;
      if inOffset >= pool.Length {
        inOffset := 0;
      }
      if entry < 0xffff {
        entry := entry + 1;
      } else {
        return Refused;
      }
      if receivers != [] {
        receivers := receivers[1..];
      }
      model := M.Do(model, step);
      r := Done;
    }

    /** `rt_mb_urgent` */
    method Urgent(t: nat, value: nat) returns (r: Answer)
      requires Valid() && M.Allowed(model, M.Send(t, value, true, false, 0))
      modifies this, pool
      ensures Valid() && model == M.Do(old(model), M.Send(t, value, true, false, 0))
      ensures r == if |old(model).letters| < pool.Length then Done else Refused
    {
      ghost var step := M.Send(t, value, true, false, 0);
      M.StepInv(model, step);
      if entry == pool.Length {
        model := M.Do(model, step);
        return Refused;
      }
      RingPushFront(pool[..], outOffset, model.letters, value);
      if outOffset > 0 {
        outOffset := outOffset - 1;
      } else {
        outOffset := pool.Length - 1;
      }
      pool[outOffset] := value;
      entry := entry + 1;
      if receivers != [] {
        receivers := receivers[1..];
      }
      model := M.Do(model, step);
      r := Done;
    }

    /** One round of the wait loop of `rt_mb_recv` and what follows it */
    method Recv(t: nat, mayWait: bool, pos: nat) returns (r: Answer, value: nat)
      requires Valid() && M.Allowed(model, M.Recv(t, mayWait, pos))
      modifies this
      ensures Valid() && model == M.Do(old(model), M.Recv(t, mayWait, pos))
      ensures r.Done? <==> old(model).letters != []
      ensures r.Done? ==> value == old(model).letters[0]
      ensures r.Suspended? ==> t in receivers
    {
      ghost var step := M.Recv(t, mayWait, pos);
      M.StepInv(model, step);
      value := 0;
      if entry == 0 {
        if !mayWait {
          model := M.Do(model, step);
          return Refused, 0;
        }
        receivers := receivers[..pos] + [t] + receivers[pos..];
        model := M.Do(model, step);
        return Suspended, 0;
      }
      RingPop(pool[..], outOffset, model.letters);
      value := pool[outOffset];
      outOffset := outOffset + 1;
      if outOffset >= pool.Length {
        outOffset := 0;
      }
      if entry > 0 {
        entry := entry - 1;
      }
      if senders != [] {
        senders := senders[1..];
      }
      model := M.Do(model, step);
      r := Done;
    }

    /** `rt_thread_timeout` of a thread that waits here */
    method Timeout(t: nat)
      requires Valid()
      modifies this
      ensures Valid() && model == M.Do(old(model), M.Timeout(t))
    {
      M.StepInv(model, M.Timeout(t));
      receivers, senders := Without(receivers, t), Without(senders, t);
      model := M.Do(model, M.Timeout(t));
    }

    /** `rt_mb_control(RT_IPC_CMD_RESET)` */
    method Reset()
      requires Valid()
      modifies this
      ensures Valid() && model == M.Do(old(model), M.Reset)
    {
      M.StepInv(model, M.Reset);
      receivers, senders, entry, inOffset, outOffset := [], [], 0, 0, 0;
      model := M.Do(model, M.Reset);
    }
  }
}
