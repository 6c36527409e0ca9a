/** The message queue of ipc.c with its linked slots: each method is one critical section, or
    one byte of a copy that runs with interrupts enabled.
 */
module MessageQueue {
  import opened Wrappers
  import opened Lists
  import opened Gates
  import M = MessageQueueSpec

  /** Following `next` from `from` visits exactly `list`. */
  ghost predicate Chain(next: seq<Option<nat>>, from: Option<nat>, list: seq<nat>)
    decreases |list|
  {
    if list == [] then from.None?
    else from == Some(list[0]) && list[0] < |next| && Chain(next, next[list[0]], list[1..])
  }

  lemma {:induction false} ChainFrame(next: seq<Option<nat>>, from: Option<nat>, list: seq<nat>, x: nat, v: Option<nat>)
    requires Chain(next, from, list) && x < |next| && x !in list
    ensures Chain(next[x := v], from, list)
    decreases |list|
  {
    if list != [] { ChainFrame(next, next[list[0]], list[1..], x, v); }
  }

  /** Linking `x`, which has no successor, behind the last slot. */
  lemma {:induction false} ChainAppend(next: seq<Option<nat>>, from: Option<nat>, list: seq<nat>, x: nat)
    requires Chain(next, from, list) && Distinct(list) && list != [] && x < |next| && x !in list && next[x].None?
    ensures list[|list| - 1] < |next| && Chain(next[list[|list| - 1] := Some(x)], from, list + [x])
    decreases |list|
  {
    var last := list[|list| - 1];
    if |list| == 1 {
      assert Chain(next[last := Some(x)], None, []);
      assert (list + [x])[1..] == [x];
      assert [x][1..] == [];
    } else {
      ChainAppend(next, next[list[0]], list[1..], x);
      assert last in list[1..];
      assert (list + [x])[1..] == list[1..] + [x];
    }
  }

  lemma ChainFront(next: seq<Option<nat>>, from: Option<nat>, list: seq<nat>, x: nat)
    requires Chain(next, from, list) && x < |next| && x !in list
    ensures Chain(next[x := from], Some(x), [x] + list)
  {
    ChainFrame(next, from, list, x, from);
    assert ([x] + list)[1..] == list;
  }

  function Last(list: seq<nat>): Option<nat> {
    if list == [] then None else Some(list[|list| - 1])
  }

  /** A send that has begun to copy has cleared the link of its slot. */
  ghost predicate Cleared(next: seq<Option<nat>>, h: M.Hand) {
    h.Filling? && !h.urgent && h.done > 0 ==> h.slot < |next| && next[h.slot].None?
  }

  /** The links and the counter describe the two lists. */
  ghost predicate Linked(
    next: seq<Option<nat>>, head: Option<nat>, tail: Option<nat>, free: Option<nat>, entry: nat, s: M.State)
  {
    && |next| == |s.place| <= 0xffff
    && Chain(next, free, s.free) && Chain(next, head, s.queue) && tail == Last(s.queue) && entry == |s.queue|
    && forall t :: t in s.hands ==> Cleared(next, s.hands[t])
  }

  datatype SendResult = Oversized | Full | SendSuspended | Reserved(slot: nat)
  datatype RecvResult = Empty | RecvSuspended | Fetched(slot: nat)

  class Queue {
    const msgSize: nat
    /** `next` fields and data of the slots in the message pool */
    var next: seq<Option<nat>>
    var store: seq<seq<int>>
    var head: Option<nat>
    var tail: Option<nat>
    var free: Option<nat>
    var entry: nat
    /** `parent.suspend_thread` and `suspend_sender_thread` */
    var receivers: seq<nat>
    var senders: seq<nat>
    ghost var model: M.State

    ghost predicate Valid()
      reads this
    {
      && M.Inv(model) && msgSize == model.msgSize && Linked(next, head, tail, free, entry, model)
      && store == model.store && receivers == model.receivers.waiters && senders == model.senders.waiters
    }

    /** `rt_mq_init` for a pool with room for `n` messages */
    constructor (size: nat, n: nat, pool: seq<seq<int>>)
      requires |pool| == n <= 0xffff && forall x :: 0 <= x < n ==> |pool[x]| == size
      ensures Valid() && M.Initial(model) && |model.place| == n && msgSize == size
    {
      msgSize, store := size, pool;
      head, tail, free, entry, receivers, senders := None, None, None, 0, [], [];
      next := seq(n, _ => None);
      model := M.State(size, M.Down(n), [], pool, seq(n, _ => M.Free), seq(n, _ => []), map[],
                       Gate([], {}), Gate([], {}));
      new;
      M.InitialInv(model);
      for temp := 0 to n
        invariant |next| == n && Chain(next, free, M.Down(temp))
        invariant msgSize == size && store == pool && head.None? && tail.None?
        invariant entry == 0 && receivers == [] && senders == []
        invariant M.Initial(model) && M.Inv(model) && |model.place| == n && model.msgSize == size && model.store == pool
      {
        ChainFront(next, free, M.Down(temp), temp);
        next := next[temp := free];
        free := Some(temp);
      }
    }

    /** Size check and first critical section of `rt_mq_send_wait` and `rt_mq_urgent`, and of
        each further round of the wait loop */
    method Reserve(t: nat, msg: M.Msg, urgent: bool, mayWait: bool, pos: nat) returns (r: SendResult)
      requires Valid() && M.Allowed(model, M.Reserve(t, msg, urgent, mayWait, pos))
      modifies this
      ensures Valid() && model == M.Do(old(model), M.Reserve(t, msg, urgent, mayWait, pos))
      ensures r.Oversized? <==> |msg| > msgSize
      ensures r.Reserved? <==> |msg| <= msgSize && old(model).free != []
      ensures r.Reserved? ==> t in model.hands && model.hands[t].slot == r.slot
      ensures r.SendSuspended? ==> t in senders
    {
      ghost var step := M.Reserve(t, msg, urgent, mayWait, pos);
      M.StepInv(model, step);
      if |msg| > msgSize {
        return Oversized;
      }
      if free.None? {
        if !mayWait {
          model := M.Do(model, step);
          return Full;
        }
        senders := senders[..pos] + [t] + senders[pos..];
        model := M.Do(model, step);
        return SendSuspended;
      }
      var slot := free.value;
      free := next[slot];
      model := M.Do(model, step);
      r := Reserved(slot);
    }

    /** One byte of the sender's copy; the link of an ordinary message is cleared first. */
    method CopyIn(t: nat, slot: nat, urgent: bool, byte: int, k: nat)
      requires Valid() && M.Allowed(model, M.Fill(t))
      requires slot == model.hands[t].slot && urgent == model.hands[t].urgent
      requires k == model.hands[t].done && byte == model.hands[t].msg[k]
      modifies this
      ensures Valid() && model == M.Do(old(model), M.Fill(t))
    {
      M.StepInv(model, M.Fill(t));
      assert M.HandOk(model, t) && M.SlotOk(model, slot);
      if k == 0 && !urgent {
        ChainFrame(next, free, model.free, slot, None);
        ChainFrame(next, head, model.queue, slot, None);
        next := next[slot := None];
      }
      store := store[slot := store[slot][k := byte]];
      model := M.Do(model, M.Fill(t));
    }

    /** Second critical section of `rt_mq_send_wait`: link at the end */
    method LinkTail(t: nat, slot: nat) returns (full: bool)
      requires Valid() && M.Allowed(model, M.Link(t)) && slot == model.hands[t].slot && !model.hands[t].urgent
      modifies this
      ensures Valid() && model == M.Do(old(model), M.Link(t)) && !full
    {
      ghost var r := M.DoLink(model, t);
      assert M.Inv(r) by { M.StepInv(model, M.Link(t)); }
      assert entry < 0xffff by { M.EntryNeverOverflows(model, t); }
      LinkTailLinked(next, head, tail, free, entry, model, t);
      AppendSlot(slot);
      full := Count();
      if !full {
        WakeReceiver();
      }
      model := r;
    }

    method AppendSlot(slot: nat)
      requires tail.Some? ==> tail.value < |next|
      modifies this`next, this`head, this`tail
      ensures next == if old(tail).Some? then old(next)[old(tail).value := Some(slot)] else old(next)
      ensures tail == Some(slot) && head == if old(head).None? then Some(slot) else old(head)
    {
      if tail.Some? {
        next := next[tail.value := Some(slot)];
      }
      tail := Some(slot);
      if head.None? {
        head := Some(slot);
      }
    }

    /** Second critical section of `rt_mq_urgent`: link at the front */
    method LinkHead(t: nat, slot: nat) returns (full: bool)
      requires Valid() && M.Allowed(model, M.Link(t)) && slot == model.hands[t].slot && model.hands[t].urgent
      modifies this
      ensures Valid() && model == M.Do(old(model), M.Link(t)) && !full
    {
      ghost var r := M.DoLink(model, t);
      assert M.Inv(r) by { M.StepInv(model, M.Link(t)); }
      assert entry < 0xffff by { M.EntryNeverOverflows(model, t); }
      LinkHeadLinked(next, head, tail, free, entry, model, t);
      PrependSlot(slot);
      full := Count();
      if !full {
        WakeReceiver();
      }
      model := r;
    }

    method PrependSlot(slot: nat)
      requires slot < |next|
      modifies this`next, this`head, this`tail
      ensures next == old(next)[slot := old(head)] && head == Some(slot)
      ensures tail == if old(tail).None? then Some(slot) else old(tail)
    {
      next := next[slot := head];
      head := Some(slot);
      if tail.None? {
        tail := Some(slot);
      }
    }

    method RemoveHead() returns (slot: nat)
      requires head.Some? && head.value < |next|
      modifies this`head, this`tail, this`entry
      ensures old(head) == Some(slot) && head == next[slot]
      ensures tail == if old(tail) == old(head) then None else old(tail)
      ensures entry == if old(entry) > 0 then old(entry) - 1 else old(entry)
    {
      slot := head.value;
      head := next[slot];
      if tail == Some(slot) {
        tail := None;
      }
      if entry > 0 {
        entry := entry - 1;
      }
    }

    /** The guarded increment of `entry`; its other branch would report an overflow. */
    method Count() returns (full: bool)
      modifies this`entry
      ensures full <==> old(entry) >= 0xffff
      ensures entry == if full then old(entry) else old(entry) + 1
    {
      if entry < 0xffff {
        entry := entry + 1;
        full := false;
      } else {
        full := true;
      }
    }

    method WakeReceiver()
      modifies this`receivers
      ensures receivers == if old(receivers) == [] then [] else old(receivers)[1..]
    {
      if receivers != [] {
        receivers := receivers[1..];
      }
    }

    /** First critical section of `rt_mq_recv`, and of each further round of its wait loop */
    method Fetch(t: nat, len: nat, mayWait: bool, pos: nat) returns (r: RecvResult)
      requires Valid() && M.Allowed(model, M.Fetch(t, len, mayWait, pos))
      modifies this
      ensures Valid() && model == M.Do(old(model), M.Fetch(t, len, mayWait, pos))
      ensures r.Fetched? <==> old(model).queue != []
      ensures r.Fetched? ==> t in model.hands && model.hands[t].slot == r.slot
      ensures r.RecvSuspended? ==> t in receivers
    {
      ghost var step := M.Fetch(t, len, mayWait, pos);
      M.StepInv(model, step);
      if entry == 0 {
        if !mayWait {
          model := M.Do(model, step);
          return Empty;
        }
        receivers := receivers[..pos] + [t] + receivers[pos..];
        model := M.Do(model, step);
        return RecvSuspended;
      }
      FetchLinked(next, head, tail, free, entry, model, t, len, mayWait, pos);
      var slot := RemoveHead();
      model := M.Do(model, step);
      r := Fetched(slot);
    }

    /** One byte of the receiver's copy */
    method CopyOut(t: nat, slot: nat, k: nat) returns (byte: int)
      requires Valid() && M.Allowed(model, M.Drain(t)) && slot == model.hands[t].slot && k == |model.hands[t].got|
      modifies this`model
      ensures Valid() && model == M.Do(old(model), M.Drain(t)) && model.hands[t].got == old(model.hands[t].got) + [byte]
    {
      M.StepInv(model, M.Drain(t));
      assert M.HandOk(model, t);
      byte := store[slot][k];
      model := M.Do(model, M.Drain(t));
    }

    /** Second critical section of `rt_mq_recv` */
    method GiveBack(t: nat, slot: nat)
      requires Valid() && M.Allowed(model, M.GiveBack(t)) && slot == model.hands[t].slot
      modifies this
      ensures Valid() && model == M.Do(old(model), M.GiveBack(t))
    {
      M.StepInv(model, M.GiveBack(t));
      GiveBackLinked(next, head, tail, free, entry, model, t);
      next := next[slot := free];
      free := Some(slot);
      if senders != [] {
        senders := senders[1..];
      }
      model := M.Do(model, M.GiveBack(t));
    }

    /** `rt_thread_timeout` of a thread that waits here */
    method Timeout(t: nat)
      requires Valid()
      modifies this
      ensures Valid() && model == M.Do(old(model), M.Timeout(t))
    {
      M.StepInv(model, M.Timeout(t));
      receivers, senders := Without(receivers, t), Without(senders, t);
      model := M.Do(model, M.Timeout(t));
    }

    /** `rt_mq_control(RT_IPC_CMD_RESET)` */
    method Reset()
      requires Valid()
      modifies this
      ensures Valid() && model == M.Do(old(model), M.Reset)
    {
      M.StepInv(model, M.Reset);
      receivers, senders := [], [];
      ReleaseAll();
      entry := 0;
      model := M.Do(model, M.Reset);
    }

    /** The loop that releases all messages in the queue */
    method ReleaseAll()
      requires M.Inv(model) && Linked(next, head, tail, free, entry, model)
      modifies this`next, this`head, this`tail, this`free
      ensures Linked(next, head, tail, free, 0, M.DoReset(model))
    {
      ghost var q, f := model.queue, model.free;
      forall x | x in q ensures x !in f { assert M.SlotOk(model, x); }
      while head.Some?
        invariant Releasing(next, head, tail, free, q, f, model)
        decreases |q|
      {
        var msg := head.value;
        ReleaseOne(next, head, tail, free, q, f, model);
        head := next[msg];
        if tail == Some(msg) {
          tail := None;
        }
        next := next[msg := free];
        free := Some(msg);
        q, f := q[1..], [msg] + f;
      }
    }
  }

  /** `q` is still to be released, `f` is the free list so far. */
  ghost predicate Releasing(
    next: seq<Option<nat>>, head: Option<nat>, tail: Option<nat>, free: Option<nat>, q: seq<nat>, f: seq<nat>,
    s: M.State)
  {
    && |next| == |s.place| && Chain(next, free, f) && Chain(next, head, q) && tail == Last(q) && Distinct(q)
    && (forall x :: x in q ==> x in s.queue && x !in f)
    && M.PutBack(f, q) == M.PutBack(s.free, s.queue)
    && forall t :: t in s.hands ==> Cleared(next, s.hands[t])
  }

  lemma ReleaseOne(
    next: seq<Option<nat>>, head: Option<nat>, tail: Option<nat>, free: Option<nat>, q: seq<nat>, f: seq<nat>,
    s: M.State)
    requires M.Inv(s) && Releasing(next, head, tail, free, q, f, s) && head.Some?
    ensures q != [] && head.value == q[0] < |next|
    ensures Releasing(next[head.value := free], next[head.value], if tail == head then None else tail, head,
                      q[1..], [head.value] + f, s)
  {
    var msg := head.value;
    assert msg in q;
    LastIsOnly(q);
    QueuedIsNotHeld(next, s, msg, free);
    ChainFrame(next, next[msg], q[1..], msg, free);
    ChainFront(next, free, f, msg);
  }

  lemma LastIsOnly(q: seq<nat>)
    requires q != [] && Distinct(q)
    ensures Last(q) == Some(q[0]) <==> |q| == 1
    ensures |q| > 1 ==> Last(q[1..]) == Last(q)
  {
    assert |q| > 1 ==> q[|q| - 1] in q[1..];
  }

  /** Writing the link of the slot that `t` holds disturbs no other copy in progress. */
  lemma OthersCleared(next: seq<Option<nat>>, s: M.State, slot: nat, t: nat, v: Option<nat>)
    requires M.Inv(s) && |next| == |s.place| && t in s.hands && s.hands[t].slot == slot && slot < |next|
    requires forall u :: u in s.hands ==> Cleared(next, s.hands[u])
    ensures forall u :: u in s.hands && u != t ==> Cleared(next[slot := v], s.hands[u])
  {
    forall u | u in s.hands && u != t ensures Cleared(next[slot := v], s.hands[u]) {
      assert M.HandOk(s, t) && M.HandOk(s, u);
    }
  }

  lemma QueuedIsNotHeld(next: seq<Option<nat>>, s: M.State, slot: nat, v: Option<nat>)
    requires M.Inv(s) && |next| == |s.place| && slot in s.queue
    requires forall u :: u in s.hands ==> Cleared(next, s.hands[u])
    ensures forall u :: u in s.hands ==> Cleared(next[slot := v], s.hands[u])
  {
    assert M.SlotOk(s, slot);
    forall u | u in s.hands ensures Cleared(next[slot := v], s.hands[u]) { assert M.HandOk(s, u); }
  }

  /** What linking at the end does to the two chains and to the copies in progress. */
  lemma LinkTailChains(next: seq<Option<nat>>, free: Option<nat>, head: Option<nat>, s: M.State, t: nat)
    requires M.Inv(s) && |next| == |s.place| && M.Allowed(s, M.Link(t)) && !s.hands[t].urgent
    requires Chain(next, free, s.free) && Chain(next, head, s.queue)
    requires forall u :: u in s.hands ==> Cleared(next, s.hands[u])
    ensures s.queue != [] ==>
      var last, x := s.queue[|s.queue| - 1], s.hands[t].slot;
      && last < |next| && Chain(next[last := Some(x)], free, s.free)
      && Chain(next[last := Some(x)], head, s.queue + [x])
      && forall u :: u in s.hands ==> Cleared(next[last := Some(x)], s.hands[u])
    ensures s.queue == [] ==> Chain(next, Some(s.hands[t].slot), [s.hands[t].slot])
  {
    var x := s.hands[t].slot;
    M.Filled(s, t);
    assert Cleared(next, s.hands[t]);
    if s.queue != [] {
      var last := s.queue[|s.queue| - 1];
      assert last in s.queue && M.SlotOk(s, last);
      QueuedIsNotHeld(next, s, last, Some(x));
      ChainFrame(next, free, s.free, last, Some(x));
      ChainAppend(next, head, s.queue, x);
    } else {
      assert [x][1..] == [];
    }
  }

  lemma LinkTailLinked(
    next: seq<Option<nat>>, head: Option<nat>, tail: Option<nat>, free: Option<nat>, entry: nat, s: M.State, t: nat)
    requires M.Inv(s) && M.Allowed(s, M.Link(t)) && !s.hands[t].urgent && Linked(next, head, tail, free, entry, s)
    ensures var x := s.hands[t].slot;
      && (tail.Some? ==> tail.value < |next|)
      && Linked(if tail.Some? then next[tail.value := Some(x)] else next, if head.None? then Some(x) else head,
                Some(x), free, entry + 1, M.DoLink(s, t))
  {
    LinkTailChains(next, free, head, s, t);
    assert s.queue == [] ==> s.queue + [s.hands[t].slot] == [s.hands[t].slot];
  }

  lemma LinkHeadLinked(
    next: seq<Option<nat>>, head: Option<nat>, tail: Option<nat>, free: Option<nat>, entry: nat, s: M.State, t: nat)
    requires M.Inv(s) && M.Allowed(s, M.Link(t)) && s.hands[t].urgent && Linked(next, head, tail, free, entry, s)
    ensures var x := s.hands[t].slot;
      && x < |next|
      && Linked(next[x := head], Some(x), if tail.None? then Some(x) else tail, free, entry + 1, M.DoLink(s, t))
  {
    var x := s.hands[t].slot;
    M.Filled(s, t);
    OthersCleared(next, s, x, t, head);
    ChainFrame(next, free, s.free, x, head);
    ChainFront(next, head, s.queue, x);
  }

  lemma FetchLinked(
    next: seq<Option<nat>>, head: Option<nat>, tail: Option<nat>, free: Option<nat>, entry: nat, s: M.State,
    t: nat, len: nat, mayWait: bool, pos: nat)
    requires M.Inv(s) && M.Allowed(s, M.Fetch(t, len, mayWait, pos))
    requires Linked(next, head, tail, free, entry, s) && entry > 0
    ensures head.Some? && head.value < |next| && head.value == s.queue[0]
    ensures Linked(next, next[head.value], if tail == head then None else tail, free, entry - 1,
                   M.DoFetch(s, t, len, mayWait, pos))
  {
    LastIsOnly(s.queue);
  }

  lemma GiveBackLinked(
    next: seq<Option<nat>>, head: Option<nat>, tail: Option<nat>, free: Option<nat>, entry: nat, s: M.State, t: nat)
    requires M.Inv(s) && M.Allowed(s, M.GiveBack(t)) && Linked(next, head, tail, free, entry, s)
    ensures var x := s.hands[t].slot;
      x < |next| && Linked(next[x := free], head, tail, Some(x), entry, M.DoGiveBack(s, t))
  {
    var x := s.hands[t].slot;
    assert M.HandOk(s, t) && M.SlotOk(s, x);
    OthersCleared(next, s, x, t, free);
    ChainFrame(next, head, s.queue, x, free);
    ChainFront(next, free, s.free, x);
  }
}
