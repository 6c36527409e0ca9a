/** What each step of the message queue does to slots, bytes and waiting threads, and what it leaves
    alone.
 */
module MessageQueueEffects {
  import opened Wrappers
  import opened Lists
  import opened Gates
  import opened MessageQueueSpec

  /** All threads but `t` have in hand what they had. */
  ghost predicate OthersAlike(s: State, r: State, t: nat) {
    && r.msgSize == s.msgSize
    && forall u :: u != t ==> (u in r.hands <==> u in s.hands) && (u in s.hands ==> r.hands[u] == s.hands[u])
  }

  /** A send with an oversized message is refused.  If a slot is free the thread takes the first one,
      to fill it from its first byte; if none is, it waits at its place, or has left. */
  lemma ReserveDoes(s: State, t: nat, msg: Msg, urgent: bool, mayWait: bool, pos: nat)
    requires Inv(s) && Allowed(s, Reserve(t, msg, urgent, mayWait, pos))
    ensures |msg| > s.msgSize ==> Do(s, Reserve(t, msg, urgent, mayWait, pos)) == s
    ensures |msg| <= s.msgSize ==>
      var r := Do(s, Reserve(t, msg, urgent, mayWait, pos));
      && r.queue == s.queue && r.store == s.store && r.letters == s.letters && r.receivers == s.receivers
      && OthersAlike(s, r, t)
      && (s.free != [] ==>
          && s.free == [s.free[0]] + r.free && t in r.hands && r.hands[t] == Filling(s.free[0], urgent, msg, 0)
          && WentThrough(s.senders, r.senders, t))
      && (s.free == [] ==>
          && r.free == [] && t !in r.hands
          && if mayWait then NowWaits(s.senders, r.senders, t, pos) else WentThrough(s.senders, r.senders, t))
  {
    StepsDo(s.senders, t, pos);
  }

  /** One more byte of the message is in the slot, and no other byte has changed. */
  lemma FillDoes(s: State, t: nat)
    requires Inv(s) && Allowed(s, Fill(t))
    ensures var r, h := Do(s, Fill(t)), s.hands[t];
      && r.free == s.free && r.queue == s.queue && r.receivers == s.receivers && r.senders == s.senders
      && OthersAlike(s, r, t) && t in r.hands && r.hands[t] == Filling(h.slot, h.urgent, h.msg, h.done + 1)
      && h.slot < |s.store| == |r.store| && |r.store[h.slot]| == |s.store[h.slot]| == s.msgSize
      && r.store[h.slot][h.done] == h.msg[h.done]
      && (forall k :: 0 <= k < s.msgSize && k != h.done ==> r.store[h.slot][k] == s.store[h.slot][k])
      && forall x :: 0 <= x < |s.store| && x != h.slot ==> r.store[x] == s.store[x]
  {
    assert HandOk(s, t);
  }

  /** The slot is the last of the queue, or the first if the message is urgent, and the first receiver
      is woken. */
  lemma LinkDoes(s: State, t: nat)
    requires Inv(s) && Allowed(s, Link(t))
    ensures var r, h := Do(s, Link(t)), s.hands[t];
      && r.free == s.free && r.store == s.store && r.senders == s.senders && OthersAlike(s, r, t) && t !in r.hands
      && |r.queue| == |s.queue| + 1
      && (h.urgent ==> r.queue[0] == h.slot && r.queue[1..] == s.queue)
      && (!h.urgent ==> r.queue[|s.queue|] == h.slot && r.queue[..|s.queue|] == s.queue)
      && FirstWoken(s.receivers, r.receivers)
  {
    LinkFields(s, t);
    Wakes(s.receivers);
  }

  lemma LinkFields(s: State, t: nat)
    requires Inv(s) && Allowed(s, Link(t))
    ensures var r, h := Do(s, Link(t)), s.hands[t];
      && r.msgSize == s.msgSize && r.free == s.free && r.store == s.store && r.senders == s.senders
      && r.queue == Added(s.queue, h.slot, h.urgent) && r.hands == s.hands - {t}
      && r.receivers == WakeFirst(s.receivers)
  {
  }

  lemma Wakes(g: Gate)
    ensures FirstWoken(g, WakeFirst(g))
  {
  }

  /** A receive takes the first slot of the queue, to copy it from its first byte; with an empty queue
      the thread waits at its place, or has left. */
  lemma FetchDoes(s: State, t: nat, len: nat, mayWait: bool, pos: nat)
    requires Inv(s) && Allowed(s, Fetch(t, len, mayWait, pos))
    ensures var r := Do(s, Fetch(t, len, mayWait, pos));
      && r.free == s.free && r.store == s.store && r.senders == s.senders && OthersAlike(s, r, t)
      && (s.queue != [] ==>
          && s.queue == [s.queue[0]] + r.queue && s.queue[0] < |s.letters| && t in r.hands
          && r.hands[t] == Draining(s.queue[0], len, s.letters[s.queue[0]], [])
          && WentThrough(s.receivers, r.receivers, t))
      && (s.queue == [] ==>
          && r.queue == [] && t !in r.hands
          && if mayWait then NowWaits(s.receivers, r.receivers, t, pos) else WentThrough(s.receivers, r.receivers, t))
  {
    FetchFields(s, t, len, mayWait, pos);
    GateDoes(s.receivers, t, pos);
  }

  lemma FetchFields(s: State, t: nat, len: nat, mayWait: bool, pos: nat)
    requires Inv(s) && Allowed(s, Fetch(t, len, mayWait, pos))
    ensures var r := Do(s, Fetch(t, len, mayWait, pos));
      && r.msgSize == s.msgSize && r.free == s.free && r.store == s.store && r.senders == s.senders
      && (s.queue != [] ==>
          && r.queue == s.queue[1..] && s.queue[0] < |s.letters| && r.receivers == Leave(s.receivers, t)
          && r.hands == s.hands[t := Draining(s.queue[0], len, s.letters[s.queue[0]], [])])
      && (s.queue == [] ==>
          && r.queue == [] && r.hands == s.hands
          && r.receivers == if mayWait then Join(s.receivers, t, pos) else Leave(s.receivers, t))
    ensures Sound(s.receivers)
  {
    if s.queue != [] { assert s.queue[0] in s.queue; }
  }

  lemma GateDoes(g: Gate, t: nat, pos: nat)
    requires Sound(g) && pos <= |g.waiters|
    ensures WentThrough(g, Leave(g, t), t) && NowWaits(g, Join(g, t, pos), t, pos)
  {
    StepsDo(g, t, pos);
  }

  /** One more byte of the slot has been received, and nothing else has changed. */
  lemma DrainDoes(s: State, t: nat)
    requires Inv(s) && Allowed(s, Drain(t))
    ensures var r, h := Do(s, Drain(t)), s.hands[t];
      && r == s.(hands := r.hands) && OthersAlike(s, r, t) && t in r.hands
      && h.slot < |s.store| && |h.got| < |s.store[h.slot]|
      && r.hands[t] == Draining(h.slot, h.len, h.msg, h.got + [s.store[h.slot][|h.got|]])
  {
    assert HandOk(s, t);
  }

  /** The slot is the next to be reserved, and the first sender is woken. */
  lemma GiveBackDoes(s: State, t: nat)
    requires Inv(s) && Allowed(s, GiveBack(t))
    ensures var r, h := Do(s, GiveBack(t)), s.hands[t];
      && r.queue == s.queue && r.store == s.store && r.receivers == s.receivers && OthersAlike(s, r, t)
      && t !in r.hands && r.free != [] && r.free[0] == h.slot && r.free[1..] == s.free
      && FirstWoken(s.senders, r.senders)
  {
    GiveBackFields(s, t);
    Wakes(s.senders);
  }

  lemma GiveBackFields(s: State, t: nat)
    requires Inv(s) && Allowed(s, GiveBack(t))
    ensures var r, h := Do(s, GiveBack(t)), s.hands[t];
      && r.msgSize == s.msgSize && r.queue == s.queue && r.store == s.store && r.receivers == s.receivers
      && r.free == [h.slot] + s.free && r.hands == s.hands - {t} && r.senders == WakeFirst(s.senders)
  {
  }

  /** A timeout takes the thread off its list and touches no slot. */
  lemma TimeoutDoes(s: State, t: nat)
    requires Inv(s)
    ensures var r := Do(s, Timeout(t));
      && r == s.(receivers := r.receivers, senders := r.senders)
      && TakenOff(s.receivers, r.receivers, t) && TakenOff(s.senders, r.senders, t)
  {
    TimeoutFields(s, t);
    Leaves(s.receivers, t);
    Leaves(s.senders, t);
  }

  lemma TimeoutFields(s: State, t: nat)
    requires Inv(s)
    ensures Do(s, Timeout(t)) == s.(receivers := Expire(s.receivers, t), senders := Expire(s.senders, t))
    ensures Sound(s.receivers) && Sound(s.senders)
  {
  }

  lemma Leaves(g: Gate, t: nat)
    requires Sound(g)
    ensures TakenOff(g, Expire(g, t), t)
  {
    StepsDo(g, t, 0);
  }

  /** A reset empties the queue: its slots are free, those in somebody's hands stay there, and nobody
      waits. */
  lemma ResetDoes(s: State)
    requires Inv(s)
    ensures var r := Do(s, Reset);
      && r.queue == [] && r.hands == s.hands && r.store == s.store
      && (forall x: nat :: x in r.free <==> x in s.free || x in s.queue)
      && r.receivers.waiters == [] && r.senders.waiters == []
      && r.receivers.woken == s.receivers.woken && r.senders.woken == s.senders.woken
  {
    PutBackHas(s.free, s.queue);
  }

  lemma {:induction false} PutBackHas(free: seq<nat>, queue: seq<nat>)
    ensures forall x: nat :: x in PutBack(free, queue) <==> x in free || x in queue
    decreases |queue|
  {
    if queue != [] {
      PutBackHas([queue[0]] + free, queue[1..]);
      assert queue == [queue[0]] + queue[1..];
    }
  }
}
