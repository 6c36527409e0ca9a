/** The message queue of ipc.c as a state machine.  A send takes a free slot in one critical
    section, copies its bytes with interrupts enabled, and links the slot in a second one; a
    receive unlinks, copies, and gives back.  Each critical section and each copied byte is one
    step, so a run is any interleaving of any number of calls.
 */
module MessageQueueSpec {
  import opened Wrappers
  import opened Lists
  import opened Gates

  type Msg = seq<int>

  /** Where a slot is. */
  datatype Place = Free | Queued | Held(owner: nat)

  /** A call between its two critical sections: `done` bytes of `msg` are in the slot, or `got`
      has been copied out of the slot that `msg` came in. */
  datatype Hand =
    | Filling(slot: nat, urgent: bool, msg: Msg, done: nat)
    | Draining(slot: nat, len: nat, msg: Msg, got: seq<int>)

  /** `free` and `queue` are the two message lists, `store` the bytes of the slots.  `place` and
      `letters` record, for each slot, where it is and which message was last linked in it. */
  datatype State = State(
    msgSize: nat, free: seq<nat>, queue: seq<nat>, store: seq<seq<int>>,
    place: seq<Place>, letters: seq<Msg>,
    hands: map<nat, Hand>, receivers: Gate, senders: Gate)

  /** One critical section or one copied byte of thread `t`; `mayWait` says whether its timeout
      lets it suspend, and `pos` where the queueing discipline puts it. */
  datatype Step =
    | Reserve(t: nat, msg: Msg, urgent: bool, mayWait: bool, pos: nat)
    | Fill(t: nat)
    | Link(t: nat)
    | Fetch(t: nat, len: nat, mayWait: bool, pos: nat)
    | Drain(t: nat)
    | GiveBack(t: nat)
    | Timeout(t: nat)
    | Reset

  // --------------------------------------------------------------------------------
  // Steps
  // --------------------------------------------------------------------------------

  /** How many bytes a receive copies */
  function Window(s: State, len: nat): nat {
    if len > s.msgSize then s.msgSize else len
  }

  ghost predicate AtRest(s: State, t: nat) {
    t !in s.hands && t !in s.receivers.waiters && t !in s.senders.waiters
  }

  /** What thread `t` may do next, given the call it is in. */
  ghost predicate Allowed(s: State, step: Step) {
    match step
    case Reserve(t, msg, urgent, mayWait, pos) =>
      && AtRest(s, t) && t !in s.receivers.woken && (t in s.senders.woken ==> !urgent && |msg| <= s.msgSize)
      && msg != [] && pos <= |s.senders.waiters| && (urgent ==> !mayWait)
    case Fill(t) => t in s.hands && s.hands[t].Filling? && s.hands[t].done < |s.hands[t].msg|
    case Link(t) => t in s.hands && s.hands[t].Filling? && s.hands[t].done == |s.hands[t].msg|
    case Fetch(t, len, mayWait, pos) =>
      AtRest(s, t) && t !in s.senders.woken && len != 0 && pos <= |s.receivers.waiters|
    case Drain(t) => t in s.hands && s.hands[t].Draining? && |s.hands[t].got| < Window(s, s.hands[t].len)
    case GiveBack(t) => t in s.hands && s.hands[t].Draining? && |s.hands[t].got| == Window(s, s.hands[t].len)
    case Timeout(t) => true
    case Reset => true
  }

  function Do(s: State, step: Step): State
    requires Inv(s) && Allowed(s, step)
  {
    match step
    case Reserve(t, msg, urgent, mayWait, pos) => DoReserve(s, t, msg, urgent, mayWait, pos)
    case Fill(t) => DoFill(s, t)
    case Link(t) => DoLink(s, t)
    case Fetch(t, len, mayWait, pos) => DoFetch(s, t, len, mayWait, pos)
    case Drain(t) => DoDrain(s, t)
    case GiveBack(t) => DoGiveBack(s, t)
    case Timeout(t) => s.(receivers := Expire(s.receivers, t), senders := Expire(s.senders, t))
    case Reset => DoReset(s)
  }

  /** First critical section of `rt_mq_send_wait` and `rt_mq_urgent` */
  function DoReserve(s: State, t: nat, msg: Msg, urgent: bool, mayWait: bool, pos: nat): State
    requires Inv(s) && pos <= |s.senders.waiters|
  {
    if |msg| > s.msgSize then s
    else if s.free != [] then
      var x := s.free[0];
      s.(free := s.free[1..], place := Put(s.place, x, Held(t)), senders := Leave(s.senders, t),
         hands := s.hands[t := Filling(x, urgent, msg, 0)])
    else if mayWait then s.(senders := Join(s.senders, t, pos))
    else s.(senders := Leave(s.senders, t))
  }

  function DoFill(s: State, t: nat): State
    requires Inv(s) && Allowed(s, Fill(t))
  {
    assert HandOk(s, t);
    var h := s.hands[t];
    s.(store := s.store[h.slot := s.store[h.slot][h.done := h.msg[h.done]]],
       hands := s.hands[t := h.(done := h.done + 1)])
  }

  /** Second critical section of a send */
  function DoLink(s: State, t: nat): State
    requires Inv(s) && Allowed(s, Link(t))
  {
    assert HandOk(s, t);
    var h := s.hands[t];
    s.(queue := Added(s.queue, h.slot, h.urgent),
       place := s.place[h.slot := Queued], letters := s.letters[h.slot := h.msg],
       hands := s.hands - {t}, receivers := WakeFirst(s.receivers))
  }

  /** At the end of the queue, or at its front */
  function Added(queue: seq<nat>, x: nat, urgent: bool): seq<nat> {
    if urgent then [x] + queue else queue + [x]
  }

  /** First critical section of `rt_mq_recv` */
  function DoFetch(s: State, t: nat, len: nat, mayWait: bool, pos: nat): State
    requires Inv(s) && pos <= |s.receivers.waiters|
  {
    if s.queue != [] then
      var x := s.queue[0];
      s.(queue := s.queue[1..], place := Put(s.place, x, Held(t)), receivers := Leave(s.receivers, t),
         hands := s.hands[t := Draining(x, len, Letter(s.letters, x), [])])
    else if mayWait then s.(receivers := Join(s.receivers, t, pos))
    else s.(receivers := Leave(s.receivers, t))
  }

  function DoDrain(s: State, t: nat): State
    requires Inv(s) && Allowed(s, Drain(t))
  {
    assert HandOk(s, t);
    var h := s.hands[t];
    s.(hands := s.hands[t := h.(got := h.got + [s.store[h.slot][|h.got|]])])
  }

  /** Second critical section of `rt_mq_recv` */
  function DoGiveBack(s: State, t: nat): State
    requires Inv(s) && Allowed(s, GiveBack(t))
  {
    assert HandOk(s, t);
    var h := s.hands[t];
    s.(free := [h.slot] + s.free, place := s.place[h.slot := Free],
       hands := s.hands - {t}, senders := WakeFirst(s.senders))
  }

  /** `rt_mq_control` with `RT_IPC_CMD_RESET` */
  function DoReset(s: State): State {
    s.(free := PutBack(s.free, s.queue), queue := [],
       place := seq(|s.place|, x requires 0 <= x < |s.place| => if s.place[x].Queued? then Free else s.place[x]),
       receivers := Flush(s.receivers), senders := Flush(s.senders))
  }

  function Put(place: seq<Place>, x: nat, p: Place): seq<Place> {
    if x < |place| then place[x := p] else place
  }

  function Letter(letters: seq<Msg>, x: nat): Msg {
    if x < |letters| then letters[x] else []
  }

  /** The slots of `queue`, first to last, each put in front of the free list. */
  function PutBack(free: seq<nat>, queue: seq<nat>): (r: seq<nat>)
    ensures |r| == |free| + |queue|
    decreases |queue|
  {
    if queue == [] then free else PutBack([queue[0]] + free, queue[1..])
  }

  // --------------------------------------------------------------------------------
  // Invariant
  // --------------------------------------------------------------------------------

  /** Slot `x` is in the list its place says, and a linked slot holds its message. */
  ghost predicate SlotOk(s: State, x: nat)
    requires x < |s.place| == |s.store| == |s.letters|
  {
    && (x in s.free <==> s.place[x].Free?)
    && (x in s.queue <==> s.place[x].Queued?)
    && (s.place[x].Held? ==> s.place[x].owner in s.hands && s.hands[s.place[x].owner].slot == x)
    && (s.place[x].Queued? ==> s.letters[x] <= s.store[x])
    && |s.store[x]| == s.msgSize
  }

  /** The slot in the hands of `t` is nowhere else, and the copy is right as far as it has got. */
  ghost predicate HandOk(s: State, t: nat)
    requires t in s.hands && |s.place| == |s.store|
  {
    var h := s.hands[t];
    && h.slot < |s.place| && s.place[h.slot] == Held(t) && |s.store[h.slot]| == s.msgSize
    && match h {
       case Filling(x, _, msg, done) => msg != [] && done <= |msg| <= s.msgSize && msg[..done] == s.store[x][..done]
       case Draining(x, len, msg, got) => |got| <= Window(s, len) && msg <= s.store[x] && got <= s.store[x]
       }
  }

  ghost predicate Inv(s: State) {
    && |s.place| == |s.store| == |s.letters|
    && Distinct(s.free) && Distinct(s.queue)
    && (forall x :: x in s.free ==> x < |s.place|)
    && (forall x :: x in s.queue ==> x < |s.place|)
    && (forall x :: 0 <= x < |s.place| ==> SlotOk(s, x))
    && (forall t :: t in s.hands ==> HandOk(s, t))
    && Good(s.receivers, |s.queue|) && Good(s.senders, |s.free|)
  }

  /** `rt_mq_init`: all slots free, last one first. */
  ghost predicate Initial(s: State) {
    && |s.place| == |s.store| == |s.letters|
    && s.free == Down(|s.place|) && s.queue == [] && s.hands == map[]
    && (forall x :: 0 <= x < |s.place| ==> s.place[x].Free? && |s.store[x]| == s.msgSize)
    && s.receivers == Gate([], {}) && s.senders == Gate([], {})
  }

  function Down(n: nat): (r: seq<nat>)
    ensures forall x: nat :: x in r <==> x < n
    ensures Distinct(r) && |r| == n
  {
    if n == 0 then [] else [n - 1] + Down(n - 1)
  }

  lemma InitialInv(s: State)
    requires Initial(s)
    ensures Inv(s)
  {
    forall x | 0 <= x < |s.place| ensures SlotOk(s, x) { }
  }

  // --------------------------------------------------------------------------------
  // Every step keeps the invariant
  // --------------------------------------------------------------------------------

  lemma ReserveInv(s: State, t: nat, msg: Msg, urgent: bool, mayWait: bool, pos: nat)
    requires Inv(s) && Allowed(s, Reserve(t, msg, urgent, mayWait, pos))
    ensures Inv(DoReserve(s, t, msg, urgent, mayWait, pos))
  {
    var r := DoReserve(s, t, msg, urgent, mayWait, pos);
    if |msg| > s.msgSize {
      return;
    }
    if s.free != [] {
      TakeKeeps(s.senders, |s.free|, t);
      assert forall x :: x in r.free ==> x in s.free;
      assert s.free[0] in s.free && SlotOk(s, s.free[0]);
      forall x | 0 <= x < |r.place| ensures SlotOk(r, x) { assert SlotOk(s, x); }
      forall u | u in r.hands ensures HandOk(r, u) { assert u != t ==> HandOk(s, u); }
    } else {
      GiveUpKeeps(s.senders, t);
      if mayWait { JoinKeeps(s.senders, t, pos); }
      forall x | 0 <= x < |r.place| ensures SlotOk(r, x) { assert SlotOk(s, x); }
      forall u | u in r.hands ensures HandOk(r, u) { assert HandOk(s, u); }
    }
  }

  lemma FillInv(s: State, t: nat)
    requires Inv(s) && Allowed(s, Fill(t))
    ensures Inv(DoFill(s, t))
  {
    var r, h := DoFill(s, t), s.hands[t];
    assert HandOk(s, t);
    forall x | 0 <= x < |r.place| ensures SlotOk(r, x) { assert SlotOk(s, x); }
    forall u | u in r.hands ensures HandOk(r, u) { assert HandOk(s, u); }
  }

  lemma AddedHolds(queue: seq<nat>, x: nat, urgent: bool)
    requires Distinct(queue) && x !in queue
    ensures var r := Added(queue, x, urgent);
      Distinct(r) && |r| == |queue| + 1 && forall y :: y in r <==> y in queue || y == x
  {
    DistinctInsert(queue, if urgent then 0 else |queue|, x);
    assert queue[..0] + [x] + queue[0..] == [x] + queue;
    assert queue[..|queue|] + [x] + queue[|queue|..] == queue + [x];
  }

  lemma Filled(s: State, t: nat)
    requires Inv(s) && Allowed(s, Link(t))
    ensures s.hands[t].slot < |s.place| && s.place[s.hands[t].slot] == Held(t)
    ensures s.hands[t].slot !in s.queue && s.hands[t].slot !in s.free
    ensures s.hands[t].msg <= s.store[s.hands[t].slot]
  {
    var h := s.hands[t];
    assert HandOk(s, t) && SlotOk(s, h.slot);
    assert h.msg == h.msg[..h.done];
  }

  lemma LinkSlot(s: State, t: nat, x: nat)
    requires Inv(s) && Allowed(s, Link(t)) && x < |s.place|
    ensures SlotOk(DoLink(s, t), x)
  {
    var h := s.hands[t];
    Filled(s, t);
    assert SlotOk(s, x);
    AddedHolds(s.queue, h.slot, h.urgent);
    var r := DoLink(s, t);
    assert r.place[x] == if x == h.slot then Queued else s.place[x];
    assert r.letters[x] == if x == h.slot then h.msg else s.letters[x];
  }

  lemma LinkHand(s: State, t: nat, u: nat)
    requires Inv(s) && Allowed(s, Link(t)) && u in s.hands && u != t
    ensures HandOk(DoLink(s, t), u)
  {
    assert HandOk(s, t) && HandOk(s, u);
  }

  lemma LinkInv(s: State, t: nat)
    requires Inv(s) && Allowed(s, Link(t))
    ensures Inv(DoLink(s, t))
  {
    var r, h := DoLink(s, t), s.hands[t];
    assert HandOk(s, t) && SlotOk(s, h.slot);
    GiveKeeps(s.receivers, |s.queue|);
    AddedHolds(s.queue, h.slot, h.urgent);
    forall x | 0 <= x < |r.place| ensures SlotOk(r, x) { LinkSlot(s, t, x); }
    forall u | u in r.hands ensures HandOk(r, u) { LinkHand(s, t, u); }
  }

  lemma FetchInv(s: State, t: nat, len: nat, mayWait: bool, pos: nat)
    requires Inv(s) && Allowed(s, Fetch(t, len, mayWait, pos))
    ensures Inv(DoFetch(s, t, len, mayWait, pos))
  {
    var r := DoFetch(s, t, len, mayWait, pos);
    if s.queue != [] {
      TakeKeeps(s.receivers, |s.queue|, t);
      assert forall x :: x in r.queue ==> x in s.queue;
      assert s.queue[0] in s.queue && SlotOk(s, s.queue[0]);
      forall x | 0 <= x < |r.place| ensures SlotOk(r, x) { assert SlotOk(s, x); }
      forall u | u in r.hands ensures HandOk(r, u) { assert u != t ==> HandOk(s, u); }
    } else {
      GiveUpKeeps(s.receivers, t);
      if mayWait { JoinKeeps(s.receivers, t, pos); }
      forall x | 0 <= x < |r.place| ensures SlotOk(r, x) { assert SlotOk(s, x); }
      forall u | u in r.hands ensures HandOk(r, u) { assert HandOk(s, u); }
    }
  }

  lemma DrainInv(s: State, t: nat)
    requires Inv(s) && Allowed(s, Drain(t))
    ensures Inv(DoDrain(s, t))
  {
    var r := DoDrain(s, t);
    assert HandOk(s, t);
    forall x | 0 <= x < |r.place| ensures SlotOk(r, x) { assert SlotOk(s, x); }
    forall u | u in r.hands ensures HandOk(r, u) { assert HandOk(s, u); }
  }

  lemma GiveBackInv(s: State, t: nat)
    requires Inv(s) && Allowed(s, GiveBack(t))
    ensures Inv(DoGiveBack(s, t))
  {
    var r, h := DoGiveBack(s, t), s.hands[t];
    assert HandOk(s, t) && SlotOk(s, h.slot);
    GiveKeeps(s.senders, |s.free|);
    forall x | 0 <= x < |r.place| ensures SlotOk(r, x) { assert SlotOk(s, x); }
    forall u | u in r.hands ensures HandOk(r, u) { assert HandOk(s, u); }
  }

  lemma {:induction false} PutBackHolds(free: seq<nat>, queue: seq<nat>)
    requires Distinct(free) && Distinct(queue) && forall x :: x in queue ==> x !in free
    ensures Distinct(PutBack(free, queue))
    ensures forall x :: x in PutBack(free, queue) <==> x in free || x in queue
    decreases |queue|
  {
    if queue != [] {
      var f := [queue[0]] + free;
      assert f[1..] == free;
      PutBackHolds(f, queue[1..]);
    }
  }

  lemma ResetInv(s: State)
    requires Inv(s)
    ensures Inv(DoReset(s))
  {
    var r := DoReset(s);
    forall x | x in s.queue ensures x !in s.free { assert SlotOk(s, x); }
    PutBackHolds(s.free, s.queue);
    FlushKeeps(s.receivers, 0);
    FlushKeeps(s.senders, |r.free|);
    forall x | 0 <= x < |r.place| ensures SlotOk(r, x) { assert SlotOk(s, x); }
    forall u | u in r.hands ensures HandOk(r, u) { assert HandOk(s, u); }
  }

  /** Every step, of whatever thread, keeps the invariant. */
  lemma StepInv(s: State, step: Step)
    requires Inv(s) && Allowed(s, step)
    ensures Inv(Do(s, step))
  {
    match step
    case Reserve(t, msg, urgent, mayWait, pos) => ReserveInv(s, t, msg, urgent, mayWait, pos);
    case Fill(t) => FillInv(s, t);
    case Link(t) => LinkInv(s, t);
    case Fetch(t, len, mayWait, pos) => FetchInv(s, t, len, mayWait, pos);
    case Drain(t) => DrainInv(s, t);
    case GiveBack(t) => GiveBackInv(s, t);
    case Timeout(t) =>
      var r := Do(s, step);
      ExpireKeeps(s.receivers, |s.queue|, t);
      ExpireKeeps(s.senders, |s.free|, t);
      forall x | 0 <= x < |r.place| ensures SlotOk(r, x) { assert SlotOk(s, x); }
      forall u | u in r.hands ensures HandOk(r, u) { assert HandOk(s, u); }
    case Reset => ResetInv(s);
  }

  // --------------------------------------------------------------------------------
  // Refinement of a deque
  // --------------------------------------------------------------------------------

  /** The messages waiting to be received, in order. */
  ghost function Deque(s: State): seq<Msg> {
    seq(|s.queue|, i requires 0 <= i < |s.queue| => Letter(s.letters, s.queue[i]))
  }

  datatype Event = Push(msg: Msg) | PushFront(msg: Msg) | Pop(msg: Msg) | Clear | Silent

  /** What a step does, as seen by the threads that use the queue: a message counts as sent when
      it is linked, with the bytes that were in the sender's buffer, and as received by whoever
      unlinks it. */
  ghost function Seen(s: State, step: Step): Event
    requires Inv(s) && Allowed(s, step)
  {
    match step
    case Link(t) => if s.hands[t].urgent then PushFront(s.hands[t].msg) else Push(s.hands[t].msg)
    case Fetch(t, _, _, _) => if s.queue == [] then Silent else Pop(Do(s, step).hands[t].msg)
    case Reset => Clear
    case _ => Silent
  }

  /** A plain deque of messages; a pop of anything but the first message is refused. */
  function Replay(d: seq<Msg>, e: Event): Option<seq<Msg>> {
    match e
    case Push(m) => Some(d + [m])
    case PushFront(m) => Some([m] + d)
    case Pop(m) => if d != [] && d[0] == m then Some(d[1..]) else None
    case Clear => Some([])
    case Silent => Some(d)
  }

  lemma LinkRefines(s: State, t: nat)
    requires Inv(s) && Allowed(s, Link(t))
    ensures var h := s.hands[t];
      Deque(DoLink(s, t)) == if h.urgent then [h.msg] + Deque(s) else Deque(s) + [h.msg]
  {
    var r, h := DoLink(s, t), s.hands[t];
    assert HandOk(s, t) && SlotOk(s, h.slot);
    forall i | 0 <= i < |s.queue| ensures Letter(r.letters, s.queue[i]) == Letter(s.letters, s.queue[i]) {
      assert s.queue[i] in s.queue;
    }
  }

  /** Each step is one operation of a deque, or none. */
  lemma StepRefines(s: State, step: Step)
    requires Inv(s) && Allowed(s, step)
    ensures Replay(Deque(s), Seen(s, step)) == Some(Deque(Do(s, step)))
  {
    if step.Link? {
      LinkRefines(s, step.t);
    } else if step.Fetch? && s.queue != [] {
      assert Deque(Do(s, step)) == Deque(s)[1..];
    } else {
      assert Deque(Do(s, step)) == if step.Reset? then [] else Deque(s);
    }
  }

  /** A receive that has finished copying has the message it popped, as far as its buffer
      reaches, unharmed by anything that went on meanwhile. */
  lemma Delivered(s: State, t: nat)
    requires Inv(s) && Allowed(s, GiveBack(t))
    ensures var h := s.hands[t];
      var k := if h.len < |h.msg| then h.len else |h.msg|;
      k <= |h.got| && h.got[..k] == h.msg[..k]
  {
    assert HandOk(s, t);
  }

  // --------------------------------------------------------------------------------
  // Runs
  // --------------------------------------------------------------------------------

  ghost predicate AllowedRun(s: State, steps: seq<Step>)
    requires Inv(s)
    decreases |steps|
  {
    steps == [] || (Allowed(s, steps[0]) && (StepInv(s, steps[0]); AllowedRun(Do(s, steps[0]), steps[1..])))
  }

  ghost function Run(s: State, steps: seq<Step>): (r: State)
    requires Inv(s) && AllowedRun(s, steps)
    ensures Inv(r)
    decreases |steps|
  {
    if steps == [] then s else StepInv(s, steps[0]); Run(Do(s, steps[0]), steps[1..])
  }

  ghost function ReplayRun(d: seq<Msg>, s: State, steps: seq<Step>): Option<seq<Msg>>
    requires Inv(s) && AllowedRun(s, steps)
    decreases |steps|
  {
    if steps == [] then Some(d)
    else match Replay(d, Seen(s, steps[0]))
      case None => None
      case Some(e) => StepInv(s, steps[0]); ReplayRun(e, Do(s, steps[0]), steps[1..])
  }

  /** Over any interleaving the queue is a deque: every pop yields the message at its front. */
  lemma {:induction false} RunRefines(s: State, steps: seq<Step>)
    requires Inv(s) && AllowedRun(s, steps)
    ensures ReplayRun(Deque(s), s, steps) == Some(Deque(Run(s, steps)))
    decreases |steps|
  {
    if steps != [] {
      StepInv(s, steps[0]);
      StepRefines(s, steps[0]);
      RunRefines(Do(s, steps[0]), steps[1..]);
    }
  }

  /** In every reachable state each slot is in exactly one place, and nobody is left waiting for
      a message or a slot that no woken thread is about to take. */
  lemma ReachableState(s: State, steps: seq<Step>, x: nat)
    requires Initial(s) && Inv(s) && AllowedRun(s, steps) && x < |Run(s, steps).place|
    ensures var r := Run(s, steps);
      && (x in r.free ==> x !in r.queue && forall t :: t in r.hands ==> r.hands[t].slot != x)
      && (x in r.queue ==> forall t :: t in r.hands ==> r.hands[t].slot != x)
      && (x in r.free || x in r.queue || exists t :: t in r.hands && r.hands[t].slot == x)
      && (forall t, u :: t in r.hands && u in r.hands && r.hands[t].slot == r.hands[u].slot ==> t == u)
      && NoLostWakeup(r.receivers, |r.queue|) && NoLostWakeup(r.senders, |r.free|)
  {
    var r := Run(s, steps);
    assert SlotOk(r, x);
    forall t | t in r.hands ensures HandOk(r, t) { }
  }

  // --------------------------------------------------------------------------------
  // What lies beyond the message
  // --------------------------------------------------------------------------------

  /** A receive yields only bytes of the message exactly when its window, the shorter of its
      buffer and the slot, does not reach beyond the message, and the message itself exactly when
      the window has its length. */
  lemma DeliveredExactly(s: State, t: nat)
    requires Inv(s) && Allowed(s, GiveBack(t))
    ensures var h := s.hands[t];
      && (h.got <= h.msg <==> Window(s, h.len) <= |h.msg|)
      && (h.got == h.msg <==> Window(s, h.len) == |h.msg|)
  {
    assert HandOk(s, t);
    var h := s.hands[t];
    assert |h.got| == |h.msg| ==> h.got == s.store[h.slot][..|h.got|] == h.msg;
  }

  /** Slot `x` is on the way from a sender to a receiver with message `msg`. */
  ghost predicate Carries(s: State, x: nat, msg: Msg) {
    && x < |s.place| == |s.store| == |s.letters|
    && match s.place[x]
       case Free => false
       case Queued => s.letters[x] == msg
       case Held(t) => t in s.hands && s.hands[t].slot == x && s.hands[t].msg == msg
  }

  /** As long as the slot is not free, it carries the same message, and its bytes beyond the end
      of the message stay as they are. */
  lemma CarriesOn(s: State, step: Step, x: nat, msg: Msg)
    requires Inv(s) && Allowed(s, step) && Carries(s, x, msg)
    requires var r := Do(s, step); x < |r.place| && !r.place[x].Free?
    ensures var r := Do(s, step);
      && Carries(r, x, msg) && |r.store[x]| == |s.store[x]|
      && (|msg| <= |s.store[x]| ==> r.store[x][|msg|..] == s.store[x][|msg|..])
  {
    assert SlotOk(s, x);
    match step
    case Reserve(t, _, _, _, _) => if s.free != [] { assert s.free[0] in s.free; }
    case Fill(t) => FillBeyond(s, t, x, msg);
    case Link(t) => assert HandOk(s, t);
    case Fetch(t, _, _, _) =>
      if s.queue != [] { assert s.queue[0] in s.queue && SlotOk(s, s.queue[0]); }
    case Drain(t) => assert HandOk(s, t);
    case GiveBack(t) => assert HandOk(s, t);
    case Timeout(t) =>
    case Reset =>
  }

  lemma FillBeyond(s: State, t: nat, x: nat, msg: Msg)
    requires Inv(s) && Allowed(s, Fill(t)) && Carries(s, x, msg)
    ensures Carries(DoFill(s, t), x, msg) && |DoFill(s, t).store[x]| == |s.store[x]|
    ensures |msg| <= |s.store[x]| ==> DoFill(s, t).store[x][|msg|..] == s.store[x][|msg|..]
  {
    assert HandOk(s, t) && SlotOk(s, x);
    var h := s.hands[t];
    if h.slot == x { assert s.place[x] == Held(t) && h.msg == msg; }
  }

  /** The slot is never free during the run. */
  ghost predicate InUse(s: State, steps: seq<Step>, x: nat)
    requires Inv(s) && AllowedRun(s, steps)
    decreases |steps|
  {
    && x < |s.place| && !s.place[x].Free?
    && (steps != [] ==> (StepInv(s, steps[0]); InUse(Do(s, steps[0]), steps[1..], x)))
  }

  lemma {:induction false} CarriesAlong(s: State, steps: seq<Step>, x: nat, msg: Msg)
    requires Inv(s) && AllowedRun(s, steps) && InUse(s, steps, x) && Carries(s, x, msg) && |msg| <= s.msgSize
    ensures Carries(Run(s, steps), x, msg) && |s.store[x]| == |Run(s, steps).store[x]| == s.msgSize
    ensures Run(s, steps).store[x][|msg|..] == s.store[x][|msg|..]
    decreases |steps|
  {
    assert SlotOk(s, x);
    if steps != [] {
      var r := Do(s, steps[0]);
      StepInv(s, steps[0]);
      CarriesOn(s, steps[0], x, msg);
      CarriesAlong(r, steps[1..], x, msg);
    }
  }

  /** Whatever a receive yields beyond the end of the message is what the slot held before the
      message was sent: earlier messages, or what was in the pool at first. */
  lemma BeyondIsStale(s: State, t: nat, msg: Msg, urgent: bool, mayWait: bool, pos: nat, steps: seq<Step>, u: nat)
    requires Inv(s) && Allowed(s, Reserve(t, msg, urgent, mayWait, pos)) && |msg| <= s.msgSize && s.free != []
    requires var r := Do(s, Reserve(t, msg, urgent, mayWait, pos));
      && Inv(r) && AllowedRun(r, steps) && InUse(r, steps, s.free[0])
      && Allowed(Run(r, steps), GiveBack(u)) && Run(r, steps).hands[u].slot == s.free[0]
    ensures var h := Run(Do(s, Reserve(t, msg, urgent, mayWait, pos)), steps).hands[u];
      && s.free[0] < |s.store| && h.msg == msg && |h.got| <= |s.store[s.free[0]]|
      && forall k :: |msg| <= k < |h.got| ==> h.got[k] == s.store[s.free[0]][k]
  {
    var x, r := s.free[0], Do(s, Reserve(t, msg, urgent, mayWait, pos));
    assert x in s.free && SlotOk(s, x);
    CarriesAlong(r, steps, x, msg);
    var e := Run(r, steps);
    assert HandOk(e, u) && SlotOk(e, x);
    forall k | |msg| <= k < |e.hands[u].got| ensures e.hands[u].got[k] == s.store[x][k] {
      assert e.store[x][|msg|..][k - |msg|] == e.store[x][k] && s.store[x][|msg|..][k - |msg|] == s.store[x][k];
    }
  }

  /** Two messages through one slot: thread 0 sends the bytes 7 and 8, thread 1 receives the first
      of them; thread 0 sends the byte 9, and thread 1 receives two bytes. */
  function LeakStep(k: nat): Step {
    if k == 0 then Reserve(0, [7, 8], false, false, 0) else if k == 1 then Fill(0) else if k == 2 then Fill(0)
    else if k == 3 then Link(0) else if k == 4 then Fetch(1, 1, false, 0) else if k == 5 then Drain(1)
    else if k == 6 then GiveBack(1) else if k == 7 then Reserve(0, [9], false, false, 0) else if k == 8 then Fill(0)
    else if k == 9 then Link(0) else if k == 10 then Fetch(1, 2, false, 0) else Drain(1)
  }

  function LeakState(k: nat): State {
    var g := Gate([], {});
    var free := State(2, [0], [], [[0, 0]], [Free], [[]], map[], g, g);
    var mine, queued := free.(free := [], place := [Held(0)]), free.(free := [], queue := [0], place := [Queued]);
    var yours := free.(free := [], place := [Held(1)]);
    if k == 0 then free
    else if k == 1 then mine.(hands := map[0 := Filling(0, false, [7, 8], 0)])
    else if k == 2 then mine.(store := [[7, 0]], hands := map[0 := Filling(0, false, [7, 8], 1)])
    else if k == 3 then mine.(store := [[7, 8]], hands := map[0 := Filling(0, false, [7, 8], 2)])
    else if k == 4 then queued.(store := [[7, 8]], letters := [[7, 8]])
    else if k == 5 then
      yours.(store := [[7, 8]], letters := [[7, 8]], hands := map[1 := Draining(0, 1, [7, 8], [])])
    else if k == 6 then
      yours.(store := [[7, 8]], letters := [[7, 8]], hands := map[1 := Draining(0, 1, [7, 8], [7])])
    else if k == 7 then free.(store := [[7, 8]], letters := [[7, 8]])
    else if k == 8 then
      mine.(store := [[7, 8]], letters := [[7, 8]], hands := map[0 := Filling(0, false, [9], 0)])
    else if k == 9 then
      mine.(store := [[9, 8]], letters := [[7, 8]], hands := map[0 := Filling(0, false, [9], 1)])
    else if k == 10 then queued.(store := [[9, 8]], letters := [[9]])
    else if k == 11 then yours.(store := [[9, 8]], letters := [[9]], hands := map[1 := Draining(0, 2, [9], [])])
    else if k == 12 then yours.(store := [[9, 8]], letters := [[9]], hands := map[1 := Draining(0, 2, [9], [9])])
    else yours.(store := [[9, 8]], letters := [[9]], hands := map[1 := Draining(0, 2, [9], [9, 8])])
  }

  /** The second receive ends with the 8 of the first message behind the 9 of the second. */
  lemma {:induction false} LeakRun(k: nat)
    requires k <= 13
    ensures Inv(LeakState(k)) && Initial(LeakState(0))
    ensures k > 0 ==> LeaksTo(k - 1)
    ensures LeakState(13).hands[1].msg == [9] && LeakState(13).hands[1].got == [9, 8]
  {
    LeakBegins();
    if k > 0 {
      LeakRun(k - 1);
      StepInvLeak(k - 1);
    }
  }

  /** Step `k` of the run leads from state `k` to the next. */
  ghost predicate LeaksTo(k: nat) {
    Inv(LeakState(k)) && Allowed(LeakState(k), LeakStep(k)) && Do(LeakState(k), LeakStep(k)) == LeakState(k + 1)
  }

  lemma LeakBegins()
    ensures Initial(LeakState(0)) && Inv(LeakState(0))
    ensures LeakState(13).hands[1].msg == [9] && LeakState(13).hands[1].got == [9, 8]
  {
    assert Down(1) == [0] by { assert Down(0) == []; }
    InitialInv(LeakState(0));
  }

  lemma StepInvLeak(k: nat)
    requires k < 13 && Inv(LeakState(k))
    ensures LeaksTo(k) && Inv(LeakState(k + 1))
  {
    LeakOnce(k);
    StepInv(LeakState(k), LeakStep(k));
  }

  lemma LeakOnce(k: nat)
    requires k < 13 && Inv(LeakState(k))
    ensures LeaksTo(k)
  {
    if k == 0 || k == 7 { LeakReserve(k); }
    else if k == 1 || k == 2 || k == 8 { LeakFill(k); }
    else if k == 3 || k == 9 { LeakLink(k); }
    else if k == 4 || k == 10 { LeakFetch(k); }
    else if k == 6 { LeakGiveBack(); }
    else { LeakDrain(k); }
  }

  lemma LeakReserve(k: nat)
    requires (k == 0 || k == 7) && Inv(LeakState(k))
    ensures LeaksTo(k)
  {
    assert [0][1..] == [];
    assert Do(LeakState(k), LeakStep(k)) == LeakState(k + 1);
  }

  lemma LeakFill(k: nat)
    requires (k == 1 || k == 2 || k == 8) && Inv(LeakState(k))
    ensures LeaksTo(k)
  {
    var s, h := LeakState(k), LeakState(k).hands[0];
    var row := s.store[0][h.done := h.msg[h.done]];
    assert |row| == 2 && row[0] == LeakState(k + 1).store[0][0] && row[1] == LeakState(k + 1).store[0][1];
    assert row == LeakState(k + 1).store[0];
    assert s.store[h.slot := s.store[h.slot][h.done := h.msg[h.done]]] == LeakState(k + 1).store;
    assert s.hands[0 := h.(done := h.done + 1)] == LeakState(k + 1).hands;
  }

  lemma LeakLink(k: nat)
    requires (k == 3 || k == 9) && Inv(LeakState(k))
    ensures LeaksTo(k)
  {
    var s := LeakState(k);
    assert s.hands - {0} == map[] && [] + [0] == [0];
    assert s.letters[0 := s.hands[0].msg] == LeakState(k + 1).letters;
  }

  lemma LeakFetch(k: nat)
    requires (k == 4 || k == 10) && Inv(LeakState(k))
    ensures LeaksTo(k)
  {
    var s := LeakState(k);
    assert [0][1..] == [];
    assert s.hands[1 := Draining(0, if k == 4 then 1 else 2, s.letters[0], [])] == LeakState(k + 1).hands;
  }

  lemma LeakDrain(k: nat)
    requires (k == 5 || k == 11 || k == 12) && Inv(LeakState(k))
    ensures LeaksTo(k)
  {
    if k == 5 { LeakDrainFirst(); } else { LeakDrainSecond(k); }
  }

  lemma LeakDrainFirst()
    requires Inv(LeakState(5))
    ensures LeaksTo(5)
  {
    var s := LeakState(5);
    assert [] + [s.store[0][0]] == [7];
    assert s.hands[1 := LeakState(6).hands[1]] == LeakState(6).hands;
  }

  lemma LeakDrainSecond(k: nat)
    requires (k == 11 || k == 12) && Inv(LeakState(k))
    ensures LeaksTo(k)
  {
    var s, h := LeakState(k), LeakState(k).hands[1];
    assert h.got + [s.store[0][|h.got|]] == LeakState(k + 1).hands[1].got;
    assert s.hands[1 := LeakState(k + 1).hands[1]] == LeakState(k + 1).hands;
  }

  lemma LeakGiveBack()
    requires Inv(LeakState(6))
    ensures LeaksTo(6)
  {
    assert LeakState(6).hands - {1} == map[] && [0] + [] == [0];
  }

  // --------------------------------------------------------------------------------
  // The entry counter
  // --------------------------------------------------------------------------------

  /** A thread about to link finds room in the queue, so the 16-bit `entry` cannot overflow. */
  lemma EntryNeverOverflows(s: State, t: nat)
    requires Inv(s) && Allowed(s, Link(t)) && |s.place| <= 0xffff
    ensures |s.queue| < 0xffff
  {
    var x := s.hands[t].slot;
    assert HandOk(s, t) && SlotOk(s, x);
    DistinctSnoc(s.queue, x);
    DistinctFits(s.queue + [x], |s.place|);
  }
}
