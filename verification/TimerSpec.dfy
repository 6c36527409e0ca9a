/** The hard timers of timer.c with an unbounded clock and one list.

    Every `rt_timer_start` is an arming, numbered from 0.  The queue holds the pending
    armings; what became of each arming is recorded for good.
 */
module TimerSpec {

  /** `RT_TICK_MAX / 2` */
  const HALF: nat := 0x7fff_ffff

  /** A timer's `init_tick` and flags. */
  datatype Timer = Timer(period: nat, periodic: bool, active: bool)
  datatype Arming = Arming(id: nat, timer: nat, at: nat, delay: nat)
  datatype Fate = Pending | Fired(at: nat) | Cancelled

  /** `order` lists the armings that fired, oldest first; `held` has the timer whose callback
      is running, as long as that timer is in the expiry loop's own list. */
  datatype State = State(
    now: nat, timers: map<nat, Timer>, queue: seq<Arming>, armings: seq<Arming>, fate: seq<Fate>, order: seq<Arming>,
    held: set<nat>)

  /** What threads and callbacks may do with timers. */
  datatype Command = Start(t: nat) | Stop(t: nat) | SetTime(t: nat, ticks: nat) | SetMode(t: nat, periodic: bool)

  function Deadline(a: Arming): nat {
    a.at + a.delay
  }

  /** Earlier deadline first, and of two with the same deadline the one started first. */
  predicate Before(a: Arming, b: Arming) {
    Deadline(a) < Deadline(b) || (Deadline(a) == Deadline(b) && a.id < b.id)
  }

  ghost predicate Sorted(q: seq<Arming>) {
    forall i, j :: 0 <= i < j < |q| ==> Before(q[i], q[j])
  }

  /** No timer is pending twice. */
  ghost predicate OneEach(q: seq<Arming>) {
    forall i, j :: 0 <= i < j < |q| ==> q[i].timer != q[j].timer
  }

  /** What `rt_timer_start` asserts. */
  ghost predicate ValidTimer(c: Timer) {
    c.period < HALF
  }

  /** No timer has a period of zero ticks. */
  ghost predicate Lively(s: State) {
    forall t :: t in s.timers ==> s.timers[t].period > 0
  }

  /** Not overdue, and due within half a wrap.  A start with no delay between two ticks is noticed
      at the second one only, one tick late. */
  ghost predicate Timely(now: nat, a: Arming) {
    (now <= Deadline(a) || (a.delay == 0 && now == Deadline(a) + 1)) && Deadline(a) < now + HALF
  }

  /** A queued arming is on record as pending, is timely, and belongs to an active timer. */
  ghost predicate Queued(s: State, a: Arming) {
    && a.id < |s.armings| == |s.fate| && s.armings[a.id] == a
    && s.fate[a.id].Pending?
    && Timely(s.now, a)
    && a.timer in s.timers && s.timers[a.timer].active
    && a.timer !in s.held
  }

  /** An arming that fires at its start plus its delay, or with no delay at the tick after */
  predicate FiredOnTime(a: Arming, at: nat) {
    at == Deadline(a) || (a.delay == 0 && at == Deadline(a) + 1)
  }

  /** What is on record is true: an arming that fired did so on time. */
  ghost predicate OnTime(s: State, k: nat)
    requires k < |s.armings| == |s.fate|
  {
    && s.armings[k].id == k && s.armings[k].at <= s.now
    && match s.fate[k]
       case Pending => s.armings[k] in s.queue
       case Fired(at) => FiredOnTime(s.armings[k], at) && at <= s.now && s.armings[k] in s.order
       case Cancelled => true
  }

  ghost predicate Inv(s: State) {
    && |s.fate| == |s.armings|
    && (forall t :: t in s.timers ==> ValidTimer(s.timers[t]))
    && (forall a :: a in s.queue ==> Queued(s, a))
    && Sorted(s.queue)
    && OneEach(s.queue)
    && (forall k :: 0 <= k < |s.armings| ==> OnTime(s, k))
    && InOrder(s)
  }

  /** The record has arming `a` as one that fired. */
  ghost predicate Happened(s: State, a: Arming) {
    a.id < |s.armings| == |s.fate| && s.armings[a.id] == a && s.fate[a.id].Fired?
  }

  /** The firings so far are in deadline order and precede everything pending. */
  ghost predicate InOrder(s: State) {
    && Sorted(s.order)
    && (forall a :: a in s.order ==> Deadline(a) <= s.now && Happened(s, a))
    && (forall a, b :: a in s.order && b in s.queue ==> Before(a, b))
  }

  /** Between ticks nothing pending is due, except what was started with no delay since the last
      one. */
  ghost predicate Quiet(s: State) {
    Inv(s) && s.held == {} && forall a :: a in s.queue ==> s.now < Deadline(a) || (a.delay == 0 && s.now == Deadline(a))
  }

  /** `++ rt_tick` */
  function Advance(s: State): State {
    s.(now := s.now + 1)
  }

  // --------------------------------------------------------------------------------
  // Operations
  // --------------------------------------------------------------------------------

  /** The queue without the armings of timer `t`. */
  function Drop(q: seq<Arming>, t: nat): (r: seq<Arming>)
    ensures forall a :: a in r <==> a in q && a.timer != t
  {
    if q == [] then []
    else if q[0].timer == t then Drop(q[1..], t)
    else [q[0]] + Drop(q[1..], t)
  }

  /** `_timer_remove`: out of every list, the expiry loop's included */
  function Unqueue(s: State, t: nat): State
    requires |s.fate| == |s.armings|
  {
    s.(queue := Drop(s.queue, t),
       fate := seq(|s.fate|, k requires 0 <= k < |s.fate| =>
         if s.fate[k].Pending? && s.armings[k].timer == t then Cancelled else s.fate[k]),
       held := s.held - {t})
  }

  /** The index behind the queued armings that are not later than `deadline`. */
  function Place(q: seq<Arming>, deadline: nat): (i: nat)
    ensures i <= |q|
    ensures forall j :: 0 <= j < i ==> Deadline(q[j]) <= deadline
    ensures i < |q| ==> deadline < Deadline(q[i])
  {
    if q == [] || deadline < Deadline(q[0]) then 0 else 1 + Place(q[1..], deadline)
  }

  /** `rt_timer_start` */
  function Arm(s: State, t: nat): State
    requires |s.fate| == |s.armings| && t in s.timers
  {
    var s1 := Unqueue(s, t);
    var c := s.timers[t];
    var a := Arming(|s.armings|, t, s.now, c.period);
    var i := Place(s1.queue, Deadline(a));
    s1.(queue := s1.queue[..i] + [a] + s1.queue[i..],
        armings := s.armings + [a],
        fate := s1.fate + [Pending],
        timers := s.timers[t := c.(active := true)])
  }

  /** `rt_timer_stop`; a timer that is not active is refused. */
  function Disarm(s: State, t: nat): State
    requires |s.fate| == |s.armings| && t in s.timers
  {
    if !s.timers[t].active then s
    else Unqueue(s, t).(timers := s.timers[t := s.timers[t].(active := false)])
  }

  ghost predicate Allowed(s: State, c: Command) {
    c.t in s.timers && (c.SetTime? ==> c.ticks < HALF)
  }

  function Do(s: State, c: Command): State
    requires |s.fate| == |s.armings| && c.t in s.timers
  {
    match c
    case Start(t) => Arm(s, t)
    case Stop(t) => Disarm(s, t)
    case SetTime(t, ticks) => s.(timers := s.timers[t := s.timers[t].(period := ticks)])
    case SetMode(t, periodic) => s.(timers := s.timers[t := s.timers[t].(periodic := periodic)])
  }

  // --------------------------------------------------------------------------------
  // Commands keep the invariant, and make nothing due unless they start a zero period
  // --------------------------------------------------------------------------------

  lemma {:induction false} DropOrdered(q: seq<Arming>, t: nat)
    requires Sorted(q) && OneEach(q)
    ensures Sorted(Drop(q, t)) && OneEach(Drop(q, t))
  {
    if q != [] {
      var tail := q[1..];
      DropOrdered(tail, t);
      var r := Drop(tail, t);
      forall i | 0 <= i < |r| ensures Before(q[0], r[i]) && q[0].timer != r[i].timer {
        assert r[i] in tail;
        var j :| 0 <= j < |tail| && tail[j] == r[i];
        assert q[j + 1] == r[i];
      }
    }
  }

  lemma UnqueueInv(s: State, t: nat)
    requires Inv(s)
    ensures Inv(Unqueue(s, t))
    ensures forall a :: a in Unqueue(s, t).queue ==> a.timer != t
  {
    var r := Unqueue(s, t);
    DropOrdered(s.queue, t);
    forall a | a in r.queue ensures Queued(r, a) { assert Queued(s, a); }
    forall k | 0 <= k < |r.armings| ensures OnTime(r, k) { assert OnTime(s, k); }
  }

  /** Placing an arming behind all that are not later keeps the order. */
  lemma PlaceOrdered(q: seq<Arming>, a: Arming)
    requires Sorted(q) && OneEach(q)
    requires forall b :: b in q ==> b.id < a.id && b.timer != a.timer
    ensures var i := Place(q, Deadline(a)); Sorted(q[..i] + [a] + q[i..]) && OneEach(q[..i] + [a] + q[i..])
  {
    var i := Place(q, Deadline(a));
    var r := q[..i] + [a] + q[i..];
    forall x, y | 0 <= x < y < |r| ensures Before(r[x], r[y]) && r[x].timer != r[y].timer {
      assert r[x] == (if x < i then q[x] else if x == i then a else q[x - 1]);
      assert r[y] == (if y < i then q[y] else if y == i then a else q[y - 1]);
      if x == i && y > i + 1 { assert Before(q[i], q[y - 1]); }
    }
  }

  lemma InsertMembers(q: seq<Arming>, a: Arming, i: nat)
    requires i <= |q|
    ensures forall b :: b in q[..i] + [a] + q[i..] <==> b == a || b in q
  {
    assert q == q[..i] + q[i..];
  }

  lemma ArmInv(s: State, t: nat)
    requires Inv(s) && t in s.timers
    ensures Inv(Arm(s, t))
    ensures forall a :: a in Arm(s, t).queue ==>
      a in s.queue || (a.at == s.now && a.delay == s.timers[t].period)
  {
    var s1 := Unqueue(s, t);
    UnqueueInv(s, t);
    var a := Arming(|s.armings|, t, s.now, s.timers[t].period);
    assert ValidTimer(s.timers[t]);
    forall b | b in s1.queue ensures b.id < a.id && b.timer != t { assert Queued(s1, b); }
    PlaceOrdered(s1.queue, a);
    InsertMembers(s1.queue, a, Place(s1.queue, Deadline(a)));
    ArmedInv(s1, Arm(s, t), a);
  }

  /** The record of a new arming. */
  lemma ArmedInv(s: State, r: State, a: Arming)
    requires Inv(s) && a.id == |s.armings| && a.at == s.now
    requires a.delay < HALF && a.timer in s.timers && a.timer !in s.held
    requires ValidTimer(s.timers[a.timer])
    requires r == s.(queue := r.queue, armings := s.armings + [a], fate := s.fate + [Pending],
                     timers := s.timers[a.timer := s.timers[a.timer].(active := true)])
    requires Sorted(r.queue) && OneEach(r.queue) && forall b :: b in r.queue <==> b == a || b in s.queue
    ensures Inv(r)
  {
    forall b | b in r.queue ensures Queued(r, b) {
      if b != a { assert Queued(s, b); }
    }
    forall k | 0 <= k < |r.armings| ensures OnTime(r, k) {
      if k < |s.armings| { assert OnTime(s, k); }
    }
  }

  /** A command keeps the invariant; with periods of at least one tick, whatever it queues is due
      later than now. */
  lemma DoInv(s: State, c: Command)
    requires Inv(s) && Allowed(s, c)
    ensures Inv(Do(s, c)) && Do(s, c).now == s.now
    ensures forall a :: a in Do(s, c).queue ==> a in s.queue || a.at == s.now
    ensures Lively(s) ==> forall a :: a in Do(s, c).queue ==> a in s.queue || s.now < Deadline(a)
    ensures Lively(s) && (c.SetTime? ==> c.ticks > 0) ==> Lively(Do(s, c))
    ensures Do(s, c).timers.Keys == s.timers.Keys
  {
    var r := Do(s, c);
    match c {
      case Start(t) => ArmInv(s, t);
      case Stop(t) =>
        if s.timers[t].active {
          UnqueueInv(s, t);
          forall a | a in r.queue ensures Queued(r, a) { assert Queued(Unqueue(s, t), a); }
          forall k | 0 <= k < |r.armings| ensures OnTime(r, k) { assert OnTime(Unqueue(s, t), k); }
        }
      case _ =>
        forall a | a in r.queue ensures Queued(r, a) { assert Queued(s, a); }
        forall k | 0 <= k < |r.armings| ensures OnTime(r, k) { assert OnTime(s, k); }
    }
  }

  // --------------------------------------------------------------------------------
  // The expiry loop of `rt_timer_check`
  // --------------------------------------------------------------------------------

  ghost predicate Expired(s: State) {
    s.queue != [] && Deadline(s.queue[0]) <= s.now
  }

  /** The first queued timer leaves the queue for the loop's own list, about to be called. */
  function Fire(s: State): State
    requires s.queue != [] && s.queue[0].id < |s.fate| && s.queue[0].timer in s.timers
  {
    var a := s.queue[0];
    var c := s.timers[a.timer];
    s.(queue := s.queue[1..],
       fate := s.fate[a.id := Fired(s.now)],
       order := s.order + [a],
       held := {a.timer},
       timers := s.timers[a.timer := c.(active := c.active && c.periodic)])
  }

  /** After the callback: a timer that was not touched leaves the loop's list, and a periodic
      one is started again. */
  function Settle(s: State, t: nat): State
    requires |s.fate| == |s.armings| && t in s.timers
  {
    if t !in s.held then s
    else
      var s1 := s.(held := s.held - {t});
      if s.timers[t].periodic && s.timers[t].active then Arm(s1, t) else s1
  }

  ghost predicate Scripted(keys: set<nat>, cmds: seq<Command>) {
    forall i :: 0 <= i < |cmds| ==> cmds[i].t in keys && (cmds[i].SetTime? ==> cmds[i].ticks < HALF)
  }

  /** No command sets a period of zero. */
  ghost predicate LivelyCommands(cmds: seq<Command>) {
    forall i :: 0 <= i < |cmds| ==> cmds[i].SetTime? ==> cmds[i].ticks > 0
  }

  ghost predicate LivelyScript(script: seq<seq<Command>>) {
    forall i :: 0 <= i < |script| ==> LivelyCommands(script[i])
  }

  /** A callback or a thread issuing commands one after the other. */
  ghost function DoAll(s: State, cmds: seq<Command>): (r: State)
    requires Inv(s) && Scripted(s.timers.Keys, cmds)
    ensures Inv(r) && r.now == s.now && r.timers.Keys == s.timers.Keys && r.held <= s.held
    decreases |cmds|
  {
    if cmds == [] then s else DoInv(s, cmds[0]); DoAll(Do(s, cmds[0]), cmds[1..])
  }

  /** Commands between ticks queue nothing overdue. */
  lemma {:induction false} DoAllQuiet(s: State, cmds: seq<Command>)
    requires Quiet(s) && Scripted(s.timers.Keys, cmds)
    ensures Quiet(DoAll(s, cmds))
    decreases |cmds|
  {
    if cmds != [] {
      DoInv(s, cmds[0]);
      assert Do(s, cmds[0]).held <= s.held;
      DoAllQuiet(Do(s, cmds[0]), cmds[1..]);
    }
  }

  lemma {:induction false} DoAllLively(s: State, cmds: seq<Command>)
    requires Inv(s) && Scripted(s.timers.Keys, cmds) && Lively(s) && LivelyCommands(cmds)
    ensures Lively(DoAll(s, cmds))
    ensures forall a :: a in DoAll(s, cmds).queue ==> a in s.queue || s.now < Deadline(a)
    decreases |cmds|
  {
    if cmds != [] {
      DoInv(s, cmds[0]);
      DoAllLively(Do(s, cmds[0]), cmds[1..]);
    }
  }

  ghost function DueSet(s: State): set<Arming> {
    set a | a in s.queue && Deadline(a) <= s.now
  }

  lemma FireInv(s: State)
    requires Inv(s) && Expired(s)
    ensures Queued(s, s.queue[0])
    ensures Inv(Fire(s)) && FiredOnTime(s.queue[0], s.now) && s.queue[0] !in Fire(s).queue
  {
    var a := s.queue[0];
    assert a in s.queue && Queued(s, a);
    var r := Fire(s);
    FirstLeaves(s);
    forall b | b in r.queue ensures Queued(r, b) { assert Queued(s, b); }
    forall k | 0 <= k < |r.armings| ensures OnTime(r, k) { assert OnTime(s, k); }
    FireInOrder(s);
  }

  /** The others in the queue come after the first and belong to other timers. */
  lemma FirstLeaves(s: State)
    requires Inv(s) && s.queue != []
    ensures forall b :: b in s.queue[1..] ==> b.timer != s.queue[0].timer && Before(s.queue[0], b)
    ensures forall b :: b in s.queue <==> b == s.queue[0] || b in s.queue[1..]
  {
    var rest := s.queue[1..];
    assert s.queue == [s.queue[0]] + rest;
    forall b | b in rest ensures b.timer != s.queue[0].timer && Before(s.queue[0], b) {
      var j :| 0 <= j < |rest| && rest[j] == b;
      assert s.queue[j + 1] == b;
    }
  }

  lemma FireInOrder(s: State)
    requires Inv(s) && Expired(s) && Queued(s, s.queue[0])
    ensures InOrder(Fire(s))
  {
    var a, r := s.queue[0], Fire(s);
    FirstLeaves(s);
    forall i, j | 0 <= i < j < |r.order| ensures Before(r.order[i], r.order[j]) {
      if j == |s.order| { assert s.order[i] in s.order; }
    }
    forall b | b in r.order ensures Happened(r, b) && Deadline(b) <= r.now {
      assert b != a ==> b in s.order && Happened(s, b);
    }
  }

  lemma SettleInv(s: State, t: nat)
    requires Inv(s) && t in s.timers && s.held <= {t}
    ensures Inv(Settle(s, t)) && Settle(s, t).now == s.now && Settle(s, t).held == {}
    ensures Settle(s, t).timers.Keys == s.timers.Keys
    ensures forall a :: a in Settle(s, t).queue ==>
      a in s.queue || (s.timers[t].periodic && a.at == s.now && a.delay == s.timers[t].period)
  {
    if t in s.held {
      var s1 := s.(held := s.held - {t});
      forall a | a in s1.queue ensures Queued(s1, a) { assert Queued(s, a); }
      forall k | 0 <= k < |s1.armings| ensures OnTime(s1, k) { assert OnTime(s, k); }
      if s.timers[t].periodic && s.timers[t].active { ArmInv(s1, t); }
    }
  }

  /** One round of the loop, the callback doing `cmds`. */
  ghost function Round(s: State, cmds: seq<Command>): (r: State)
    requires Inv(s) && Expired(s) && Scripted(s.timers.Keys, cmds)
    ensures Inv(r) && r.now == s.now && r.timers.Keys == s.timers.Keys && r.held == {}
  {
    FireInv(s);
    var a := s.queue[0];
    var s2 := DoAll(Fire(s), cmds);
    SettleInv(s2, a.timer);
    Settle(s2, a.timer)
  }

  /** With periods of at least one tick a round leaves less to be done at this tick. */
  lemma RoundShrinks(s: State, cmds: seq<Command>)
    requires Inv(s) && Expired(s) && Scripted(s.timers.Keys, cmds) && Lively(s) && LivelyCommands(cmds)
    ensures Lively(Round(s, cmds)) && DueSet(Round(s, cmds)) < DueSet(s)
  {
    FireInv(s);
    var a := s.queue[0];
    var s1 := Fire(s);
    DoAllLively(s1, cmds);
    var s2 := DoAll(s1, cmds);
    SettleInv(s2, a.timer);
    assert a in DueSet(s) && a !in s1.queue;
    assert forall b :: b in s1.queue ==> b in s.queue;
    assert a !in DueSet(Round(s, cmds));
  }

  function Script(script: seq<seq<Command>>): seq<Command> {
    if script == [] then [] else script[0]
  }

  function Later(script: seq<seq<Command>>): seq<seq<Command>> {
    if script == [] then [] else script[1..]
  }

  ghost predicate ScriptedAll(keys: set<nat>, script: seq<seq<Command>>) {
    forall i :: 0 <= i < |script| ==> Scripted(keys, script[i])
  }

  /** The expiry loop ends after `n` rounds; the i-th callback it makes does the i-th entry of
      `script`, and later ones do nothing. */
  ghost predicate EndsIn(s: State, script: seq<seq<Command>>, n: nat)
    requires Inv(s) && ScriptedAll(s.timers.Keys, script)
    decreases n
  {
    if !Expired(s) then n == 0 else n > 0 && EndsIn(Round(s, Script(script)), Later(script), n - 1)
  }

  ghost predicate Ends(s: State, script: seq<seq<Command>>)
    requires Inv(s) && ScriptedAll(s.timers.Keys, script)
  {
    exists n: nat :: EndsIn(s, script, n)
  }

  ghost function Rounds(s: State, script: seq<seq<Command>>): (n: nat)
    requires Inv(s) && ScriptedAll(s.timers.Keys, script) && Ends(s, script)
    ensures EndsIn(s, script, n)
  {
    var n: nat :| EndsIn(s, script, n);
    n
  }

  lemma {:induction false} EndsOnce(s: State, script: seq<seq<Command>>, m: nat, n: nat)
    requires Inv(s) && ScriptedAll(s.timers.Keys, script) && EndsIn(s, script, m) && EndsIn(s, script, n)
    ensures m == n
    decreases m
  {
    if Expired(s) {
      var r := AfterRound(s, script, m);
      assert EndsIn(r, Later(script), n - 1);
      EndsOnce(r, Later(script), m - 1, n - 1);
    }
  }

  lemma AfterRound(s: State, script: seq<seq<Command>>, n: nat) returns (r: State)
    requires Inv(s) && ScriptedAll(s.timers.Keys, script) && Expired(s)
    ensures r == Round(s, Script(script)) && Inv(r) && ScriptedAll(r.timers.Keys, Later(script))
    ensures EndsIn(s, script, n) <==> n > 0 && EndsIn(r, Later(script), n - 1)
  {
    r := Round(s, Script(script));
  }

  lemma NextRounds(s: State, script: seq<seq<Command>>)
    requires Inv(s) && ScriptedAll(s.timers.Keys, script) && Ends(s, script) && Expired(s)
    ensures var r := Round(s, Script(script));
      && ScriptedAll(r.timers.Keys, Later(script)) && Ends(r, Later(script))
      && Rounds(s, script) == Rounds(r, Later(script)) + 1
  {
    var n := Rounds(s, script);
    var r := AfterRound(s, script, n);
    assert EndsIn(r, Later(script), n - 1);
    EndsOnce(r, Later(script), n - 1, Rounds(r, Later(script)));
  }

  /** With periods of at least one tick, in the state and in the callbacks, the loop ends. */
  lemma {:induction false} LivelyEnds(s: State, script: seq<seq<Command>>)
    requires Inv(s) && ScriptedAll(s.timers.Keys, script) && Lively(s) && LivelyScript(script)
    ensures Ends(s, script)
    decreases DueSet(s)
  {
    if Expired(s) {
      RoundShrinks(s, Script(script));
      LivelyEnds(Round(s, Script(script)), Later(script));
      assert EndsIn(s, script, Rounds(Round(s, Script(script)), Later(script)) + 1);
    } else {
      assert EndsIn(s, script, 0);
    }
  }

  /** `rt_timer_check`, where it ends */
  ghost function Check(s: State, script: seq<seq<Command>>): (r: State)
    requires Inv(s) && s.held == {} && ScriptedAll(s.timers.Keys, script) && Ends(s, script)
    ensures Quiet(r) && r.now == s.now && r.timers.Keys == s.timers.Keys
    decreases Rounds(s, script)
  {
    if !Expired(s) then NoneDue(s); s
    else
      NextRounds(s, script);
      Check(Round(s, Script(script)), Later(script))
  }

  lemma CheckRound(s: State, script: seq<seq<Command>>)
    requires Inv(s) && s.held == {} && ScriptedAll(s.timers.Keys, script) && Ends(s, script) && Expired(s)
    ensures Scripted(s.timers.Keys, Script(script))
    ensures var r := Round(s, Script(script));
      && ScriptedAll(r.timers.Keys, Later(script)) && Ends(r, Later(script))
      && Rounds(r, Later(script)) < Rounds(s, script) && Check(s, script) == Check(r, Later(script))
  {
    NextRounds(s, script);
  }

  lemma {:induction false} CheckLively(s: State, script: seq<seq<Command>>)
    requires Inv(s) && s.held == {} && ScriptedAll(s.timers.Keys, script) && Lively(s) && LivelyScript(script)
    ensures Ends(s, script) && Lively(Check(s, script))
    decreases DueSet(s)
  {
    LivelyEnds(s, script);
    if Expired(s) {
      RoundShrinks(s, Script(script));
      CheckRound(s, script);
      CheckLively(Round(s, Script(script)), Later(script));
    }
  }

  // --------------------------------------------------------------------------------
  // Periods of zero
  // --------------------------------------------------------------------------------

  /** Timer `t` is due, and would be started again with zero ticks to go. */
  ghost predicate ZeroDue(s: State, t: nat) {
    && t in s.timers && s.timers[t].periodic && s.timers[t].period == 0
    && exists a :: a in s.queue && a.timer == t && Deadline(a) <= s.now
  }

  /** A round whose callback does nothing leaves periods and modes alone, fires the first timer, and
      restarts it if it is periodic. */
  lemma IdleRound(s: State)
    requires Inv(s) && Expired(s) && s.held == {}
    ensures var a, r := s.queue[0], Round(s, []);
      var c := s.timers[a.timer];
      && a.timer in s.timers && FiredOnTime(a, s.now)
      && (forall t :: t in s.timers ==>
            t in r.timers && r.timers[t].periodic == s.timers[t].periodic && r.timers[t].period == s.timers[t].period)
      && (forall b :: b in r.queue <==>
          (b in s.queue && b != a) || (c.periodic && b == Arming(|s.armings|, a.timer, s.now, c.period)))
  {
    FireInv(s);
    var a, s1 := s.queue[0], Fire(s);
    assert Queued(s, a) && s.queue == [a] + s1.queue;
    assert DoAll(s1, []) == s1;
    forall b | b in s1.queue ensures b.timer != a.timer { assert Queued(s1, b); }
    SettleInv(s1, a.timer);
    if s.timers[a.timer].periodic { Rearmed(s1.(held := s1.held - {a.timer}), a.timer); }
  }

  /** Starting a timer that is not queued adds one arming. */
  lemma Rearmed(s: State, t: nat)
    requires |s.fate| == |s.armings| && t in s.timers && forall b :: b in s.queue ==> b.timer != t
    ensures forall b :: b in Arm(s, t).queue <==> b in s.queue || b == Arming(|s.armings|, t, s.now, s.timers[t].period)
  {
    DropNone(s.queue, t);
    var n := Arming(|s.armings|, t, s.now, s.timers[t].period);
    InsertMembers(s.queue, n, Place(s.queue, Deadline(n)));
  }

  lemma {:induction false} DropNone(q: seq<Arming>, t: nat)
    requires forall a :: a in q ==> a.timer != t
    ensures Drop(q, t) == q
  {
    if q != [] { DropNone(q[1..], t); }
  }

  /** A round whose callback does nothing leaves less to be done at this tick if and only if the
      first timer is not periodic with a period of zero. */
  lemma IdleRoundShrinks(s: State)
    requires Inv(s) && Expired(s) && s.held == {} && s.queue[0].timer in s.timers
    ensures DueSet(Round(s, [])) < DueSet(s) <==>
      !(s.timers[s.queue[0].timer].periodic && s.timers[s.queue[0].timer].period == 0)
  {
    IdleRound(s);
    var a, r := s.queue[0], Round(s, []);
    var c := s.timers[a.timer];
    assert a in s.queue && Queued(s, a) && a in DueSet(s);
    if c.periodic && c.period == 0 {
      var n := Arming(|s.armings|, a.timer, s.now, 0);
      assert n in DueSet(r);
      forall b | b in s.queue ensures b.id < |s.armings| { assert Queued(s, b); }
    } else {
      assert a !in DueSet(r) by { assert |s.armings| != a.id; }
    }
  }

  /** Each state is the one before after a round whose callback does nothing. */
  ghost predicate IdleTrail(ss: seq<State>)
    decreases |ss|
  {
    && ss != [] && Inv(ss[0]) && ss[0].held == {}
    && (|ss| > 1 ==> Expired(ss[0]) && ss[1] == Round(ss[0], []) && IdleTrail(ss[1..]))
  }

  lemma ZeroStaysDue(s: State, t: nat)
    requires Inv(s) && s.held == {} && ZeroDue(s, t)
    ensures Expired(s) && ZeroDue(Round(s, []), t)
  {
    var a :| a in s.queue && a.timer == t && Deadline(a) <= s.now;
    if !Expired(s) { NoneDue(s); }
    IdleRound(s);
    var r := Round(s, []);
    if a == s.queue[0] {
      var n := Arming(|s.armings|, t, s.now, 0);
      assert n in r.queue && n.timer == t && Deadline(n) <= r.now;
    } else {
      assert a in r.queue;
    }
  }

  /** The loop goes on, and timer `t` is due. */
  ghost predicate Hangs(s: State, t: nat) {
    Expired(s) && ZeroDue(s, t)
  }

  /** A periodic timer with a period of zero that is due keeps the expiry loop going: however many
      rounds pass with callbacks that do nothing, it is due again. */
  lemma {:induction false} ZeroPeriodNeverEnds(s: State, t: nat, k: nat) returns (ss: seq<State>)
    requires Inv(s) && s.held == {} && ZeroDue(s, t)
    ensures |ss| == k + 1 && ss[0] == s && IdleTrail(ss)
    ensures forall i :: 0 <= i <= k ==> Hangs(ss[i], t)
    decreases k
  {
    ZeroStaysDue(s, t);
    ss := [s];
    if k > 0 {
      var rest := ZeroPeriodNeverEnds(Round(s, []), t, k - 1);
      ss := [s] + rest;
      TrailCons(s, rest, t);
    }
  }

  lemma TrailCons(s: State, rest: seq<State>, t: nat)
    requires Inv(s) && s.held == {} && Hangs(s, t) && IdleTrail(rest) && rest[0] == Round(s, [])
    requires forall i :: 0 <= i < |rest| ==> Hangs(rest[i], t)
    ensures IdleTrail([s] + rest)
    ensures forall i :: 0 <= i <= |rest| ==> Hangs(([s] + rest)[i], t)
  {
    assert ([s] + rest)[1..] == rest;
    forall i | 0 <= i <= |rest| ensures Hangs(([s] + rest)[i], t) {
      if i > 0 { assert ([s] + rest)[i] == rest[i - 1]; }
    }
  }

  lemma {:induction false} ZeroNotEndsIn(s: State, t: nat, n: nat)
    requires Inv(s) && s.held == {} && ZeroDue(s, t)
    ensures !EndsIn(s, [], n)
    decreases n
  {
    ZeroStaysDue(s, t);
    if n > 0 {
      var r := AfterRound(s, [], n);
      ZeroNotEndsIn(r, t, n - 1);
    }
  }

  /** With callbacks that do nothing the expiry loop ends if and only if no periodic timer with a
      period of zero is due. */
  lemma {:induction false} IdleEnds(s: State)
    requires Inv(s) && s.held == {}
    ensures Ends(s, []) <==> forall t :: !ZeroDue(s, t)
    decreases DueSet(s)
  {
    if t :| ZeroDue(s, t) {
      forall n: nat ensures !EndsIn(s, [], n) { ZeroNotEndsIn(s, t, n); }
    } else if Expired(s) {
      IdleRound(s);
      var a, r := s.queue[0], Round(s, []);
      assert a in s.queue && !ZeroDue(s, a.timer);
      IdleRoundShrinks(s);
      forall t ensures !ZeroDue(r, t) {
        if b :| b in r.queue && b.timer == t && Deadline(b) <= r.now && ZeroDue(r, t) {
          assert b in s.queue && ZeroDue(s, t);
        }
      }
      IdleEnds(r);
      assert EndsIn(s, [], Rounds(r, []) + 1);
    } else {
      assert EndsIn(s, [], 0);
    }
  }

  /** The tick after a state between ticks, with callbacks that do nothing, ends if and only if no
      periodic timer with a period of zero is due at it. */
  lemma IdleTickEnds(s: State)
    requires Quiet(s)
    ensures Inv(Advance(s))
    ensures Ends(Advance(s), []) <==> forall t :: !ZeroDue(Advance(s), t)
  {
    AdvanceInv(s);
    IdleEnds(Advance(s));
  }

  /** Whenever a thread starts a periodic timer with a period of zero, the next tick never ends. */
  lemma StartedZeroNeverEnds(s: State, t: nat, n: nat)
    requires Quiet(s) && t in s.timers && s.timers[t].periodic && s.timers[t].period == 0
    ensures Quiet(Arm(s, t)) && Inv(Advance(Arm(s, t)))
    ensures !EndsIn(Advance(Arm(s, t)), [], n)
  {
    StartQuiet(s, t);
    ZeroNotEndsIn(Advance(Arm(s, t)), t, n);
  }

  lemma StartQuiet(s: State, t: nat)
    requires Quiet(s) && t in s.timers
    ensures Quiet(Arm(s, t)) && Inv(Advance(Arm(s, t))) && Arm(s, t).held == {}
    ensures s.timers[t].periodic && s.timers[t].period == 0 ==> ZeroDue(Advance(Arm(s, t)), t)
  {
    ArmInv(s, t);
    var r := Arm(s, t);
    assert r.held == {};
    AdvanceInv(r);
    var a := Arming(|s.armings|, t, s.now, s.timers[t].period);
    var q := Unqueue(s, t).queue;
    InsertMembers(q, a, Place(q, Deadline(a)));
    assert a in Advance(r).queue;
  }

  /** A new list, one periodic timer with a period of zero, its start, and one tick. */
  lemma ZeroPeriodHangs(n: nat)
    ensures var s := State(0, map[0 := Timer(0, true, false)], [], [], [], [], {});
      Quiet(s) && Quiet(Arm(s, 0)) && Inv(Advance(Arm(s, 0))) && !EndsIn(Advance(Arm(s, 0)), [], n)
  {
    var s := State(0, map[0 := Timer(0, true, false)], [], [], [], [], {});
    assert Quiet(s);
    StartedZeroNeverEnds(s, 0, n);
  }

  lemma NoneDue(s: State)
    requires Inv(s) && !Expired(s)
    ensures forall a :: a in s.queue ==> s.now < Deadline(a)
  {
    forall a | a in s.queue ensures s.now < Deadline(a) {
      var j :| 0 <= j < |s.queue| && s.queue[j] == a;
      if j > 0 { assert Before(s.queue[0], s.queue[j]); }
    }
  }

  /** `rt_tick_increase`, the clock and the timers */
  ghost function Tick(s: State, script: seq<seq<Command>>): (r: State)
    requires Quiet(s) && ScriptedAll(s.timers.Keys, script)
    requires (AdvanceInv(s); Ends(Advance(s), script))
    ensures Quiet(r) && r.now == s.now + 1 && r.timers.Keys == s.timers.Keys
  {
    AdvanceInv(s);
    Check(Advance(s), script)
  }

  /** With periods of at least one tick every tick comes to an end. */
  lemma TickLively(s: State, script: seq<seq<Command>>)
    requires Quiet(s) && Lively(s) && ScriptedAll(s.timers.Keys, script) && LivelyScript(script)
    ensures Inv(Advance(s)) && Ends(Advance(s), script) && Lively(Tick(s, script))
  {
    AdvanceInv(s);
    CheckLively(Advance(s), script);
  }

  lemma AdvanceInv(s: State)
    requires Quiet(s)
    ensures Inv(Advance(s))
  {
    var s1 := Advance(s);
    forall a | a in s1.queue ensures Queued(s1, a) { assert Queued(s, a); }
    forall k | 0 <= k < |s1.armings| ensures OnTime(s1, k) { assert OnTime(s, k); }
  }

  // --------------------------------------------------------------------------------
  // Whole runs
  // --------------------------------------------------------------------------------

  /** Threads act between ticks; a tick runs the callbacks that are due. */
  datatype Event = Commands(cmds: seq<Command>) | TickOver(script: seq<seq<Command>>)

  ghost predicate ValidEvent(keys: set<nat>, e: Event) {
    match e
    case Commands(cmds) => Scripted(keys, cmds)
    case TickOver(script) => ScriptedAll(keys, script)
  }

  ghost predicate ValidEvents(keys: set<nat>, es: seq<Event>) {
    forall i :: 0 <= i < |es| ==> ValidEvent(keys, es[i])
  }

  /** The expiry loop ends, if the event is a tick. */
  ghost predicate StepEnds(s: State, e: Event)
    requires Quiet(s) && ValidEvent(s.timers.Keys, e)
  {
    e.TickOver? ==> (AdvanceInv(s); Ends(Advance(s), e.script))
  }

  ghost function Step(s: State, e: Event): (r: State)
    requires Quiet(s) && ValidEvent(s.timers.Keys, e) && StepEnds(s, e)
    ensures Quiet(r) && r.timers.Keys == s.timers.Keys && r.now == s.now + if e.TickOver? then 1 else 0
  {
    match e
    case Commands(cmds) => DoAllQuiet(s, cmds); DoAll(s, cmds)
    case TickOver(script) => Tick(s, script)
  }

  /** Every tick of the run comes to an end. */
  ghost predicate RunEnds(s: State, es: seq<Event>)
    requires Quiet(s) && ValidEvents(s.timers.Keys, es)
    decreases |es|
  {
    es == [] || (StepEnds(s, es[0]) && RunEnds(Step(s, es[0]), es[1..]))
  }

  ghost function Run(s: State, es: seq<Event>): (r: State)
    requires Quiet(s) && ValidEvents(s.timers.Keys, es) && RunEnds(s, es)
    ensures Quiet(r) && r.timers.Keys == s.timers.Keys && r.now >= s.now
    decreases |es|
  {
    if es == [] then s else Run(Step(s, es[0]), es[1..])
  }

  ghost predicate LivelyEvent(e: Event) {
    match e
    case Commands(cmds) => LivelyCommands(cmds)
    case TickOver(script) => LivelyScript(script)
  }

  /** With periods of at least one tick every run has all its ticks come to an end. */
  lemma {:induction false} LivelyRunEnds(s: State, es: seq<Event>)
    requires Quiet(s) && Lively(s) && ValidEvents(s.timers.Keys, es)
    requires forall i :: 0 <= i < |es| ==> LivelyEvent(es[i])
    ensures RunEnds(s, es)
    decreases |es|
  {
    if es != [] {
      match es[0] {
        case Commands(cmds) => DoAllLively(s, cmds);
        case TickOver(script) => TickLively(s, script);
      }
      LivelyRunEnds(Step(s, es[0]), es[1..]);
    }
  }

  /** The record only grows, what is settled stays settled, no pending arming of timer `t` has been
      cancelled, and what has fired since did so not before `from`. */
  ghost predicate Keeps(s: State, r: State, t: nat, from: nat) {
    && |s.fate| == |s.armings| <= |r.armings| == |r.fate|
    && forall k :: 0 <= k < |s.armings| ==>
         && r.armings[k] == s.armings[k]
         && (!s.fate[k].Pending? ==> r.fate[k] == s.fate[k])
         && (s.fate[k].Pending? && s.armings[k].timer == t ==> !r.fate[k].Cancelled?)
         && (s.fate[k].Pending? && r.fate[k].Fired? ==> from <= r.fate[k].at)
  }

  lemma KeepsTrans(s: State, m: State, r: State, t: nat, from: nat, later: nat)
    requires Keeps(s, m, t, from) && Keeps(m, r, t, later) && from <= later
    ensures Keeps(s, r, t, from)
  {
  }

  predicate Spares(c: Command, t: nat) {
    c.Start? || c.Stop? ==> c.t != t
  }

  /** Commands fire nothing. */
  lemma DoKeeps(s: State, c: Command, t: nat, from: nat)
    requires Inv(s) && Allowed(s, c) && Spares(c, t)
    ensures Keeps(s, Do(s, c), t, from)
  {
  }

  lemma {:induction false} DoAllKeeps(s: State, cmds: seq<Command>, t: nat, from: nat)
    requires Inv(s) && Scripted(s.timers.Keys, cmds) && forall i :: 0 <= i < |cmds| ==> Spares(cmds[i], t)
    ensures Keeps(s, DoAll(s, cmds), t, from)
    decreases |cmds|
  {
    if cmds != [] {
      DoInv(s, cmds[0]);
      DoKeeps(s, cmds[0], t, from);
      DoAllKeeps(Do(s, cmds[0]), cmds[1..], t, from);
      KeepsTrans(s, Do(s, cmds[0]), DoAll(s, cmds), t, from, from);
    }
  }

  /** Restarting a periodic timer cancels nothing: while its callback runs it is not pending. */
  lemma SettleKeeps(s: State, u: nat, t: nat, from: nat)
    requires Inv(s) && u in s.timers
    ensures Keeps(s, Settle(s, u), t, from)
  {
    if u in s.held {
      forall k | 0 <= k < |s.armings| && s.fate[k].Pending? ensures s.armings[k].timer != u {
        assert OnTime(s, k) && Queued(s, s.armings[k]);
      }
    }
  }

  lemma RoundKeeps(s: State, cmds: seq<Command>, t: nat)
    requires Inv(s) && Expired(s) && Scripted(s.timers.Keys, cmds)
    requires forall i :: 0 <= i < |cmds| ==> Spares(cmds[i], t)
    ensures Keeps(s, Round(s, cmds), t, s.now)
  {
    FireInv(s);
    var s1 := Fire(s);
    var s2 := DoAll(s1, cmds);
    DoAllKeeps(s1, cmds, t, s.now);
    SettleKeeps(s2, s.queue[0].timer, t, s.now);
    KeepsTrans(s, s1, s2, t, s.now, s.now);
    KeepsTrans(s, s2, Settle(s2, s.queue[0].timer), t, s.now, s.now);
  }

  ghost predicate SparesAll(script: seq<seq<Command>>, t: nat) {
    forall i, j :: 0 <= i < |script| && 0 <= j < |script[i]| ==> Spares(script[i][j], t)
  }

  lemma {:induction false} CheckKeeps(s: State, script: seq<seq<Command>>, t: nat)
    requires Inv(s) && s.held == {} && ScriptedAll(s.timers.Keys, script) && Ends(s, script) && SparesAll(script, t)
    ensures Keeps(s, Check(s, script), t, s.now)
    decreases Rounds(s, script)
  {
    if Expired(s) {
      RoundKeeps(s, Script(script), t);
      CheckRound(s, script);
      var r := Round(s, Script(script));
      CheckKeeps(r, Later(script), t);
      KeepsTrans(s, r, Check(s, script), t, s.now, s.now);
    }
  }

  ghost predicate EventSpares(e: Event, t: nat) {
    match e
    case Commands(cmds) => forall i :: 0 <= i < |cmds| ==> Spares(cmds[i], t)
    case TickOver(script) => SparesAll(script, t)
  }

  lemma StepKeeps(s: State, e: Event, t: nat)
    requires Quiet(s) && ValidEvent(s.timers.Keys, e) && StepEnds(s, e) && EventSpares(e, t)
    ensures Keeps(s, Step(s, e), t, s.now + 1)
  {
    match e
    case Commands(cmds) => DoAllKeeps(s, cmds, t, s.now + 1);
    case TickOver(script) => TickKeeps(s, script, t);
  }

  lemma TickKeeps(s: State, script: seq<seq<Command>>, t: nat)
    requires Quiet(s) && ScriptedAll(s.timers.Keys, script) && SparesAll(script, t)
    requires (AdvanceInv(s); Ends(Advance(s), script))
    ensures Keeps(s, Tick(s, script), t, s.now + 1)
  {
    AdvanceInv(s);
    var s1 := Advance(s);
    var r := Checked(s1, script, t);
    assert r == Tick(s, script);
    SameRecord(s, s1, r, t, s.now + 1);
  }

  lemma Checked(s: State, script: seq<seq<Command>>, t: nat) returns (r: State)
    requires Inv(s) && s.held == {} && ScriptedAll(s.timers.Keys, script) && Ends(s, script) && SparesAll(script, t)
    ensures r == Check(s, script) && Keeps(s, r, t, s.now)
  {
    CheckKeeps(s, script, t);
    r := Check(s, script);
  }

  lemma SameRecord(s: State, m: State, r: State, t: nat, from: nat)
    requires m.armings == s.armings && m.fate == s.fate && Keeps(m, r, t, from)
    ensures Keeps(s, r, t, from)
  {
  }

  lemma {:induction false} RunKeeps(s: State, es: seq<Event>, t: nat)
    requires Quiet(s) && ValidEvents(s.timers.Keys, es) && RunEnds(s, es)
    requires forall i :: 0 <= i < |es| ==> EventSpares(es[i], t)
    ensures Keeps(s, Run(s, es), t, s.now + 1)
    decreases |es|
  {
    if es != [] {
      StepKeeps(s, es[0], t);
      RunKeeps(Step(s, es[0]), es[1..], t);
      KeepsTrans(s, Step(s, es[0]), Run(s, es), t, s.now + 1, Step(s, es[0]).now + 1);
    }
  }

  /** When a pending arming has to fire: at its start plus its delay, and with no delay at the
      next tick. */
  function DueAt(a: Arming): nat {
    Deadline(a) + if a.delay == 0 then 1 else 0
  }

  /** A pending timer that nobody starts or stops again fires exactly when it is due: it is still
      pending before that, and has fired at that very tick afterwards. */
  lemma FiresExactlyOnTime(s: State, es: seq<Event>, k: nat)
    requires Quiet(s) && ValidEvents(s.timers.Keys, es) && RunEnds(s, es) && k < |s.armings| && s.fate[k].Pending?
    requires forall i :: 0 <= i < |es| ==> EventSpares(es[i], s.armings[k].timer)
    ensures k < |Run(s, es).fate|
    ensures Run(s, es).now < DueAt(s.armings[k]) <==> Run(s, es).fate[k] == Pending
    ensures Run(s, es).now >= DueAt(s.armings[k]) <==> Run(s, es).fate[k] == Fired(DueAt(s.armings[k]))
  {
    RunKeeps(s, es, s.armings[k].timer);
    var r := Run(s, es);
    assert OnTime(s, k) && s.armings[k] in s.queue;
    assert OnTime(r, k);
    if r.fate[k].Pending? { assert r.armings[k] in r.queue; }
  }

  /** Never early, in order: in every reachable state the firings are on record on time, and they
      happened by deadline with ties in starting order. */
  lemma FiringsInOrder(s: State, es: seq<Event>)
    requires Quiet(s) && ValidEvents(s.timers.Keys, es) && RunEnds(s, es)
    ensures Sorted(Run(s, es).order)
    ensures forall k :: 0 <= k < |Run(s, es).armings| && Run(s, es).fate[k].Fired? ==>
      FiredOnTime(Run(s, es).armings[k], Run(s, es).fate[k].at) && Run(s, es).armings[k] in Run(s, es).order
  {
    var r := Run(s, es);
    forall k | 0 <= k < |r.armings| && r.fate[k].Fired?
      ensures FiredOnTime(r.armings[k], r.fate[k].at) && r.armings[k] in r.order
    {
      assert OnTime(r, k);
    }
  }
}
