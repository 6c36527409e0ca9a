/** What the commands of timer.c do to the timer they name, to the others and to the record, and
    what a stop means for the rest of a run.
 */
module TimerEffects {
  import opened TimerSpec

  // --------------------------------------------------------------------------------
  // Single commands
  // --------------------------------------------------------------------------------

  /** All timers but `t` are as they were. */
  ghost predicate OthersAlike(s: State, r: State, t: nat) {
    r.timers.Keys == s.timers.Keys && forall u :: u in s.timers && u != t ==> r.timers[u] == s.timers[u]
  }

  /** The record is that of `s`, with the pending armings of `t` cancelled. */
  ghost predicate CancelledOnly(s: State, r: State, t: nat) {
    && |s.fate| == |s.armings| <= |r.armings| == |r.fate|
    && forall k :: 0 <= k < |s.armings| ==>
         && r.armings[k] == s.armings[k]
         && r.fate[k] == if s.fate[k].Pending? && s.armings[k].timer == t then Cancelled else s.fate[k]
  }

  /** Stopping an active timer takes it off the queue and, in its own callback, out of the expiry
      loop; it becomes inactive, its pending arming is cancelled, and nothing else changes. */
  lemma StopCancels(s: State, t: nat)
    requires Inv(s) && t in s.timers && s.timers[t].active
    ensures var r := Do(s, Stop(t));
      && r.timers[t] == s.timers[t].(active := false) && OthersAlike(s, r, t)
      && CancelledOnly(s, r, t) && r.armings == s.armings
      && (forall a :: a in r.queue <==> a in s.queue && a.timer != t)
      && r.now == s.now && r.order == s.order && r.held == s.held - {t}
  {
  }

  /** A timer that is not active is in no list, and stopping it is refused. */
  lemma StopRefused(s: State, t: nat)
    requires Inv(s) && t in s.timers && !s.timers[t].active
    ensures Do(s, Stop(t)) == s && forall a :: a in s.queue ==> a.timer != t
  {
    forall a | a in s.queue ensures a.timer != t { assert Queued(s, a); }
  }

  /** Starting a timer makes it active with one arming, for its period from now; an earlier one that
      is still pending is cancelled. */
  lemma StartArms(s: State, t: nat)
    requires Inv(s) && t in s.timers
    ensures var r, a := Do(s, Start(t)), Arming(|s.armings|, t, s.now, s.timers[t].period);
      && r.timers[t] == s.timers[t].(active := true) && OthersAlike(s, r, t)
      && CancelledOnly(s, r, t) && r.armings == s.armings + [a] && r.fate[a.id] == Pending
      && (forall b :: b in r.queue <==> b == a || (b in s.queue && b.timer != t))
      && r.now == s.now && r.order == s.order && r.held == s.held - {t}
  {
    var a := Arming(|s.armings|, t, s.now, s.timers[t].period);
    var q := Unqueue(s, t).queue;
    InsertMembers(q, a, Place(q, Deadline(a)));
  }

  /** Setting time or mode changes that field only, and what is queued stays due as it was. */
  lemma SettingSets(s: State, t: nat, ticks: nat, periodic: bool)
    requires Inv(s) && t in s.timers
    ensures var r := Do(s, SetTime(t, ticks));
      && r.timers[t] == s.timers[t].(period := ticks) && OthersAlike(s, r, t)
      && r.queue == s.queue && r.fate == s.fate && r.armings == s.armings && r.order == s.order
      && r.held == s.held && r.now == s.now
    ensures var r := Do(s, SetMode(t, periodic));
      && r.timers[t] == s.timers[t].(periodic := periodic) && OthersAlike(s, r, t)
      && r.queue == s.queue && r.fate == s.fate && r.armings == s.armings && r.order == s.order
      && r.held == s.held && r.now == s.now
  {
  }

  /** A round whose callback does nothing fires the first timer and no other; afterwards the timer is
      active, with one more arming, exactly if it is periodic. */
  lemma IdleRoundFires(s: State)
    requires Inv(s) && Expired(s) && s.held == {}
    ensures var a, r := s.queue[0], Round(s, []);
      && Queued(s, a) && r.fate[a.id] == Fired(s.now) && r.order == s.order + [a]
      && r.timers[a.timer] == s.timers[a.timer].(active := s.timers[a.timer].periodic)
      && OthersAlike(s, r, a.timer)
      && |r.armings| == |s.armings| + (if s.timers[a.timer].periodic then 1 else 0)
      && forall k :: 0 <= k < |s.fate| && k != a.id ==> r.fate[k] == s.fate[k]
  {
    FireInv(s);
    var a, s1 := s.queue[0], Fire(s);
    assert DoAll(s1, []) == s1;
    SettleInv(s1, a.timer);
    forall k | 0 <= k < |s1.fate| && s1.fate[k].Pending? ensures s1.armings[k].timer != a.timer {
      assert OnTime(s1, k) && Queued(s1, s1.armings[k]);
    }
  }

  /** If the callback of a timer stops it, the expiry loop does not start it again. */
  lemma StoppedInCallback(s: State, t: nat)
    requires Inv(s) && t in s.timers && s.timers[t].active
    ensures Settle(Do(s, Stop(t)), t) == Do(s, Stop(t))
  {
  }

  // --------------------------------------------------------------------------------
  // The rest of a run
  // --------------------------------------------------------------------------------

  /** Timer `t` is inactive and in no list. */
  ghost predicate Silent(s: State, t: nat) {
    && t in s.timers && !s.timers[t].active && t !in s.held
    && forall a :: a in s.queue ==> a.timer != t
  }

  predicate NoStart(c: Command, t: nat) {
    c.Start? ==> c.t != t
  }

  /** What was settled is as it was, and `t`, if it was silent, still is and has not fired since. */
  ghost predicate StaysSilent(s: State, r: State, t: nat) {
    && |s.fate| == |s.armings| <= |r.armings| == |r.fate|
    && (forall k :: 0 <= k < |s.armings| ==>
          r.armings[k] == s.armings[k] && (!s.fate[k].Pending? ==> r.fate[k] == s.fate[k]))
    && (Silent(s, t) ==> Silent(r, t) && forall a :: a in r.order && a.timer == t ==> a in s.order)
  }

  lemma SilentTrans(s: State, m: State, r: State, t: nat)
    requires StaysSilent(s, m, t) && StaysSilent(m, r, t)
    ensures StaysSilent(s, r, t)
  {
  }

  lemma DoSilent(s: State, c: Command, t: nat)
    requires Inv(s) && Allowed(s, c) && NoStart(c, t)
    ensures StaysSilent(s, Do(s, c), t)
  {
    match c
    case Start(u) => StartArms(s, u);
    case Stop(u) => if s.timers[u].active { StopCancels(s, u); }
    case SetTime(u, ticks) =>
    case SetMode(u, periodic) =>
  }

  lemma {:induction false} DoAllSilent(s: State, cmds: seq<Command>, t: nat)
    requires Inv(s) && Scripted(s.timers.Keys, cmds) && forall i :: 0 <= i < |cmds| ==> NoStart(cmds[i], t)
    ensures StaysSilent(s, DoAll(s, cmds), t)
    decreases |cmds|
  {
    if cmds != [] {
      DoInv(s, cmds[0]);
      DoSilent(s, cmds[0], t);
      DoAllSilent(Do(s, cmds[0]), cmds[1..], t);
      SilentTrans(s, Do(s, cmds[0]), DoAll(s, cmds), t);
    }
  }

  lemma FireSilent(s: State, t: nat)
    requires Inv(s) && Expired(s) && s.held == {}
    ensures Queued(s, s.queue[0]) && StaysSilent(s, Fire(s), t)
    ensures Silent(s, t) ==> s.queue[0].timer != t
  {
    FireInv(s);
    assert s.queue[0] in s.queue;
    assert forall a :: a in Fire(s).queue ==> a in s.queue;
  }

  lemma SettleSilent(s: State, u: nat, t: nat)
    requires Inv(s) && u in s.timers && s.held <= {u}
    ensures StaysSilent(s, Settle(s, u), t)
  {
    if u in s.held && s.timers[u].periodic && s.timers[u].active {
      SettleInv(s, u);
      var a := Arming(|s.armings|, u, s.now, s.timers[u].period);
      var q := Drop(s.queue, u);
      InsertMembers(q, a, Place(q, Deadline(a)));
    }
  }

  lemma RoundSilent(s: State, cmds: seq<Command>, t: nat)
    requires Inv(s) && Expired(s) && s.held == {} && Scripted(s.timers.Keys, cmds)
    requires forall i :: 0 <= i < |cmds| ==> NoStart(cmds[i], t)
    ensures StaysSilent(s, Round(s, cmds), t)
  {
    FireInv(s);
    FireSilent(s, t);
    var u, s1 := s.queue[0].timer, Fire(s);
    var s2 := DoAll(s1, cmds);
    DoAllSilent(s1, cmds, t);
    SettleSilent(s2, u, t);
    SilentTrans(s, s1, s2, t);
    SilentTrans(s, s2, Settle(s2, u), t);
  }

  ghost predicate NoStartIn(script: seq<seq<Command>>, t: nat) {
    forall i, j :: 0 <= i < |script| && 0 <= j < |script[i]| ==> NoStart(script[i][j], t)
  }

  lemma {:induction false} CheckSilent(s: State, script: seq<seq<Command>>, t: nat)
    requires Inv(s) && s.held == {} && ScriptedAll(s.timers.Keys, script) && Ends(s, script) && NoStartIn(script, t)
    ensures StaysSilent(s, Check(s, script), t)
    decreases Rounds(s, script)
  {
    if Expired(s) {
      RoundSilent(s, Script(script), t);
      CheckRound(s, script);
      var r := Round(s, Script(script));
      CheckSilent(r, Later(script), t);
      SilentTrans(s, r, Check(s, script), t);
    }
  }

  /** Neither a thread nor a callback starts timer `t`. */
  ghost predicate NoStartAt(e: Event, t: nat) {
    match e
    case Commands(cmds) => forall i :: 0 <= i < |cmds| ==> NoStart(cmds[i], t)
    case TickOver(script) => NoStartIn(script, t)
  }

  lemma StepSilent(s: State, e: Event, t: nat)
    requires Quiet(s) && ValidEvent(s.timers.Keys, e) && StepEnds(s, e) && NoStartAt(e, t)
    ensures StaysSilent(s, Step(s, e), t)
  {
    match e
    case Commands(cmds) => DoAllSilent(s, cmds, t);
    case TickOver(script) =>
      AdvanceInv(s);
      CheckSilent(Advance(s), script, t);
      SilentTrans(s, Advance(s), Step(s, e), t);
  }

  lemma {:induction false} RunSilent(s: State, es: seq<Event>, t: nat)
    requires Quiet(s) && ValidEvents(s.timers.Keys, es) && RunEnds(s, es)
    requires forall i :: 0 <= i < |es| ==> NoStartAt(es[i], t)
    ensures StaysSilent(s, Run(s, es), t)
    decreases |es|
  {
    if es != [] {
      StepSilent(s, es[0], t);
      RunSilent(Step(s, es[0]), es[1..], t);
      SilentTrans(s, Step(s, es[0]), Run(s, es), t);
    }
  }

  /** After a stop of an active timer, over every run in which nobody starts it again: what was
      pending is cancelled for good, the timer stays inactive, and none of its armings fires. */
  lemma StoppedNeverFires(s: State, t: nat, es: seq<Event>)
    requires Quiet(s) && t in s.timers && s.timers[t].active
    requires ValidEvents(s.timers.Keys, es) && forall i :: 0 <= i < |es| ==> NoStartAt(es[i], t)
    ensures Quiet(Do(s, Stop(t))) && Do(s, Stop(t)).timers.Keys == s.timers.Keys
    ensures RunEnds(Do(s, Stop(t)), es) ==>
      var r := Run(Do(s, Stop(t)), es);
      && Silent(r, t) && |s.armings| <= |r.fate|
      && (forall k :: 0 <= k < |s.armings| && s.fate[k].Pending? && s.armings[k].timer == t ==>
            r.fate[k] == Cancelled && s.armings[k] !in r.order)
      && forall a :: a in r.order && a.timer == t ==> a in s.order
  {
    StopCancels(s, t);
    DoInv(s, Stop(t));
    var m := Do(s, Stop(t));
    if RunEnds(m, es) {
      RunSilent(m, es, t);
      CancelledNotFired(Run(m, es));
    }
  }

  /** An arming that is on record as cancelled is not among those that fired. */
  lemma CancelledNotFired(s: State)
    requires Inv(s)
    ensures forall k :: 0 <= k < |s.fate| && s.fate[k].Cancelled? ==> s.armings[k] !in s.order
  {
    forall k | 0 <= k < |s.fate| && s.fate[k].Cancelled? ensures s.armings[k] !in s.order {
      assert OnTime(s, k);
    }
  }
}
