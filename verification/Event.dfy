/** Event flags of ipc.c: sending sets bits and resumes, in list order, the threads whose
    condition is met; receiving takes bits at once or suspends.  A word of flags is the set of
    its one bits, so `|`, `&` and `&~` are union, intersection and difference.
 */
module EventSpec {

  type Flags = set<nat>

  /** `RT_EVENT_FLAG_AND`, `RT_EVENT_FLAG_OR` and `RT_EVENT_FLAG_CLEAR` */
  datatype Mode = Mode(all: bool, any: bool, clear: bool)

  /** A thread with its `event_set` and `event_info`. */
  datatype Waiter = Waiter(t: nat, want: Flags, mode: Mode)

  datatype State = State(flags: Flags, waiters: seq<Waiter>)

  /** The condition of a receive: all of its bits, or any of them. */
  predicate Met(flags: Flags, w: Waiter) {
    if w.mode.all then flags * w.want == w.want else flags * w.want != {}
  }

  /** What an immediate receive leaves. */
  function After(flags: Flags, w: Waiter): Flags {
    if w.mode.clear then flags - w.want else flags
  }

  datatype Outcome = Outcome(flags: Flags, left: seq<Waiter>, served: seq<(nat, Flags)>)

  /** A non-blocking receive for each of `ws` in order: who is served gets the bits it asked for
      that are set, and clears what it asked for if it said so. */
  function Serve(flags: Flags, ws: seq<Waiter>): Outcome {
    if ws == [] then Outcome(flags, [], [])
    else if Met(flags, ws[0]) then
      var o := Serve(After(flags, ws[0]), ws[1..]);
      o.(served := [(ws[0].t, flags * ws[0].want)] + o.served)
    else
      var o := Serve(flags, ws[1..]);
      o.(left := [ws[0]] + o.left)
  }

  datatype Step =
    | Send(bits: Flags)
    | Recv(w: Waiter, mayWait: bool, pos: nat)
    | Timeout(t: nat)
    | Reset

  /** A receive says whether it wants all or any of its bits. */
  ghost predicate Allowed(s: State, step: Step) {
    step.Recv? ==> (step.w.mode.all || step.w.mode.any) && step.pos <= |s.waiters|
  }

  function Do(s: State, step: Step): State
    requires Allowed(s, step)
  {
    match step
    case Send(bits) =>
      if bits == {} then s
      else
        var o := Serve(s.flags + bits, s.waiters);
        State(o.flags, o.left)
    case Recv(w, mayWait, pos) =>
      if w.want == {} then s
      else if Met(s.flags, w) then s.(flags := After(s.flags, w))
      else if mayWait then s.(waiters := s.waiters[..pos] + [w] + s.waiters[pos..])
      else s
    case Timeout(t) => s.(waiters := Dropped(s.waiters, t))
    case Reset => State({}, [])
  }

  function Dropped(ws: seq<Waiter>, t: nat): (r: seq<Waiter>)
    ensures forall w :: w in r <==> w in ws && w.t != t
  {
    if ws == [] then [] else if ws[0].t == t then Dropped(ws[1..], t) else [ws[0]] + Dropped(ws[1..], t)
  }

  /** No thread sleeps through what it waits for. */
  ghost predicate Inv(s: State) {
    forall w :: w in s.waiters ==> !Met(s.flags, w) && (w.mode.all || w.mode.any) && w.want != {}
  }

  /** Fewer bits satisfy nobody who was not satisfied before. */
  lemma FewerFlags(flags: Flags, fewer: Flags, w: Waiter)
    requires !Met(flags, w) && fewer <= flags
    ensures !Met(fewer, w)
  {
    if fewer * w.want == w.want { assert flags * w.want == w.want; }
    assert fewer * w.want <= flags * w.want;
  }

  /** Whoever is still waiting after a send is not satisfied by what is left. */
  lemma {:induction false} ServeInv(flags: Flags, ws: seq<Waiter>)
    ensures Serve(flags, ws).flags <= flags
    ensures forall w :: w in Serve(flags, ws).left ==> w in ws && !Met(Serve(flags, ws).flags, w)
  {
    if ws != [] {
      ServeInv(After(flags, ws[0]), ws[1..]);
      ServeInv(flags, ws[1..]);
      if !Met(flags, ws[0]) { FewerFlags(flags, Serve(flags, ws).flags, ws[0]); }
    }
  }

  lemma StepInv(s: State, step: Step)
    requires Inv(s) && Allowed(s, step)
    ensures Inv(Do(s, step))
  {
    match step
    case Send(bits) => ServeInv(s.flags + bits, s.waiters);
    case Recv(w, mayWait, pos) =>
      assert s.waiters == s.waiters[..pos] + s.waiters[pos..];
      forall v | v in s.waiters ensures !Met(After(s.flags, w), v) { FewerFlags(s.flags, After(s.flags, w), v); }
    case Timeout(t) =>
    case Reset =>
  }

  ghost predicate AllowedRun(s: State, steps: seq<Step>)
    decreases |steps|
  {
    steps == [] || (Allowed(s, steps[0]) && AllowedRun(Do(s, steps[0]), steps[1..]))
  }

  ghost function Run(s: State, steps: seq<Step>): State
    requires AllowedRun(s, steps)
    decreases |steps|
  {
    if steps == [] then s else Run(Do(s, steps[0]), steps[1..])
  }

  /** In every reachable state no suspended thread is satisfied by the current flags. */
  lemma {:induction false} NobodySleepsThrough(s: State, steps: seq<Step>)
    requires Inv(s) && AllowedRun(s, steps)
    ensures Inv(Run(s, steps))
    decreases |steps|
  {
    if steps != [] {
      StepInv(s, steps[0]);
      NobodySleepsThrough(Do(s, steps[0]), steps[1..]);
    }
  }

  // --------------------------------------------------------------------------------
  // What each step does
  // --------------------------------------------------------------------------------

  /** A receive whose condition is met clears what it asked for, if it said so, and nothing else; one
      that is not met changes nothing, or adds the thread to the list at its place. */
  lemma RecvDoes(s: State, w: Waiter, mayWait: bool, pos: nat)
    requires Allowed(s, Recv(w, mayWait, pos)) && w.want != {}
    ensures var r := Do(s, Recv(w, mayWait, pos));
      && (Met(s.flags, w) ==> r.waiters == s.waiters && forall f :: f in r.flags <==>
            f in s.flags && !(w.mode.clear && f in w.want))
      && (!Met(s.flags, w) ==> r.flags == s.flags)
      && (!Met(s.flags, w) && !mayWait ==> r.waiters == s.waiters)
      && (!Met(s.flags, w) && mayWait ==>
          |r.waiters| == |s.waiters| + 1 && r.waiters[pos] == w
          && r.waiters[..pos] == s.waiters[..pos] && r.waiters[pos + 1..] == s.waiters[pos..])
  {
  }

  /** Bits that were cleared are not received again: the same receive without waiting is refused. */
  lemma ReceivedOnce(s: State, w: Waiter)
    requires Allowed(s, Recv(w, false, 0)) && w.want != {} && Met(s.flags, w) && w.mode.clear
    ensures !Met(Do(s, Recv(w, false, 0)).flags, w)
    ensures Do(Do(s, Recv(w, false, 0)), Recv(w, false, 0)) == Do(s, Recv(w, false, 0))
  {
    var r := Do(s, Recv(w, false, 0));
    assert r.flags * w.want == {};
  }

  lemma {:induction false} DroppedOrder(ws: seq<Waiter>, vs: seq<Waiter>, t: nat)
    ensures Dropped(ws + vs, t) == Dropped(ws, t) + Dropped(vs, t)
  {
    if ws == [] {
      assert ws + vs == vs;
    } else {
      assert (ws + vs)[1..] == ws[1..] + vs;
      DroppedOrder(ws[1..], vs, t);
    }
  }

  /** A waiter whose time is up leaves the list; the others keep their order, and the flags stay. */
  lemma TimeoutDoes(s: State, k: nat)
    requires k < |s.waiters| && forall j :: 0 <= j < |s.waiters| && j != k ==> s.waiters[j].t != s.waiters[k].t
    ensures Do(s, Timeout(s.waiters[k].t)) == State(s.flags, s.waiters[..k] + s.waiters[k + 1..])
  {
    var t := s.waiters[k].t;
    assert s.waiters == s.waiters[..k] + ([s.waiters[k]] + s.waiters[k + 1..]);
    DroppedOrder(s.waiters[..k], [s.waiters[k]] + s.waiters[k + 1..], t);
    DroppedOrder([s.waiters[k]], s.waiters[k + 1..], t);
    DroppedNone(s.waiters[..k], t);
    DroppedNone(s.waiters[k + 1..], t);
    assert Dropped([s.waiters[k]], t) == [];
  }

  lemma {:induction false} DroppedNone(ws: seq<Waiter>, t: nat)
    requires forall w :: w in ws ==> w.t != t
    ensures Dropped(ws, t) == ws
  {
    if ws != [] { DroppedNone(ws[1..], t); }
  }

  /** A non-blocking receive for each thread, in order */
  function Receives(ws: seq<Waiter>): seq<Step> {
    if ws == [] then [] else [Recv(ws[0], false, 0)] + Receives(ws[1..])
  }

  /** Those for whom that receive is refused, */
  ghost function Refused(s: State, ws: seq<Waiter>): seq<Waiter>
    requires AllowedRun(s, Receives(ws))
    decreases |ws|
  {
    if ws == [] then []
    else
      assert Receives(ws)[1..] == Receives(ws[1..]);
      (if Met(s.flags, ws[0]) then [] else [ws[0]]) + Refused(Do(s, Recv(ws[0], false, 0)), ws[1..])
  }

  /** and what the others receive. */
  ghost function Received(s: State, ws: seq<Waiter>): seq<(nat, Flags)>
    requires AllowedRun(s, Receives(ws))
    decreases |ws|
  {
    if ws == [] then []
    else
      assert Receives(ws)[1..] == Receives(ws[1..]);
      (if Met(s.flags, ws[0]) then [(ws[0].t, s.flags * ws[0].want)] else [])
      + Received(Do(s, Recv(ws[0], false, 0)), ws[1..])
  }

  lemma {:induction false} ServeIsReceives(s: State, ws: seq<Waiter>)
    requires forall w :: w in ws ==> (w.mode.all || w.mode.any) && w.want != {}
    ensures AllowedRun(s, Receives(ws))
    ensures Serve(s.flags, ws) == Outcome(Run(s, Receives(ws)).flags, Refused(s, ws), Received(s, ws))
    ensures Run(s, Receives(ws)).waiters == s.waiters
    decreases |ws|
  {
    if ws != [] {
      assert ws[0] in ws && forall w :: w in ws[1..] ==> w in ws;
      assert Receives(ws)[0] == Recv(ws[0], false, 0) && Receives(ws)[1..] == Receives(ws[1..]);
      ServeIsReceives(Do(s, Recv(ws[0], false, 0)), ws[1..]);
    }
  }

  /** A send sets its bits and then serves the waiters as if each of them, in the order of the list,
      received without waiting: the flags are those that this run reaches, those who are refused stay,
      and the others get what they would have received. */
  lemma SendIsReceives(s: State, bits: Flags)
    requires Inv(s) && bits != {}
    ensures var m := s.(flags := s.flags + bits);
      && AllowedRun(m, Receives(s.waiters))
      && Do(s, Send(bits)) == State(Run(m, Receives(s.waiters)).flags, Refused(m, s.waiters))
      && Serve(m.flags, s.waiters).served == Received(m, s.waiters)
  {
    ServeIsReceives(s.(flags := s.flags + bits), s.waiters);
  }
}

module Event {
  import E = EventSpec

  datatype Status = Ok | Error | Invalid | TimedOut | Suspended

  class EventObject {
    var bits: E.Flags
    /** The suspend list, with `event_set` and `event_info` of each thread */
    var suspended: seq<E.Waiter>

    ghost function Abs(): E.State
      reads this
    {
      E.State(bits, suspended)
    }

    constructor ()
      ensures Abs() == E.State({}, [])
    {
      bits, suspended := {}, [];
    }

    /** `rt_event_send`: each resumed thread finds in its `event_set` exactly what an immediate
        receive would have given it, and as much is cleared; `woken` lists them. */
    method Send(add: E.Flags) returns (r: Status, woken: seq<(nat, E.Flags)>)
      requires E.Inv(Abs())
      modifies this
      ensures Abs() == E.Do(old(Abs()), E.Send(add)) && E.Inv(Abs())
      ensures r == if add == {} then Error else Ok
      ensures woken == if add == {} then [] else E.Serve(old(bits) + add, old(suspended)).served
    {
      woken := [];
      if add == {} {
        return Error, [];
      }
      E.StepInv(Abs(), E.Send(add));
      bits := bits + add;
      var n := 0;
      ghost var whole := E.Serve(bits, suspended);
      while n < |suspended|
        invariant Progress(whole, bits, suspended, n, woken)
        invariant forall w :: w in suspended ==> w in old(suspended)
        decreases |suspended| - n
      {
        var thread := suspended[n];
        assert thread in old(suspended);
        var status, eventSet := false, thread.want;
        if thread.mode.all {
          status := eventSet * bits == eventSet;
        } else if thread.mode.any {
          if eventSet * bits != {} {
            eventSet := eventSet * bits;
            status := true;
          }
        } else {
          return Invalid, [];
        }
        Visit(whole, bits, suspended, n, woken, eventSet);
        if status {
          if thread.mode.clear {
            bits := bits - eventSet;
          }
          suspended := suspended[..n] + suspended[n + 1..];
          woken := woken + [(thread.t, eventSet)];
        } else {
          n := n + 1;
        }
      }
      r := Ok;
    }

    /** `rt_event_control(RT_IPC_CMD_RESET)` */
    method Reset()
      modifies this
      ensures Abs() == E.Do(old(Abs()), E.Reset) && E.Inv(Abs())
    {
      suspended := [];
      bits := {};
    }

    /** `rt_thread_timeout` of a thread that waits here */
    method Timeout(t: nat)
      requires E.Inv(Abs())
      modifies this`suspended
      ensures Abs() == E.Do(old(Abs()), E.Timeout(t)) && E.Inv(Abs())
    {
      E.StepInv(Abs(), E.Timeout(t));
      suspended := E.Dropped(suspended, t);
    }

    /** `rt_event_recv` up to the point where it returns or is suspended */
    method Recv(w: E.Waiter, mayWait: bool, pos: nat) returns (r: Status, received: E.Flags)
      requires E.Inv(Abs()) && E.Allowed(Abs(), E.Recv(w, mayWait, pos))
      modifies this
      ensures Abs() == E.Do(old(Abs()), E.Recv(w, mayWait, pos)) && E.Inv(Abs())
      ensures r.Ok? <==> w.want != {} && E.Met(old(bits), w)
      ensures r.Ok? ==> received == old(bits) * w.want
      ensures r.Suspended? ==> w in suspended
    {
      received := {};
      if w.want == {} {
        return Error, {};
      }
      E.StepInv(Abs(), E.Recv(w, mayWait, pos));
      var status := false;
      if w.mode.all {
        status := bits * w.want == w.want;
      } else if w.mode.any {
        status := bits * w.want != {};
      }
      if status {
        received := bits * w.want;
        if w.mode.clear {
          bits := bits - w.want;
        }
        r := Ok;
      } else if !mayWait {
        r := TimedOut;
      } else {
        suspended := suspended[..pos] + [w] + suspended[pos..];
        r := Suspended;
      }
    }
  }

  /** What is done so far and what serving the rest of the list will do make up the whole. */
  ghost predicate Progress(whole: E.Outcome, bits: E.Flags, list: seq<E.Waiter>, n: nat, woken: seq<(nat, E.Flags)>) {
    n <= |list| &&
    var o := E.Serve(bits, list[n..]);
    whole == E.Outcome(o.flags, list[..n] + o.left, woken + o.served)
  }

  /** One round of the send loop; clearing what was received, rather than what was asked for,
      comes to the same. */
  lemma Visit(
    whole: E.Outcome, bits: E.Flags, list: seq<E.Waiter>, n: nat, woken: seq<(nat, E.Flags)>, eventSet: E.Flags)
    requires n < |list| && Progress(whole, bits, list, n, woken)
    requires E.Met(bits, list[n]) ==> eventSet == if list[n].mode.all then list[n].want else list[n].want * bits
    ensures E.Met(bits, list[n]) ==>
      Progress(whole, if list[n].mode.clear then bits - eventSet else bits, list[..n] + list[n + 1..], n,
               woken + [(list[n].t, eventSet)])
    ensures !E.Met(bits, list[n]) ==> Progress(whole, bits, list, n + 1, woken)
    ensures forall w :: w in list[..n] + list[n + 1..] ==> w in list
  {
    var w := list[n];
    assert list[n..][0] == w && list[n..][1..] == list[n + 1..];
    if E.Met(bits, w) {
      var l := list[..n] + list[n + 1..];
      assert l[..n] == list[..n] && l[n..] == list[n + 1..];
      assert eventSet == bits * w.want && bits - eventSet == bits - w.want;
    } else {
      assert list[..n] + [w] == list[..n + 1];
    }
  }
}
