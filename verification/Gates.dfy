/** The waiting side of a mailbox, message queue or memory pool.  A thread that finds nothing
    suspends; who makes something available wakes the first waiter; the woken thread checks
    again when it runs, and others may have been quicker.
 */
module Gates {
  import opened Lists

  /** `waiters` is the suspend list; `woken` are the threads resumed without an error that have
      not yet checked again. */
  datatype Gate = Gate(waiters: seq<nat>, woken: set<nat>)

  ghost predicate Sound(g: Gate) {
    Distinct(g.waiters) && forall t :: t in g.waiters ==> t !in g.woken
  }

  /** While someone waits, there is at most as much to be had as threads on their way to it. */
  ghost predicate NoLostWakeup(g: Gate, available: nat) {
    g.waiters != [] ==> available <= |g.woken|
  }

  ghost predicate Good(g: Gate, available: nat) {
    Sound(g) && NoLostWakeup(g, available)
  }

  /** `t` found what it wanted, or gave up: it is no longer on its way. */
  function Leave(g: Gate, t: nat): Gate {
    g.(woken := g.woken - {t})
  }

  /** `t` suspends at position `pos` of the list. */
  function Join(g: Gate, t: nat, pos: nat): Gate
    requires pos <= |g.waiters|
  {
    Gate(g.waiters[..pos] + [t] + g.waiters[pos..], g.woken - {t})
  }

  /** `_ipc_list_resume`, if there is anyone to resume */
  function WakeFirst(g: Gate): Gate {
    if g.waiters == [] then g else Gate(g.waiters[1..], g.woken + {g.waiters[0]})
  }

  /** The timer of a waiting thread has run out. */
  function Expire(g: Gate, t: nat): Gate {
    g.(waiters := Without(g.waiters, t))
  }

  /** `_ipc_list_resume_all`: all waiters leave with an error and do not check again. */
  function Flush(g: Gate): Gate {
    g.(waiters := [])
  }

  /** Taking one thing, as a woken thread or as one that never waited. */
  lemma TakeKeeps(g: Gate, available: nat, t: nat)
    requires Good(g, available) && available > 0
    ensures Good(Leave(g, t), available - 1)
  {
    assert t in g.woken ==> g.woken == (g.woken - {t}) + {t};
    assert t !in g.woken ==> g.woken == g.woken - {t};
  }

  lemma GiveUpKeeps(g: Gate, t: nat)
    requires Sound(g)
    ensures Good(Leave(g, t), 0)
  {
  }

  lemma JoinKeeps(g: Gate, t: nat, pos: nat)
    requires Sound(g) && t !in g.waiters && pos <= |g.waiters|
    ensures Good(Join(g, t, pos), 0)
  {
    DistinctInsert(g.waiters, pos, t);
  }

  /** One thing more, and one thread more on its way if anybody waits. */
  lemma GiveKeeps(g: Gate, available: nat)
    requires Good(g, available)
    ensures Good(WakeFirst(g), available + 1)
  {
  }

  lemma ExpireKeeps(g: Gate, available: nat, t: nat)
    requires Good(g, available)
    ensures Good(Expire(g, t), available)
  {
  }

  lemma FlushKeeps(g: Gate, available: nat)
    requires Sound(g)
    ensures Good(Flush(g), available)
  {
  }

  /** Deleting a woken thread before it has run is safe exactly when its share is covered. */
  lemma DeletingWoken(g: Gate, available: nat, t: nat)
    requires Good(g, available) && t in g.woken
    ensures Good(Leave(g, t), available) <==> g.waiters == [] || available < |g.woken|
  {
    assert g.woken == (g.woken - {t}) + {t};
  }

  // --------------------------------------------------------------------------------
  // What the steps do
  // --------------------------------------------------------------------------------

  /** The first waiter has left the list and is on its way; nobody else has. */
  ghost predicate FirstWoken(g: Gate, r: Gate) {
    if g.waiters == [] then r == g
    else
      var w := g.waiters[0];
      g.waiters == [w] + r.waiters && forall t: nat :: t in r.woken <==> t in g.woken || t == w
  }

  /** `t` is not on its way, and everything else is as it was. */
  ghost predicate WentThrough(g: Gate, r: Gate, t: nat) {
    r.waiters == g.waiters && forall u: nat :: u in r.woken <==> u in g.woken && u != t
  }

  /** `t` waits at place `pos`, and those in front of it and behind it are as they were. */
  ghost predicate NowWaits(g: Gate, r: Gate, t: nat, pos: nat) {
    && pos <= |g.waiters| && |r.waiters| == |g.waiters| + 1 && r.waiters[pos] == t
    && r.waiters[..pos] == g.waiters[..pos] && r.waiters[pos + 1..] == g.waiters[pos..]
    && forall u: nat :: u in r.woken <==> u in g.woken && u != t
  }

  /** `t` does not wait, and the others do in the order as before. */
  ghost predicate TakenOff(g: Gate, r: Gate, t: nat) {
    && r.woken == g.woken && t !in r.waiters && (t !in g.waiters ==> r.waiters == g.waiters)
    && forall k :: 0 <= k < |g.waiters| && g.waiters[k] == t ==> r.waiters == g.waiters[..k] + g.waiters[k + 1..]
  }

  lemma StepsDo(g: Gate, t: nat, pos: nat)
    requires Sound(g) && pos <= |g.waiters|
    ensures FirstWoken(g, WakeFirst(g)) && WentThrough(g, Leave(g, t), t) && NowWaits(g, Join(g, t, pos), t, pos)
    ensures TakenOff(g, Expire(g, t), t)
    ensures Flush(g).waiters == [] && Flush(g).woken == g.woken
  {
    forall k | 0 <= k < |g.waiters| && g.waiters[k] == t
      ensures Expire(g, t).waiters == g.waiters[..k] + g.waiters[k + 1..]
    {
      WithoutAt(g.waiters, k);
    }
  }
}
