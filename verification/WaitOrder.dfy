/** Wait lists ordered by priority, as `_ipc_list_suspend` keeps them for `RT_IPC_FLAG_PRIO`.
    A smaller number is more urgent.
 */
module WaitOrder {
  import opened Lists

  /** Most urgent first. */
  ghost predicate Sorted(prio: map<nat, nat>, list: seq<nat>) {
    && (forall w :: w in list ==> w in prio)
    && (list == [] || ((forall w :: w in list[1..] ==> prio[list[0]] <= prio[w]) && Sorted(prio, list[1..])))
  }

  /** Before the first waiter that is less urgent than `t`, or at the end. */
  function Enqueue(prio: map<nat, nat>, list: seq<nat>, t: nat): (r: seq<nat>)
    requires t in prio && forall w :: w in list ==> w in prio
    ensures forall w :: w in r <==> w in list || w == t
    ensures |r| == |list| + 1
  {
    if list == [] then [t]
    else if prio[t] < prio[list[0]] then [t] + list
    else [list[0]] + Enqueue(prio, list[1..], t)
  }

  lemma {:induction false} EnqueueSorted(prio: map<nat, nat>, list: seq<nat>, t: nat)
    requires t in prio && Sorted(prio, list)
    ensures Sorted(prio, Enqueue(prio, list, t))
    ensures Distinct(list) && t !in list ==> Distinct(Enqueue(prio, list, t))
  {
    if list != [] {
      var r := Enqueue(prio, list, t);
      EnqueueSorted(prio, list[1..], t);
      if prio[t] < prio[list[0]] {
        assert r[1..] == list;
      } else {
        assert r[1..] == Enqueue(prio, list[1..], t);
      }
    }
  }

  /** `t` stands behind everyone at least as urgent and before everyone less urgent, so equals
      are served in the order they came; the others keep their order. */
  lemma {:induction false} EnqueueIsFair(prio: map<nat, nat>, list: seq<nat>, t: nat) returns (i: nat)
    requires t in prio && Sorted(prio, list)
    ensures i <= |list| && Enqueue(prio, list, t) == list[..i] + [t] + list[i..]
    ensures forall k :: 0 <= k < i ==> prio[list[k]] <= prio[t]
    ensures forall k :: i <= k < |list| ==> prio[t] < prio[list[k]]
  {
    if list == [] || prio[t] < prio[list[0]] {
      i := 0;
      forall k | 0 <= k < |list| ensures prio[t] < prio[list[k]] {
        if k > 0 { assert list[k] in list[1..]; }
      }
    } else {
      var tail := list[1..];
      var j := EnqueueIsFair(prio, tail, t);
      i := j + 1;
      assert list[..i] == [list[0]] + tail[..j] && list[i..] == tail[j..];
      forall k | 0 < k < |list| ensures list[k] == tail[k - 1] { }
    }
  }

  /** Changing the priority of a thread outside the list. */
  lemma {:induction false} SortedFrame(prio: map<nat, nat>, list: seq<nat>, t: nat, p: nat)
    requires Sorted(prio, list) && t !in list
    ensures Sorted(prio[t := p], list)
  {
    if list != [] { SortedFrame(prio, list[1..], t, p); }
  }

  lemma {:induction false} SortedWithout(prio: map<nat, nat>, list: seq<nat>, t: nat)
    requires Sorted(prio, list)
    ensures Sorted(prio, Without(list, t))
  {
    if list != [] {
      SortedWithout(prio, list[1..], t);
      var r := Without(list, t);
      if list[0] != t { assert r[1..] == Without(list[1..], t); }
    }
  }

  lemma {:induction false} SortedMeans(prio: map<nat, nat>, list: seq<nat>)
    ensures Sorted(prio, list) <==>
      (forall w :: w in list ==> w in prio) && forall i, j :: 0 <= i < j < |list| ==> prio[list[i]] <= prio[list[j]]
  {
    if list != [] {
      var tail := list[1..];
      SortedMeans(prio, tail);
      if Sorted(prio, list) {
        forall i, j | 0 <= i < j < |list| ensures prio[list[i]] <= prio[list[j]] {
          assert list[j] == tail[j - 1] && (i > 0 ==> list[i] == tail[i - 1]);
        }
      } else if (forall w :: w in list ==> w in prio) &&
                (forall i, j :: 0 <= i < j < |list| ==> prio[list[i]] <= prio[list[j]]) {
        forall w | w in tail ensures prio[list[0]] <= prio[w] {
          var j :| 0 <= j < |tail| && tail[j] == w;
          assert list[j + 1] == w;
        }
      }
    }
  }

  /** Entering a list puts it out of order only if it was so before. */
  lemma {:induction false} EnqueueSortedIff(prio: map<nat, nat>, list: seq<nat>, t: nat)
    requires t in prio && forall w :: w in list ==> w in prio
    ensures Sorted(prio, Enqueue(prio, list, t)) <==> Sorted(prio, list)
  {
    if Sorted(prio, list) {
      EnqueueSorted(prio, list, t);
    } else if list != [] {
      var r := Enqueue(prio, list, t);
      if prio[t] < prio[list[0]] {
        assert r[1..] == list;
      } else {
        assert r[1..] == Enqueue(prio, list[1..], t);
        EnqueueSortedIff(prio, list[1..], t);
      }
    }
  }
}
