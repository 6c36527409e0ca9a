/** A doubly linked ring with a header node, as memheap.c keeps its free blocks. */
module FreeList {
  import opened Lists

  /** The header node, `free_header` */
  const HEAD: int := -1

  /** The node at position `i`, counting the header as both ends. */
  function At(list: seq<nat>, i: int): int {
    if 0 <= i < |list| then list[i] else HEAD
  }

  ghost predicate LinkOk(next: map<int, int>, prev: map<int, int>, list: seq<nat>, i: nat) {
    var a, b := At(list, i - 1), At(list, i);
    a in next && next[a] == b && b in prev && prev[b] == a
  }

  /** Following `next` from the header visits `list` and returns; `prev` goes the other way. */
  ghost predicate Ring(next: map<int, int>, prev: map<int, int>, list: seq<nat>) {
    Distinct(list) && forall i :: 0 <= i <= |list| ==> LinkOk(next, prev, list, i)
  }

  function PushNext(next: map<int, int>, x: nat): map<int, int>
    requires HEAD in next
  {
    next[x := next[HEAD]][HEAD := x]
  }

  function PushPrev(next: map<int, int>, prev: map<int, int>, x: nat): map<int, int>
    requires HEAD in next
  {
    prev[x := HEAD][next[HEAD] := x]
  }

  lemma PushRing(next: map<int, int>, prev: map<int, int>, list: seq<nat>, x: nat)
    requires Ring(next, prev, list) && x !in list
    ensures HEAD in next && Ring(PushNext(next, x), PushPrev(next, prev, x), [x] + list)
  {
    assert LinkOk(next, prev, list, 0);
    var n, p, r := PushNext(next, x), PushPrev(next, prev, x), [x] + list;
    assert r[1..] == list;
    DistinctMeans(list);
    forall i | 0 <= i <= |r| ensures LinkOk(n, p, r, i) {
      if i > 1 {
        assert LinkOk(next, prev, list, i - 1);
        assert At(r, i - 1) == list[i - 2] && At(r, i) == At(list, i - 1);
      }
    }
  }

  function RemoveNext(next: map<int, int>, prev: map<int, int>, x: nat): map<int, int>
    requires x in next && x in prev
  {
    next[prev[x] := next[x]]
  }

  function RemovePrev(next: map<int, int>, prev: map<int, int>, x: nat): map<int, int>
    requires x in next && x in prev
  {
    prev[next[x] := prev[x]]
  }

  lemma RemoveRing(next: map<int, int>, prev: map<int, int>, list: seq<nat>, x: nat)
    requires Ring(next, prev, list) && x in list
    ensures x in next && x in prev && Ring(RemoveNext(next, prev, x), RemovePrev(next, prev, x), Without(list, x))
  {
    var k :| 0 <= k < |list| && list[k] == x;
    assert LinkOk(next, prev, list, k) && LinkOk(next, prev, list, k + 1);
    RemoveAt(next, prev, list, k);
    WithoutAt(list, k);
  }

  lemma RemoveAt(next: map<int, int>, prev: map<int, int>, list: seq<nat>, k: nat)
    requires Ring(next, prev, list) && k < |list| && list[k] in next && list[k] in prev
    ensures var n, p, r := RemoveNext(next, prev, list[k]), RemovePrev(next, prev, list[k]), list[..k] + list[k + 1..];
      forall i :: 0 <= i <= |r| ==> LinkOk(n, p, r, i)
  {
    var x, r := list[k], list[..k] + list[k + 1..];
    var n, p := RemoveNext(next, prev, x), RemovePrev(next, prev, x);
    assert LinkOk(next, prev, list, k) && LinkOk(next, prev, list, k + 1);
    DistinctMeans(list);
    forall i | 0 <= i <= |r| ensures LinkOk(n, p, r, i) {
      assert LinkOk(next, prev, list, if i <= k then i else i + 1);
      assert At(r, i) == At(list, if i < k then i else i + 1);
      assert At(r, i - 1) == At(list, if i <= k then i - 1 else i);
    }
  }

  lemma EmptyRing()
    ensures Ring(map[HEAD := HEAD], map[HEAD := HEAD], [])
  {
  }
}
