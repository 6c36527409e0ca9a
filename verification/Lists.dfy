/** The intrusive lists of rtservice.h as sequences of node names. */
module Lists {

  /** No node is linked twice. */
  predicate Distinct(s: seq<nat>) {
    s == [] || (s[0] !in s[1..] && Distinct(s[1..]))
  }

  lemma {:induction false} DistinctMeans(s: seq<nat>)
    ensures Distinct(s) <==> forall i, j :: 0 <= i < j < |s| ==> s[i] != s[j]
  {
    if s != [] {
      DistinctMeans(s[1..]);
      var t := s[1..];
      if Distinct(s) {
        forall i, j | 0 <= i < j < |s| ensures s[i] != s[j] {
          assert s[j] == t[j - 1];
          if i > 0 { assert s[i] == t[i - 1]; }
        }
      } else if s[0] in t {
        var j :| 0 <= j < |t| && t[j] == s[0];
        assert s[0] == s[j + 1];
      } else {
        var i, j :| 0 <= i < j < |t| && t[i] == t[j];
        assert s[i + 1] == s[j + 1];
      }
    }
  }

  /** `rt_list_remove` seen from one list: the node is unlinked wherever it stood. */
  function Without(s: seq<nat>, x: nat): (r: seq<nat>)
    ensures forall y: nat :: y in r <==> y in s && y != x
    ensures x !in s ==> r == s
    ensures Distinct(s) ==> Distinct(r)
  {
    if s == [] then []
    else if s[0] == x then Without(s[1..], x)
    else [s[0]] + Without(s[1..], x)
  }

  /** Unlinking the front node leaves the rest. */
  lemma WithoutFront(s: seq<nat>)
    requires s != [] && Distinct(s)
    ensures Without(s, s[0]) == s[1..]
  {
  }

  /** Unlinking a node closes the gap where it stood. */
  lemma {:induction false} WithoutAt(list: seq<nat>, k: nat)
    requires Distinct(list) && k < |list|
    ensures Without(list, list[k]) == list[..k] + list[k + 1..]
  {
    if k == 0 {
      WithoutFront(list);
      assert list[..0] + list[1..] == list[1..];
    } else {
      var tail := list[1..];
      assert tail[k - 1] == list[k] && list[k] in tail;
      WithoutAt(tail, k - 1);
      assert [list[0]] + (tail[..k - 1] + tail[k..]) == list[..k] + list[k + 1..];
    }
  }

  /** Unlinking distributes over concatenation, so it never reorders what stays. */
  lemma {:induction false} WithoutConcat(s: seq<nat>, t: seq<nat>, x: nat)
    ensures Without(s + t, x) == Without(s, x) + Without(t, x)
  {
    if s == [] {
      assert s + t == t;
    } else {
      assert (s + t)[1..] == s[1..] + t;
      WithoutConcat(s[1..], t, x);
    }
  }

  /** Linking a node that is nowhere in the list, at any position. */
  lemma {:induction false} DistinctInsert(s: seq<nat>, i: nat, x: nat)
    requires Distinct(s) && x !in s && i <= |s|
    ensures Distinct(s[..i] + [x] + s[i..])
    ensures forall y: nat :: y in s[..i] + [x] + s[i..] <==> y in s || y == x
  {
    var r := s[..i] + [x] + s[i..];
    assert s == s[..i] + s[i..];
    if i == 0 {
      assert r[1..] == s;
    } else {
      DistinctInsert(s[1..], i - 1, x);
      assert r[1..] == s[1..][..i - 1] + [x] + s[1..][i - 1..];
    }
  }

  lemma DistinctSnoc(s: seq<nat>, x: nat)
    requires Distinct(s) && x !in s
    ensures Distinct(s + [x])
  {
    DistinctInsert(s, |s|, x);
    assert s + [x] == s[..|s|] + [x] + s[|s|..];
  }

  /** There are only `n` nodes below `n`. */
  lemma {:induction false} DistinctFits(s: seq<nat>, n: nat)
    requires Distinct(s) && forall x :: x in s ==> x < n
    ensures |s| <= n
    decreases n
  {
    assert s == [] || s[0] in s;
    if n > 0 {
      var w := Without(s, n - 1);
      DistinctFits(w, n - 1);
      WithoutOne(s, n - 1);
    }
  }

  lemma {:induction false} WithoutOne(s: seq<nat>, x: nat)
    requires Distinct(s)
    ensures |Without(s, x)| == if x in s then |s| - 1 else |s|
  {
    if s != [] { WithoutOne(s[1..], x); }
  }
}
