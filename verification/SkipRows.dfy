/** Rows of a skip list: each row is a subsequence of the row below. */
module SkipRows {
  import opened Lists

  /** The elements of `b` that are in `keep`, in the order of `b`. */
  function Keep(b: seq<nat>, keep: set<nat>): (r: seq<nat>)
    ensures forall x :: x in r <==> x in b && x in keep
    ensures Distinct(b) ==> Distinct(r)
  {
    if b == [] then []
    else if b[0] in keep then [b[0]] + Keep(b[1..], keep)
    else Keep(b[1..], keep)
  }

  function Elems(a: seq<nat>): set<nat> {
    set x | x in a
  }

  /** `a` is a subsequence of `b`. */
  predicate Subrow(a: seq<nat>, b: seq<nat>) {
    a == Keep(b, Elems(a))
  }

  /** Due times never decrease along the row. */
  ghost predicate Ascending(row: seq<nat>, due: map<nat, nat>) {
    row == [] || (&& row[0] in due
                  && (forall x :: x in row[1..] ==> x in due && due[row[0]] <= due[x])
                  && Ascending(row[1..], due))
  }

  lemma {:induction false} AscendingIn(row: seq<nat>, due: map<nat, nat>)
    requires Ascending(row, due)
    ensures forall x :: x in row ==> x in due
  {
    if row != [] { AscendingIn(row[1..], due); }
  }

  /** The index behind everything that is not due later than `d`. */
  function PlaceIn(row: seq<nat>, due: map<nat, nat>, d: nat): (i: nat)
    requires forall x :: x in row ==> x in due
    ensures i <= |row|
    ensures forall j :: 0 <= j < i ==> due[row[j]] <= d
    ensures i < |row| ==> d < due[row[i]]
  {
    if row == [] then 0
    else
      assert row[0] in row;
      if d < due[row[0]] then 0
      else
        assert forall x :: x in row[1..] ==> x in row;
        1 + PlaceIn(row[1..], due, d)
  }

  lemma {:induction false} KeepConcat(a: seq<nat>, b: seq<nat>, keep: set<nat>)
    ensures Keep(a + b, keep) == Keep(a, keep) + Keep(b, keep)
  {
    if a == [] {
      assert a + b == b;
    } else {
      assert (a + b)[1..] == a[1..] + b;
      KeepConcat(a[1..], b, keep);
    }
  }

  /** Only the members of the row matter. */
  lemma {:induction false} KeepAgrees(b: seq<nat>, k1: set<nat>, k2: set<nat>)
    requires forall x :: x in b ==> (x in k1 <==> x in k2)
    ensures Keep(b, k1) == Keep(b, k2)
  {
    if b != [] {
      assert b[0] in b;
      KeepAgrees(b[1..], k1, k2);
    }
  }

  lemma {:induction false} KeepWithout(b: seq<nat>, keep: set<nat>, t: nat)
    ensures Keep(Without(b, t), keep) == Without(Keep(b, keep), t)
  {
    if b != [] { KeepWithout(b[1..], keep, t); }
  }

  lemma {:induction false} KeepAscending(b: seq<nat>, keep: set<nat>, due: map<nat, nat>)
    requires Ascending(b, due)
    ensures Ascending(Keep(b, keep), due)
  {
    if b != [] { KeepAscending(b[1..], keep, due); }
  }

  /** In an ascending row the place separates what is not later from what is later. */
  lemma {:induction false} PlaceSeparates(row: seq<nat>, due: map<nat, nat>, d: nat, j: nat)
    requires Ascending(row, due) && (forall x :: x in row ==> x in due) && j < |row|
    ensures due[row[j]] <= d <==> j < PlaceIn(row, due, d)
  {
    if j > 0 {
      PlaceSeparates(row[1..], due, d, j - 1);
      assert row[j] in row[1..];
    }
  }

  lemma {:induction false} PlaceBetween(x: seq<nat>, y: seq<nat>, due: map<nat, nat>, d: nat)
    requires forall z :: z in x + y ==> z in due
    requires (forall z :: z in x ==> due[z] <= d) && (forall z :: z in y ==> d < due[z])
    ensures PlaceIn(x + y, due, d) == |x|
  {
    if x == [] {
      assert x + y == y;
      if y != [] { assert y[0] in y; }
    } else {
      assert (x + y)[1..] == x[1..] + y && x[0] in x;
      PlaceBetween(x[1..], y, due, d);
    }
  }

  /** Unlinking a node from every row keeps them subsequences. */
  lemma SubrowWithout(a: seq<nat>, b: seq<nat>, t: nat)
    requires Subrow(a, b)
    ensures Subrow(Without(a, t), Without(b, t))
  {
    KeepWithout(b, Elems(a), t);
    KeepAgrees(Without(b, t), Elems(a), Elems(Without(a, t)));
  }

  /** The places in two rows cut them at corresponding points. */
  lemma SubrowSplit(a: seq<nat>, b: seq<nat>, due: map<nat, nat>, d: nat)
    requires Subrow(a, b) && Ascending(b, due)
    requires (forall x :: x in a ==> x in due) && (forall x :: x in b ==> x in due)
    ensures var i, j := PlaceIn(a, due, d), PlaceIn(b, due, d);
      a[..i] == Keep(b[..j], Elems(a)) && a[i..] == Keep(b[j..], Elems(a))
  {
    var i, j := PlaceIn(a, due, d), PlaceIn(b, due, d);
    var x, y := Keep(b[..j], Elems(a)), Keep(b[j..], Elems(a));
    KeepConcat(b[..j], b[j..], Elems(a));
    assert b == b[..j] + b[j..];
    forall z | z in x ensures z in due && due[z] <= d {
      var m :| 0 <= m < |b[..j]| && b[..j][m] == z;
      PlaceSeparates(b, due, d, m);
    }
    forall z | z in y ensures z in due && d < due[z] {
      var m :| 0 <= m < |b[j..]| && b[j..][m] == z;
      PlaceSeparates(b, due, d, j + m);
    }
    PlaceBetween(x, y, due, d);
  }

  /** Linking a node at its place into both rows keeps them subsequences. */
  lemma SubrowInsert(a: seq<nat>, b: seq<nat>, due: map<nat, nat>, d: nat, t: nat)
    requires Subrow(a, b) && Ascending(b, due) && t !in b
    requires (forall x :: x in a ==> x in due) && (forall x :: x in b ==> x in due)
    ensures var i, j := PlaceIn(a, due, d), PlaceIn(b, due, d);
      Subrow(a[..i] + [t] + a[i..], b[..j] + [t] + b[j..])
  {
    var i, j := PlaceIn(a, due, d), PlaceIn(b, due, d);
    SubrowSplit(a, b, due, d);
    LinkParts(a, b, i, j, t);
  }

  lemma LinkParts(a: seq<nat>, b: seq<nat>, i: nat, j: nat, t: nat)
    requires i <= |a| && j <= |b| && t !in b
    requires a[..i] == Keep(b[..j], Elems(a)) && a[i..] == Keep(b[j..], Elems(a))
    ensures Subrow(a[..i] + [t] + a[i..], b[..j] + [t] + b[j..])
  {
    var x, y, u, v := a[..i], a[i..], b[..j], b[j..];
    assert x + y == a;
    LinkBoth(x, y, u, v, Elems(a), t);
  }

  lemma LinkBoth(x: seq<nat>, y: seq<nat>, u: seq<nat>, v: seq<nat>, k: set<nat>, t: nat)
    requires x == Keep(u, k) && y == Keep(v, k) && k == Elems(x + y) && t !in u && t !in v
    ensures Subrow(x + [t] + y, u + [t] + v)
  {
    var k' := Elems(x + [t] + y);
    assert forall z :: z in k' <==> z in k || z == t;
    KeepLinked(u, v, k, k', t);
  }

  lemma KeepLinked(u: seq<nat>, v: seq<nat>, k: set<nat>, k': set<nat>, t: nat)
    requires t !in u && t !in v && t in k' && forall z :: z != t ==> (z in k' <==> z in k)
    ensures Keep(u + [t] + v, k') == Keep(u, k) + [t] + Keep(v, k)
  {
    KeepAgrees(u, k, k');
    KeepAgrees(v, k, k');
    KeepConcat(u + [t], v, k');
    KeepConcat(u, [t], k');
    assert [t][1..] == [];
    assert Keep([t], k') == [t];
  }

  /** Linking a node into the lower row only. */
  lemma SubrowBelow(a: seq<nat>, b: seq<nat>, j: nat, t: nat)
    requires Subrow(a, b) && t !in a && j <= |b|
    ensures Subrow(a, b[..j] + [t] + b[j..])
  {
    assert b == b[..j] + b[j..];
    KeepConcat(b[..j], b[j..], Elems(a));
    KeepConcat(b[..j] + [t], b[j..], Elems(a));
    KeepConcat(b[..j], [t], Elems(a));
  }

  /** Where a node of a row sits in the row below. */
  function IndexOf(row: seq<nat>, x: nat): (i: nat)
    requires x in row
    ensures i < |row| && row[i] == x
  {
    if row[0] == x then 0 else 1 + IndexOf(row[1..], x)
  }

  /** Going down at the last node that is not later lands at or before the right place. */
  lemma DescendIsShort(a: seq<nat>, b: seq<nat>, due: map<nat, nat>, d: nat)
    requires Subrow(a, b) && Ascending(b, due)
    requires (forall x :: x in a ==> x in due) && (forall x :: x in b ==> x in due)
    ensures var i := PlaceIn(a, due, d); i > 0 ==> a[i - 1] in b && IndexOf(b, a[i - 1]) < PlaceIn(b, due, d)
  {
    var i := PlaceIn(a, due, d);
    if i > 0 {
      assert a[i - 1] in a;
      PlaceSeparates(b, due, d, IndexOf(b, a[i - 1]));
    }
  }
}
