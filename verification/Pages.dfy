/** The page allocator of slab.c: a list of free page runs in address order. */
module Pages {
  import opened Wrappers

  /** `len` free pages from page `start` on */
  datatype Run = Run(start: nat, len: nat)

  /** Runs are not empty, come in ascending order and do not touch, so each is maximal. */
  ghost predicate Canonical(list: seq<Run>) {
    list != [] ==> list[0].len > 0 && (|list| > 1 ==> End(list[0]) < list[1].start) && Canonical(list[1..])
  }

  function End(r: Run): nat {
    r.start + r.len
  }

  /** Page `p` is free. */
  ghost predicate In(list: seq<Run>, p: nat) {
    list != [] && (list[0].start <= p < End(list[0]) || In(list[1..], p))
  }

  /** `n` pages from `s` on are all free. */
  ghost predicate FreeAt(list: seq<Run>, s: nat, n: nat) {
    forall p :: s <= p < s + n ==> In(list, p)
  }

  lemma {:induction false} TailAbove(list: seq<Run>, p: nat)
    requires Canonical(list) && list != [] && In(list[1..], p)
    ensures End(list[0]) < p
  {
    if !(list[1].start <= p < End(list[1])) {
      assert list[1..][1..] == list[2..];
      TailAbove(list[1..], p);
    }
  }

  /** There is only one such list for a set of free pages. */
  lemma {:induction false} CanonicalIsUnique(a: seq<Run>, b: seq<Run>)
    requires Canonical(a) && Canonical(b) && forall p: nat :: In(a, p) <==> In(b, p)
    ensures a == b
  {
    assert a != [] ==> In(a, a[0].start);
    assert b != [] ==> In(b, b[0].start);
    if a != [] {
      SameFirst(a, b);
      forall p: nat ensures In(a[1..], p) <==> In(b[1..], p) {
        assert In(a, p) <==> In(b, p);
        if In(a[1..], p) { TailAbove(a, p); }
        if In(b[1..], p) { TailAbove(b, p); }
      }
      CanonicalIsUnique(a[1..], b[1..]);
      assert a == [a[0]] + a[1..] && b == [b[0]] + b[1..];
    }
  }

  lemma SameFirst(a: seq<Run>, b: seq<Run>)
    requires Canonical(a) && Canonical(b) && a != [] && b != [] && forall p: nat :: In(a, p) <==> In(b, p)
    ensures a[0] == b[0]
  {
    assert In(a, a[0].start) && In(b, b[0].start);
    assert In(b, a[0].start) && In(a, b[0].start);
    if In(b[1..], a[0].start) { TailAbove(b, a[0].start); }
    if In(a[1..], b[0].start) { TailAbove(a, b[0].start); }
    assert In(a, End(a[0])) <==> In(b, End(a[0]));
    assert In(a, End(b[0])) <==> In(b, End(b[0]));
    if In(a[1..], End(a[0])) { TailAbove(a, End(a[0])); }
    if In(b[1..], End(b[0])) { TailAbove(b, End(b[0])); }
  }

  // --------------------------------------------------------------------------------
  // Allocation
  // --------------------------------------------------------------------------------

  /** First fit: the runs after taking `n` pages, and where they were. */
  function Take(list: seq<Run>, n: nat): (r: (Option<nat>, seq<Run>)) {
    if list == [] then (None, [])
    else if list[0].len > n then (Some(list[0].start), [Run(list[0].start + n, list[0].len - n)] + list[1..])
    else if list[0].len == n then (Some(list[0].start), list[1..])
    else
      var (b, rest) := Take(list[1..], n);
      (b, [list[0]] + rest)
  }

  /** Taking keeps the list canonical and takes exactly those pages. */
  lemma {:induction false} TakeKeeps(list: seq<Run>, n: nat)
    requires Canonical(list) && n > 0
    ensures var (b, rest) := Take(list, n);
      && Canonical(rest) && (rest != [] ==> list != [] && list[0].start <= rest[0].start)
      && (b.None? ==> rest == list)
      && forall p: nat :: In(rest, p) <==> In(list, p) && !(b.Some? && b.value <= p < b.value + n)
  {
    if list != [] {
      var (b, rest) := Take(list, n);
      var tail := list[1..];
      forall p: nat | In(tail, p) ensures End(list[0]) < p { TailAbove(list, p); }
      if list[0].len > n {
        assert rest[1..] == tail;
      } else if list[0].len < n {
        TakeKeeps(tail, n);
        assert rest[1..] == Take(tail, n).1;
        if b.Some? { TakenIsFree(tail, n); }
        forall p: nat ensures In(rest, p) <==> In(list, p) && !(b.Some? && b.value <= p < b.value + n) {
          assert b.Some? && b.value <= p < b.value + n ==> In(tail, p);
        }
      }
    }
  }

  lemma {:induction false} TakenIsFree(list: seq<Run>, n: nat)
    requires Canonical(list) && n > 0 && Take(list, n).0.Some?
    ensures FreeAt(list, Take(list, n).0.value, n)
  {
    if list[0].len < n { TakenIsFree(list[1..], n); }
  }

  /** Free pages in a row lie in one run. */
  lemma InOneRun(list: seq<Run>, s: nat, n: nat)
    requires Canonical(list) && n > 0 && FreeAt(list, s, n) && list != []
    ensures (list[0].start <= s && s + n <= End(list[0])) || FreeAt(list[1..], s, n)
  {
    assert In(list, s);
    if list[0].start <= s < End(list[0]) {
      if s + n > End(list[0]) {
        assert In(list, End(list[0]));
        TailAbove(list, End(list[0]));
      }
    } else {
      TailAbove(list, s);
      forall p | s <= p < s + n ensures In(list[1..], p) { assert In(list, p); }
    }
  }

  /** Allocation fails exactly when no `n` free pages are in a row, and otherwise takes the
      lowest ones that are. */
  lemma {:induction false} TakeIsLowest(list: seq<Run>, n: nat)
    requires Canonical(list) && n > 0
    ensures Take(list, n).0.None? <==> forall s: nat :: !FreeAt(list, s, n)
    ensures Take(list, n).0.Some? ==>
      FreeAt(list, Take(list, n).0.value, n) && forall s: nat :: s < Take(list, n).0.value ==> !FreeAt(list, s, n)
  {
    if list == [] {
      forall s: nat ensures !FreeAt(list, s, n) { assert s <= s < s + n && !In(list, s); }
    } else {
      if Take(list, n).0.Some? { TakenIsFree(list, n); }
      TakeIsLowest(list[1..], n);
      forall s: nat | FreeAt(list, s, n) ensures FreeAt(list[1..], s, n) || (list[0].start <= s && n <= list[0].len) {
        InOneRun(list, s, n);
      }
      if list[0].len >= n {
        forall s: nat | s < list[0].start ensures !FreeAt(list, s, n) {
          if FreeAt(list, s, n) {
            InOneRun(list, s, n);
            assert In(list[1..], s);
            TailAbove(list, s);
          }
        }
      }
    }
  }

  // --------------------------------------------------------------------------------
  // Release
  // --------------------------------------------------------------------------------

  /** The runs after giving back `n` pages from `a` on, merged with the neighbours they touch. */
  function Give(list: seq<Run>, a: nat, n: nat): seq<Run> {
    if list == [] then [Run(a, n)]
    else
      var b := list[0];
      if End(b) == a then
        if |list| > 1 && a + n == list[1].start then [Run(b.start, b.len + n + list[1].len)] + list[2..]
        else [Run(b.start, b.len + n)] + list[1..]
      else if b.start == a + n then [Run(a, b.len + n)] + list[1..]
      else if b.start > a + n then [Run(a, n)] + list
      else [b] + Give(list[1..], a, n)
  }

  ghost predicate Taken(list: seq<Run>, a: nat, n: nat) {
    forall p :: a <= p < a + n ==> !In(list, p)
  }

  lemma {:induction false} GiveKeeps(list: seq<Run>, a: nat, n: nat)
    requires Canonical(list) && n > 0 && Taken(list, a, n)
    ensures var r := Give(list, a, n);
      && Canonical(r) && r != [] && (r[0].start == a || (list != [] && r[0].start == list[0].start))
      && forall p: nat :: In(r, p) <==> In(list, p) || a <= p < a + n
  {
    var r := Give(list, a, n);
    if list == [] {
      assert r[1..] == [];
    } else {
      var b, tail := list[0], list[1..];
      forall p: nat | In(tail, p) ensures End(b) < p { TailAbove(list, p); }
      assert In(list, b.start) && !(a <= b.start < a + n);
      if End(b) == a {
        if |list| > 1 && a + n == list[1].start {
          assert r[1..] == list[2..] == tail[1..];
          assert Canonical(tail[1..]);
          assert |list| > 2 ==> tail[1] == list[2];
        } else {
          GiveBehind(list, a, n);
        }
      } else if b.start == a + n {
        assert r[1..] == tail;
      } else if b.start > a + n {
        assert r[1..] == list;
      } else {
        assert b.start <= a;
        assert !In(list, a) && End(b) <= a;
        forall p | a <= p < a + n ensures !In(tail, p) { assert !In(list, p); }
        GiveKeeps(tail, a, n);
        assert r[1..] == Give(tail, a, n);
      }
    }
  }

  /** The given pages follow the first run and do not reach the second. */
  lemma GiveBehind(list: seq<Run>, a: nat, n: nat)
    requires Canonical(list) && n > 0 && Taken(list, a, n) && list != [] && End(list[0]) == a
    requires |list| > 1 ==> a + n != list[1].start
    ensures Canonical([Run(list[0].start, list[0].len + n)] + list[1..])
    ensures |list| > 1 ==> a + n < list[1].start
  {
    var r := [Run(list[0].start, list[0].len + n)] + list[1..];
    assert r[1..] == list[1..];
    if |list| > 1 {
      assert In(list[1..], list[1].start) && In(list, list[1].start);
      assert !(a <= list[1].start < a + n);
    }
  }

  /** Giving back what was just taken restores the very same list. */
  lemma TakeGive(list: seq<Run>, n: nat)
    requires Canonical(list) && n > 0 && Take(list, n).0.Some?
    ensures Give(Take(list, n).1, Take(list, n).0.value, n) == list
  {
    var (b, rest) := Take(list, n);
    TakeKeeps(list, n);
    TakenIsFree(list, n);
    GiveKeeps(rest, b.value, n);
    CanonicalIsUnique(Give(rest, b.value, n), list);
  }

  // --------------------------------------------------------------------------------
  // The list, changed in place
  // --------------------------------------------------------------------------------

  /** A search from the front has passed the first `i` runs. */
  ghost predicate TakePassed(list: seq<Run>, n: nat, i: nat)
    requires i <= |list|
  {
    Take(list, n) == (Take(list[i..], n).0, list[..i] + Take(list[i..], n).1)
  }

  lemma TakeVisit(list: seq<Run>, n: nat, i: nat)
    requires i < |list| && TakePassed(list, n, i)
    ensures var b := list[i];
      if b.len > n then Take(list, n) == (Some(b.start), list[..i] + [Run(b.start + n, b.len - n)] + list[i + 1..])
      else if b.len == n then Take(list, n) == (Some(b.start), list[..i] + list[i + 1..])
      else TakePassed(list, n, i + 1)
  {
    var rest := list[i..];
    assert rest[0] == list[i] && rest[1..] == list[i + 1..] && list[..i] + [list[i]] == list[..i + 1];
    if list[i].len < n {
      assert list[..i] + ([list[i]] + Take(list[i + 1..], n).1) == list[..i + 1] + Take(list[i + 1..], n).1;
    } else if list[i].len > n {
      var r := Run(list[i].start + n, list[i].len - n);
      assert list[..i] + ([r] + list[i + 1..]) == list[..i] + [r] + list[i + 1..];
    }
  }

  ghost predicate GivePassed(list: seq<Run>, a: nat, n: nat, i: nat)
    requires i <= |list|
  {
    Give(list, a, n) == list[..i] + Give(list[i..], a, n)
  }

  lemma GiveVisit(list: seq<Run>, a: nat, n: nat, i: nat)
    requires i < |list| && GivePassed(list, a, n, i)
    ensures var b := list[i];
      if End(b) == a then
        if i + 1 < |list| && a + n == list[i + 1].start then
          Give(list, a, n) == list[..i] + [Run(b.start, b.len + n + list[i + 1].len)] + list[i + 2..]
        else Give(list, a, n) == list[..i] + [Run(b.start, b.len + n)] + list[i + 1..]
      else if b.start == a + n then Give(list, a, n) == list[..i] + [Run(a, b.len + n)] + list[i + 1..]
      else if b.start > a + n then Give(list, a, n) == list[..i] + [Run(a, n)] + list[i..]
      else GivePassed(list, a, n, i + 1)
  {
    var rest := list[i..];
    assert rest[0] == list[i] && rest[1..] == list[i + 1..] && list[..i] + [list[i]] == list[..i + 1];
    assert i + 1 < |list| ==> rest[1] == list[i + 1] && rest[2..] == list[i + 2..];
  }

  class PageAllocator {
    var list: seq<Run>

    /** `rt_page_init` */
    constructor (start: nat, n: nat)
      requires n > 0
      ensures list == [Run(start, n)] && Canonical(list)
    {
      list := [];
      new;
      Free(start, n);
    }

    /** `rt_page_alloc` */
    method Alloc(n: nat) returns (r: Option<nat>)
      requires Canonical(list)
      modifies this
      ensures Canonical(list)
      ensures n == 0 ==> r.None? && list == old(list)
      ensures n > 0 ==> (r, list) == Take(old(list), n)
      ensures n > 0 ==> (r.None? <==> forall s: nat :: !FreeAt(old(list), s, n))
    {
      if n == 0 {
        return None;
      }
      r := Remove(n);
      TakeKeeps(old(list), n);
      TakeIsLowest(old(list), n);
    }

    /** The loop of `rt_page_alloc` */
    method Remove(n: nat) returns (r: Option<nat>)
      modifies this
      ensures (r, list) == Take(old(list), n)
    {
      var i := 0;
      assert list[0..] == list && list[..0] + Take(list, n).1 == Take(list, n).1;
      while i < |list|
        invariant i <= |list| && list == old(list) && TakePassed(list, n, i)
      {
        var b := list[i];
        TakeVisit(list, n, i);
        if b.len > n {
          list := list[..i] + [Run(b.start + n, b.len - n)] + list[i + 1..];
          return Some(b.start);
        }
        if b.len == n {
          list := list[..i] + list[i + 1..];
          return Some(b.start);
        }
        i := i + 1;
      }
      assert list[i..] == [] && list[..i] + [] == list;
      r := None;
    }

    /** `rt_page_free`; the pages must have been taken */
    method Free(a: nat, n: nat)
      requires Canonical(list) && n > 0 && Taken(list, a, n)
      modifies this
      ensures Canonical(list) && list == Give(old(list), a, n)
    {
      Insert(a, n);
      GiveKeeps(old(list), a, n);
    }

    /** The loop of `rt_page_free` */
    method Insert(a: nat, n: nat)
      modifies this
      ensures list == Give(old(list), a, n)
    {
      var i := 0;
      assert list[0..] == list;
      while i < |list|
        invariant i <= |list| && list == old(list) && GivePassed(list, a, n, i)
      {
        var b := list[i];
        GiveVisit(list, a, n, i);
        if End(b) == a {
          var len := b.len + n;
          if i + 1 < |list| && b.start + len == list[i + 1].start {
            list := list[..i] + [Run(b.start, len + list[i + 1].len)] + list[i + 2..];
          } else {
            list := list[..i] + [Run(b.start, len)] + list[i + 1..];
          }
          return;
        }
        if b.start == a + n {
          list := list[..i] + [Run(a, b.len + n)] + list[i + 1..];
          return;
        }
        if b.start > a + n {
          list := list[..i] + [Run(a, n)] + list[i..];
          return;
        }
        i := i + 1;
      }
      assert list[i..] == [];
      list := list[..i] + [Run(a, n)] + list[i..];
    }
  }
}
