/** Worst-case stack analysis of WCS.py: a memoised depth-first search over a call graph that
    may have cycles, calls through pointers and calls to unknown functions.
 */
module StackUsage {
  import opened Lists

  /** A function of the program under analysis: its own stack, whether it calls through a
      pointer, the functions it calls in the order they are visited, and the names it calls that
      could not be resolved.  A manual entry has its stack known beforehand and calls nothing. */
  datatype Fn = Fn(stack: nat, ptr: bool, calls: seq<nat>, unknown: set<string>, manual: bool)

  datatype Wcs = Unbounded | Size(bytes: nat)

  type Graph = seq<Fn>

  ghost predicate WellFormed(g: Graph) {
    && (forall f :: 0 <= f < |g| ==> forall c :: c in g[f].calls ==> c < |g|)
    && (forall f :: 0 <= f < |g| && g[f].manual ==> g[f].calls == [] && !g[f].ptr && g[f].unknown == {})
  }

  // --------------------------------------------------------------------------------
  // Call paths
  // --------------------------------------------------------------------------------

  ghost predicate Path(g: Graph, p: seq<nat>) {
    p != [] && p[0] < |g| && (|p| > 1 ==> p[1] in g[p[0]].calls && Path(g, p[1..]))
  }

  ghost predicate From(g: Graph, f: nat, p: seq<nat>) {
    Path(g, p) && p[0] == f
  }

  function Last(p: seq<nat>): nat
    requires p != []
  {
    p[|p| - 1]
  }

  ghost function Sum(g: Graph, p: seq<nat>): nat {
    if p == [] then 0 else (if p[0] < |g| then g[p[0]].stack else 0) + Sum(g, p[1..])
  }

  /** No call path from `f` meets a pointer call or visits a function twice. */
  ghost predicate Bounded(g: Graph, f: nat) {
    forall p :: From(g, f, p) ==> Good(g, p)
  }

  ghost predicate Good(g: Graph, p: seq<nat>) {
    p != [] && Last(p) < |g| && !g[Last(p)].ptr && Distinct(p)
  }

  /** `w` is the largest stack sum over all call paths from `f`. */
  ghost predicate Largest(g: Graph, f: nat, w: nat) {
    && (exists p :: From(g, f, p) && Sum(g, p) == w)
    && (forall p :: From(g, f, p) ==> Sum(g, p) <= w)
  }

  /** The right answer for `f`. */
  ghost predicate Truth(g: Graph, f: nat, v: Wcs) {
    match v
    case Unbounded => !Bounded(g, f)
    case Size(w) => Bounded(g, f) && Largest(g, f, w)
  }

  lemma TruthIsUnique(g: Graph, f: nat, v: Wcs, w: Wcs)
    requires Truth(g, f, v) && Truth(g, f, w)
    ensures v == w
  {
    if v.Size? && w.Size? {
      var p :| From(g, f, p) && Sum(g, p) == v.bytes;
      var q :| From(g, f, q) && Sum(g, q) == w.bytes;
      assert Sum(g, p) <= w.bytes && Sum(g, q) <= v.bytes;
    }
  }

  /** A path, cut at `i`. */
  lemma {:induction false} PathCut(g: Graph, p: seq<nat>, i: nat)
    requires Path(g, p) && i < |p|
    ensures Path(g, p[..i + 1]) && Path(g, p[i..]) && p[i] < |g|
  {
    if i == 0 {
      assert p[0..] == p;
    } else {
      PathCut(g, p[1..], i - 1);
      assert p[1..][..i] == p[..i + 1][1..] && p[1..][i - 1..] == p[i..];
    }
  }

  /** A path, extended by a call. */
  lemma {:induction false} PathSnoc(g: Graph, p: seq<nat>, c: nat)
    requires Path(g, p) && Last(p) < |g| && c in g[Last(p)].calls && c < |g|
    ensures Path(g, p + [c])
  {
    if |p| > 1 {
      PathSnoc(g, p[1..], c);
      assert (p + [c])[1..] == p[1..] + [c];
    } else {
      assert (p + [c])[1..] == [c];
    }
  }

  lemma PathCons(g: Graph, f: nat, q: seq<nat>)
    requires WellFormed(g) && f < |g| && Path(g, q) && q[0] in g[f].calls
    ensures From(g, f, [f] + q) && Last([f] + q) == Last(q) && Sum(g, [f] + q) == g[f].stack + Sum(g, q)
  {
    assert ([f] + q)[1..] == q;
  }

  /** An unbounded callee makes the caller unbounded. */
  lemma CalleeUnbounded(g: Graph, f: nat, c: nat)
    requires WellFormed(g) && f < |g| && c in g[f].calls && !Bounded(g, c)
    ensures !Bounded(g, f)
  {
    var q :| From(g, c, q) && !Good(g, q);
    PathCons(g, f, q);
    assert ([f] + q)[1..] == q;
    assert !Good(g, [f] + q);
  }

  lemma PointerUnbounded(g: Graph, f: nat)
    requires f < |g| && g[f].ptr
    ensures !Bounded(g, f)
  {
    assert From(g, f, [f]) && !Good(g, [f]);
  }

  /** A function met again below itself is on a cycle. */
  lemma RecursionUnbounded(g: Graph, parents: seq<nat>, f: nat)
    requires Path(g, parents + [f]) && f in parents
    ensures !Bounded(g, f)
  {
    var i :| 0 <= i < |parents| && parents[i] == f;
    PathCut(g, parents + [f], i);
    Repeats((parents + [f])[i..], f);
    assert From(g, f, (parents + [f])[i..]);
  }

  lemma Repeats(p: seq<nat>, f: nat)
    requires |p| > 1 && p[0] == f && Last(p) == f
    ensures !Distinct(p)
  {
    assert p[1..][|p| - 2] == f;
  }

  /** With all callees bounded and no pointer call, the function is bounded: a path that came
      back to it would take one of its callees through a cycle. */
  lemma CallerBounded(g: Graph, f: nat)
    requires WellFormed(g) && f < |g| && !g[f].ptr && forall c :: c in g[f].calls ==> Bounded(g, c)
    ensures Bounded(g, f)
  {
    forall p | From(g, f, p) ensures Good(g, p) {
      if |p| == 1 {
        assert p[1..] == [];
      } else {
        var c, q := p[1], p[1..];
        assert From(g, c, q) && Good(g, q) && Last(p) == Last(q);
        if f in q {
          var i :| 0 <= i < |q| && q[i] == f;
          PathCut(g, q, i);
          var r := q[..i + 1] + [c];
          PathSnoc(g, q[..i + 1], c);
          assert r[1..][|r| - 2] == c;
          assert From(g, c, r);
          assert false;
        }
      }
    }
  }

  /** The largest sum is the function's own stack and the most that any callee needs. */
  lemma CallerLargest(g: Graph, f: nat, most: nat, of: seq<nat>)
    requires WellFormed(g) && f < |g| && |of| == |g[f].calls|
    requires forall i :: 0 <= i < |of| ==> Largest(g, g[f].calls[i], of[i]) && of[i] <= most
    requires if of == [] then most == 0 else most in of
    ensures Largest(g, f, g[f].stack + most)
  {
    forall p | From(g, f, p) ensures Sum(g, p) <= g[f].stack + most {
      if |p| == 1 {
        assert p[1..] == [];
      } else {
        var i :| 0 <= i < |g[f].calls| && g[f].calls[i] == p[1];
        assert From(g, g[f].calls[i], p[1..]) && of[i] <= most;
      }
    }
    if of == [] {
      assert From(g, f, [f]) && Sum(g, [f]) == g[f].stack by { assert [f][1..] == []; }
    } else {
      var i :| 0 <= i < |of| && of[i] == most;
      var q :| From(g, g[f].calls[i], q) && Sum(g, q) == most;
      PathCons(g, f, q);
    }
  }

  /** Some function reachable from `f` calls `u`, which is not known. */
  ghost predicate Misses(g: Graph, f: nat, u: string) {
    exists p :: From(g, f, p) && EndsIn(g, p, u)
  }

  ghost predicate EndsIn(g: Graph, p: seq<nat>, u: string)
    requires p != []
  {
    Last(p) < |g| && u in g[Last(p)].unknown
  }

  lemma CallerMisses(g: Graph, f: nat, u: string)
    requires WellFormed(g) && f < |g|
    ensures Misses(g, f, u) <==> u in g[f].unknown || exists c :: c in g[f].calls && Misses(g, c, u)
  {
    if u in g[f].unknown { assert From(g, f, [f]) && EndsIn(g, [f], u); }
    if c :| c in g[f].calls && Misses(g, c, u) {
      var q :| From(g, c, q) && EndsIn(g, q, u);
      PathCons(g, f, q);
      assert EndsIn(g, [f] + q, u);
    }
    if Misses(g, f, u) && u !in g[f].unknown {
      var p :| From(g, f, p) && EndsIn(g, p, u);
      assert |p| > 1 && From(g, p[1], p[1..]) && EndsIn(g, p[1..], u);
    }
  }

  ghost predicate Names(g: Graph, f: nat, names: set<string>) {
    forall u :: u in names <==> Misses(g, f, u)
  }

  // --------------------------------------------------------------------------------
  // The search
  // --------------------------------------------------------------------------------

  /** What is recorded for `f` is right, and if nothing is recorded and `f` is not being worked
      on, its unresolved calls are still its own. */
  ghost predicate Entry(g: Graph, wcs: map<nat, Wcs>, unresolved: seq<set<string>>, parents: seq<nat>, f: nat)
    requires f < |g| == |unresolved|
  {
    && (f in wcs ==> Truth(g, f, wcs[f]) && (wcs[f].Size? ==> Names(g, f, unresolved[f])))
    && (f !in wcs && f !in parents ==> unresolved[f] == g[f].unknown)
  }

  ghost predicate Memo(g: Graph, wcs: map<nat, Wcs>, unresolved: seq<set<string>>, parents: seq<nat>) {
    |g| == |unresolved| && WellFormed(g) && forall f :: 0 <= f < |g| ==> Entry(g, wcs, unresolved, parents, f)
  }

  /** Nothing already recorded has changed, nor the names collected by those still at work; of
      the latter, only members of cycles have been recorded. */
  ghost predicate Kept(
    parents: seq<nat>, wcs0: map<nat, Wcs>, un0: seq<set<string>>, wcs: map<nat, Wcs>, un: seq<set<string>>)
  {
    && |un| == |un0|
    && (forall f :: f in wcs0 ==> f in wcs && wcs[f] == wcs0[f])
    && (forall f :: 0 <= f < |un| && (f in wcs0 || f in parents) ==> un[f] == un0[f])
    && (forall f :: f in parents && f in wcs && f !in wcs0 ==> wcs[f].Unbounded?)
  }

  /** The `k` first callees of `f` are known to be bounded; `most` is the most any needs, and
      `names` are the unknown names of `f` and of those callees. */
  ghost predicate Half(g: Graph, wcs: map<nat, Wcs>, f: nat, k: nat, most: nat, names: set<string>)
    requires f < |g| && k <= |g[f].calls|
  {
    && (forall i :: 0 <= i < k ==> Callee(wcs, g[f].calls[i], most))
    && (if k == 0 then most == 0
        else exists i :: 0 <= i < k && g[f].calls[i] in wcs && wcs[g[f].calls[i]] == Size(most))
    && (forall u :: u in names <==> u in g[f].unknown || exists i :: 0 <= i < k && Misses(g, g[f].calls[i], u))
  }

  ghost predicate Callee(wcs: map<nat, Wcs>, c: nat, most: nat) {
    c in wcs && wcs[c].Size? && wcs[c].bytes <= most
  }

  lemma HalfKept(
    g: Graph, parents: seq<nat>, wcs0: map<nat, Wcs>, un0: seq<set<string>>, wcs: map<nat, Wcs>, un: seq<set<string>>,
    f: nat, k: nat, most: nat, names: set<string>)
    requires f < |g| && k <= |g[f].calls| && Half(g, wcs0, f, k, most, names) && Kept(parents, wcs0, un0, wcs, un)
    ensures Half(g, wcs, f, k, most, names)
  {
    forall i | 0 <= i < k ensures Callee(wcs, g[f].calls[i], most) { assert Callee(wcs0, g[f].calls[i], most); }
  }

  lemma HalfNext(
    g: Graph, wcs: map<nat, Wcs>, un: seq<set<string>>, parents: seq<nat>, f: nat, k: nat, most: nat,
    names: set<string>)
    requires Memo(g, wcs, un, parents) && f < |g| && k < |g[f].calls| && Half(g, wcs, f, k, most, names)
    requires var c := g[f].calls[k]; c < |g| && c in wcs && wcs[c].Size?
    ensures var c := g[f].calls[k];
      Half(g, wcs, f, k + 1, if most < wcs[c].bytes then wcs[c].bytes else most, names + un[c])
  {
    var c := g[f].calls[k];
    assert Entry(g, wcs, un, parents, c);
    var m := if most < wcs[c].bytes then wcs[c].bytes else most;
    forall i | 0 <= i < k + 1 ensures Callee(wcs, g[f].calls[i], m) {
      if i < k { assert Callee(wcs, g[f].calls[i], most); }
    }
    if k > 0 && m == most {
      var i :| 0 <= i < k && g[f].calls[i] in wcs && wcs[g[f].calls[i]] == Size(most);
    }
  }

  /** All callees done: `f` is bounded, and its sum and names are complete. */
  lemma HalfDone(
    g: Graph, wcs: map<nat, Wcs>, un: seq<set<string>>, parents: seq<nat>, f: nat, most: nat, names: set<string>)
    requires Memo(g, wcs, un, parents) && f < |g| && !g[f].ptr && Half(g, wcs, f, |g[f].calls|, most, names)
    ensures Truth(g, f, Size(g[f].stack + most)) && Names(g, f, names)
  {
    var calls := g[f].calls;
    var of := seq(|calls|, i requires 0 <= i < |calls| =>
      if calls[i] in wcs && wcs[calls[i]].Size? then wcs[calls[i]].bytes else 0);
    forall i | 0 <= i < |calls|
      ensures Bounded(g, calls[i]) && Largest(g, calls[i], of[i]) && of[i] <= most
    {
      assert calls[i] in calls && Callee(wcs, calls[i], most) && Entry(g, wcs, un, parents, calls[i]);
    }
    if calls != [] {
      var i :| 0 <= i < |calls| && calls[i] in wcs && wcs[calls[i]] == Size(most);
      assert of[i] == most;
    }
    CallerBounded(g, f);
    CallerLargest(g, f, most, of);
    forall u ensures u in names <==> Misses(g, f, u) {
      CallerMisses(g, f, u);
      if c :| c in calls && Misses(g, c, u) {
        var i :| 0 <= i < |calls| && calls[i] == c;
      }
    }
  }

  /** Where the loop over the calls of `f` stands after `k` of them. */
  ghost predicate Halfway(
    g: Graph, parents: seq<nat>, f: nat, k: nat, callMax: nat,
    wcs0: map<nat, Wcs>, un0: seq<set<string>>, wcs: map<nat, Wcs>, un: seq<set<string>>)
  {
    && Memo(g, wcs, un, parents + [f]) && f < |g| && k <= |g[f].calls|
    && Half(g, wcs, f, k, callMax, un[f]) && Kept(parents, wcs0, un0, wcs, un)
    && f !in wcs0 && f !in parents && (f in wcs ==> wcs[f].Unbounded?)
  }

  lemma HalfwayKept(
    g: Graph, parents: seq<nat>, f: nat, k: nat, callMax: nat,
    wcs0: map<nat, Wcs>, un0: seq<set<string>>, w: map<nat, Wcs>, u: seq<set<string>>, wcs: map<nat, Wcs>,
    un: seq<set<string>>)
    requires Halfway(g, parents, f, k, callMax, wcs0, un0, w, u)
    requires Memo(g, wcs, un, parents + [f]) && Kept(parents + [f], w, u, wcs, un)
    ensures Halfway(g, parents, f, k, callMax, wcs0, un0, wcs, un)
  {
    KeptTrans(parents, f, wcs0, un0, w, u, wcs, un);
    HalfKept(g, parents + [f], w, u, wcs, un, f, k, callMax, un[f]);
  }

  lemma HalfwayNext(
    g: Graph, parents: seq<nat>, f: nat, k: nat, callMax: nat,
    wcs0: map<nat, Wcs>, un0: seq<set<string>>, wcs: map<nat, Wcs>, un: seq<set<string>>)
    requires Halfway(g, parents, f, k, callMax, wcs0, un0, wcs, un) && k < |g[f].calls|
    requires var c := g[f].calls[k]; c < |g| && c in wcs && wcs[c].Size?
    ensures var c := g[f].calls[k];
      Halfway(g, parents, f, k + 1, if callMax < wcs[c].bytes then wcs[c].bytes else callMax,
              wcs0, un0, wcs, un[f := un[f] + un[c]])
  {
    var c := g[f].calls[k];
    HalfNext(g, wcs, un, parents + [f], f, k, callMax, un[f]);
    MemoNames(g, wcs, un, parents + [f], f, un[f] + un[c]);
  }

  class Analysis {
    const g: Graph
    var wcs: map<nat, Wcs>
    var unresolved: seq<set<string>>
    var parents: seq<nat>

    ghost predicate Valid()
      reads this
    {
      Memo(g, wcs, unresolved, parents)
    }

    /** The graph as `resolve_all_calls` leaves it: only manual entries have a result. */
    constructor (graph: Graph)
      requires WellFormed(graph)
      ensures Valid() && g == graph && parents == []
    {
      g := graph;
      wcs := map f | 0 <= f < |graph| && graph[f].manual :: Size(graph[f].stack);
      unresolved := seq(|graph|, f requires 0 <= f < |graph| => graph[f].unknown);
      parents := [];
      new;
      forall f | 0 <= f < |g| ensures Entry(g, wcs, unresolved, parents, f) {
        if g[f].manual { HalfDone0(g, f); }
      }
    }

    /** `calc_wcs` */
    method Calc(f: nat)
      requires Valid() && f < |g| && Distinct(parents) && Path(g, parents + [f])
      modifies this
      ensures Valid() && f in wcs && parents == old(parents)
      ensures Kept(parents, old(wcs), old(unresolved), wcs, unresolved)
      decreases |g| - |parents|, 2
    {
      assert Entry(g, wcs, unresolved, parents, f);
      if f in wcs {
        return;
      }
      if g[f].ptr {
        PointerUnbounded(g, f);
        Record(f, Unbounded);
        return;
      }
      if f in parents {
        RecursionUnbounded(g, parents, f);
        Record(f, Unbounded);
        return;
      }
      CalcCalls(f);
    }

    /** The loop of `calc_wcs` over the resolved calls of `f`; the list of parents carries `f`
        during each call only, which is when it is looked at. */
    method CalcCalls(f: nat)
      requires Valid() && f < |g| && Distinct(parents) && Path(g, parents + [f])
      requires f !in wcs && f !in parents && !g[f].ptr
      modifies this
      ensures Valid() && f in wcs && parents == old(parents)
      ensures Kept(parents, old(wcs), old(unresolved), wcs, unresolved)
      decreases |g| - |parents|, 1
    {
      var callMax: nat, k := 0, 0;
      AtWork(g, parents, f);
      assert Entry(g, wcs, unresolved, parents, f);
      MemoParents(g, wcs, unresolved, parents, f);
      while k < |g[f].calls|
        invariant parents == old(parents)
        invariant Halfway(g, parents, f, k, callMax, old(wcs), old(unresolved), wcs, unresolved)
      {
        var c := g[f].calls[k];
        Descend(f, k, callMax, old(wcs), old(unresolved));
        if wcs[c].Unbounded? {
          CalleeUnbounded(g, f, c);
          Finish(f, Unbounded);
          return;
        }
        HalfwayNext(g, parents, f, k, callMax, old(wcs), old(unresolved), wcs, unresolved);
        if callMax < wcs[c].bytes {
          callMax := wcs[c].bytes;
        }
        unresolved := unresolved[f := unresolved[f] + unresolved[c]];
        k := k + 1;
      }
      HalfDone(g, wcs, unresolved, parents + [f], f, callMax, unresolved[f]);
      assert Entry(g, wcs, unresolved, parents + [f], f);
      Finish(f, Size(callMax + g[f].stack));
    }

    /** One callee, with `f` on the list of parents meanwhile */
    method Descend(f: nat, k: nat, ghost callMax: nat, ghost wcs0: map<nat, Wcs>, ghost un0: seq<set<string>>)
      requires Distinct(parents + [f]) && |parents| < |g| && f < |g| && Path(g, parents + [f]) && k < |g[f].calls|
      requires Halfway(g, parents, f, k, callMax, wcs0, un0, wcs, unresolved)
      modifies this
      ensures parents == old(parents) && Halfway(g, parents, f, k, callMax, wcs0, un0, wcs, unresolved)
      ensures var c := g[f].calls[k]; c < |g| && c in g[f].calls && c in wcs && Truth(g, c, wcs[c])
      decreases |g| - |parents|, 0
    {
      var c := g[f].calls[k];
      assert c in g[f].calls;
      ghost var w, u := wcs, unresolved;
      PathSnoc(g, parents + [f], c);
      parents := parents + [f];
      Calc(c);
      HalfwayKept(g, old(parents), f, k, callMax, wcs0, un0, w, u, wcs, unresolved);
      assert Entry(g, wcs, unresolved, parents, c);
      parents := parents[..|parents| - 1];
    }

    method Finish(f: nat, v: Wcs)
      requires Memo(g, wcs, unresolved, parents + [f]) && f < |g| && Truth(g, f, v)
      requires v.Size? ==> Names(g, f, unresolved[f])
      modifies this`wcs
      ensures Valid() && wcs == old(wcs)[f := v]
    {
      RecordMemo(g, wcs, unresolved, parents + [f], f, v, unresolved[f]);
      assert unresolved[f := unresolved[f]] == unresolved;
      wcs := wcs[f := v];
      MemoParents(g, wcs, unresolved, parents, f);
    }

    /** `calc_all_wcs`, in whatever order the functions come */
    method CalcAll(order: seq<nat>)
      requires Valid() && parents == [] && forall f :: f in order ==> f < |g|
      modifies this
      ensures Valid() && parents == []
      ensures forall f :: f in order ==>
        f in wcs && Truth(g, f, wcs[f]) && (wcs[f].Size? ==> Names(g, f, unresolved[f]))
    {
      for k := 0 to |order|
        invariant Valid() && parents == []
        invariant forall i :: 0 <= i < k ==> order[i] in wcs
      {
        assert order[k] in order;
        assert parents + [order[k]] == [order[k]];
        Calc(order[k]);
      }
      forall f | f in order ensures f in wcs && Truth(g, f, wcs[f]) && (wcs[f].Size? ==> Names(g, f, unresolved[f])) {
        assert Entry(g, wcs, unresolved, parents, f);
      }
    }

    /** `fxn_dict2['wcs'] = v` for a right answer */
    method Record(f: nat, v: Wcs)
      requires Valid() && f < |g| && f !in wcs && Truth(g, f, v) && v.Unbounded?
      modifies this`wcs
      ensures Valid() && wcs == old(wcs)[f := v]
    {
      RecordMemo(g, wcs, unresolved, parents, f, v, unresolved[f]);
      assert unresolved[f := unresolved[f]] == unresolved;
      wcs := wcs[f := v];
    }
  }

  /** Recording a right answer and the names that go with it. */
  lemma RecordMemo(
    g: Graph, wcs: map<nat, Wcs>, un: seq<set<string>>, parents: seq<nat>, f: nat, v: Wcs, names: set<string>)
    requires Memo(g, wcs, un, parents) && f < |g| && Truth(g, f, v) && (v.Size? ==> Names(g, f, names))
    ensures Memo(g, wcs[f := v], un[f := names], parents)
  {
    var w, n := wcs[f := v], un[f := names];
    forall h | 0 <= h < |g| ensures Entry(g, w, n, parents, h) { assert Entry(g, wcs, un, parents, h); }
  }

  /** A function put on the list of those at work, or taken off it once it is recorded. */
  lemma MemoParents(g: Graph, wcs: map<nat, Wcs>, un: seq<set<string>>, parents: seq<nat>, f: nat)
    ensures Memo(g, wcs, un, parents) ==> Memo(g, wcs, un, parents + [f])
    ensures Memo(g, wcs, un, parents + [f]) && f in wcs ==> Memo(g, wcs, un, parents)
  {
    if Memo(g, wcs, un, parents) {
      forall h | 0 <= h < |g| ensures Entry(g, wcs, un, parents + [f], h) { assert Entry(g, wcs, un, parents, h); }
    }
    if Memo(g, wcs, un, parents + [f]) && f in wcs {
      forall h | 0 <= h < |g| ensures Entry(g, wcs, un, parents, h) { assert Entry(g, wcs, un, parents + [f], h); }
    }
  }

  /** Names may be added to a function that is at work. */
  lemma MemoNames(g: Graph, wcs: map<nat, Wcs>, un: seq<set<string>>, parents: seq<nat>, f: nat, names: set<string>)
    requires Memo(g, wcs, un, parents) && f < |g| && f in parents && (f in wcs ==> wcs[f].Unbounded?)
    ensures Memo(g, wcs, un[f := names], parents)
  {
    var n := un[f := names];
    forall h | 0 <= h < |g| ensures Entry(g, wcs, n, parents, h) { assert Entry(g, wcs, un, parents, h); }
  }

  lemma KeptTrans(
    parents: seq<nat>, f: nat, wcs0: map<nat, Wcs>, un0: seq<set<string>>, wcs1: map<nat, Wcs>, un1: seq<set<string>>,
    wcs2: map<nat, Wcs>, un2: seq<set<string>>)
    requires Kept(parents, wcs0, un0, wcs1, un1) && Kept(parents + [f], wcs1, un1, wcs2, un2)
    ensures Kept(parents, wcs0, un0, wcs2, un2)
    ensures f < |un2| ==> un2[f] == un1[f]
    ensures f in wcs2 ==> (f in wcs1 && wcs2[f] == wcs1[f]) || wcs2[f].Unbounded?
  {
    assert forall h :: h in parents ==> h in parents + [f];
    assert f in parents + [f];
  }

  /** Those at work are different functions of the graph, so there is an end to going deeper. */
  lemma AtWork(g: Graph, parents: seq<nat>, f: nat)
    requires Path(g, parents + [f]) && Distinct(parents) && f !in parents
    ensures Distinct(parents + [f]) && |parents| < |g|
  {
    var p := parents + [f];
    DistinctSnoc(parents, f);
    forall x | x in p ensures x < |g| {
      var i :| 0 <= i < |p| && p[i] == x;
      PathCut(g, p, i);
    }
    DistinctFits(p, |g|);
  }

  /** A function that calls nothing. */
  lemma HalfDone0(g: Graph, f: nat)
    requires WellFormed(g) && f < |g| && !g[f].ptr && g[f].calls == []
    ensures Truth(g, f, Size(g[f].stack)) && Names(g, f, g[f].unknown)
  {
    CallerBounded(g, f);
    CallerLargest(g, f, 0, []);
    forall u ensures u in g[f].unknown <==> Misses(g, f, u) { CallerMisses(g, f, u); }
  }
}
