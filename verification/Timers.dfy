/** The hard timers as timer.c keeps them: 32-bit ticks compared with wrapping subtraction,
    and a skip list of any number of rows.  Every operation is proved against TimerSpec,
    where the clock is unbounded and there is one list.
 */
module Timers {
  import opened Lists
  import opened SkipRows
  import opened TimerSpec

  const WORD: nat := 0x1_0000_0000

  /** Subtraction of `rt_tick_t` */
  function Sub32(a: nat, b: nat): (r: nat)
    ensures r < WORD
  {
    (a - b) % WORD
  }

  /** Wrapped ticks less than half a wrap apart compare like the unbounded ones. */
  lemma WrapCompare(x: nat, y: nat)
    requires x < y + HALF && y <= x + HALF
    ensures Sub32(x % WORD, y % WORD) == 0 <==> x == y
    ensures 0 < Sub32(x % WORD, y % WORD) < HALF <==> x > y
  {
    var d := x - y;
    var q := x / WORD - y / WORD;
    assert x % WORD - y % WORD == d - q * WORD;
    assert q == 0 || q == 1 || q == -1;
    assert (x % WORD - y % WORD) % WORD == d % WORD;
  }

  /** The test of the expiry loop, for deadlines that are timely */
  lemma WrapDue(now: nat, a: Arming)
    requires Timely(now, a)
    ensures Sub32(now % WORD, Deadline(a) % WORD) < HALF <==> Deadline(a) <= now
  {
    WrapCompare(now, Deadline(a));
  }

  function Ids(q: seq<Arming>): seq<nat> {
    seq(|q|, i requires 0 <= i < |q| => q[i].timer)
  }

  ghost function DueMap(q: seq<Arming>): (m: map<nat, nat>)
    ensures forall a :: a in q ==> a.timer in m
  {
    if q == [] then map[] else DueMap(q[1..])[q[0].timer := Deadline(q[0])]
  }

  lemma {:induction false} DueMapAt(q: seq<Arming>, a: Arming)
    requires OneEach(q) && a in q
    ensures a.timer in DueMap(q) && DueMap(q)[a.timer] == Deadline(a)
  {
    if a != q[0] {
      var j :| 0 <= j < |q| && q[j] == a;
      assert q[0].timer != a.timer && q[1..][j - 1] == a;
      DueMapAt(q[1..], a);
    }
  }

  lemma IdsIn(q: seq<Arming>)
    ensures forall x :: x in Ids(q) <==> exists a :: a in q && a.timer == x
  {
    forall x | x in Ids(q) ensures exists a :: a in q && a.timer == x {
      var i :| 0 <= i < |Ids(q)| && Ids(q)[i] == x;
      assert q[i] in q;
    }
    forall a | a in q ensures a.timer in Ids(q) {
      var i :| 0 <= i < |q| && q[i] == a;
      assert Ids(q)[i] == a.timer;
    }
  }

  /** The bottom row of a sorted queue is ascending and free of repetitions. */
  lemma {:induction false} BottomRow(q: seq<Arming>, due: map<nat, nat>)
    requires Sorted(q) && OneEach(q) && forall a :: a in q ==> a.timer in due && due[a.timer] == Deadline(a)
    ensures Ascending(Ids(q), due) && Distinct(Ids(q))
  {
    if q != [] {
      assert Ids(q)[1..] == Ids(q[1..]);
      BottomRow(q[1..], due);
      IdsIn(q[1..]);
      assert q[0] in q;
      forall x | x in Ids(q)[1..] ensures x in due && due[q[0].timer] <= due[x] && x != q[0].timer {
        var a :| a in q[1..] && a.timer == x;
        var j :| 0 <= j < |q[1..]| && q[1..][j] == a;
        assert q[j + 1] == a && Before(q[0], q[j + 1]);
      }
    }
  }

  /** A linear scan of the bottom row finds the place in the queue. */
  lemma {:induction false} BottomPlace(q: seq<Arming>, due: map<nat, nat>, d: nat)
    requires forall a :: a in q ==> a.timer in due && due[a.timer] == Deadline(a)
    ensures (forall x :: x in Ids(q) ==> x in due) && PlaceIn(Ids(q), due, d) == Place(q, d)
  {
    IdsIn(q);
    if q != [] {
      assert q[0] in q && Ids(q)[1..] == Ids(q[1..]);
      BottomPlace(q[1..], due, d);
    }
  }

  lemma {:induction false} DropIds(q: seq<Arming>, t: nat)
    ensures Ids(Drop(q, t)) == Without(Ids(q), t)
  {
    if q != [] {
      assert Ids(q)[1..] == Ids(q[1..]);
      DropIds(q[1..], t);
      IdsCons(q[0], Drop(q[1..], t));
    }
  }

  lemma IdsCons(a: Arming, q: seq<Arming>)
    ensures Ids([a] + q) == [a.timer] + Ids(q)
  {
  }

  // --------------------------------------------------------------------------------
  // Rows
  // --------------------------------------------------------------------------------

  ghost predicate Nested(rows: seq<seq<nat>>) {
    forall l :: 0 <= l < |rows| - 1 ==> NestedAt(rows, l)
  }

  ghost predicate NestedAt(rows: seq<seq<nat>>, l: nat)
    requires l + 1 < |rows|
  {
    Subrow(rows[l], rows[l + 1])
  }

  /** Every row inherits order and membership from the bottom one. */
  lemma {:induction false} RowFacts(rows: seq<seq<nat>>, due: map<nat, nat>, l: nat)
    requires Nested(rows) && l < |rows| && Ascending(rows[|rows| - 1], due)
    ensures Ascending(rows[l], due) && forall x :: x in rows[l] ==> x in due && x in rows[|rows| - 1]
    decreases |rows| - l
  {
    if l == |rows| - 1 {
      AscendingIn(rows[l], due);
    } else {
      RowFacts(rows, due, l + 1);
      KeepAscending(rows[l + 1], Elems(rows[l]), due);
      assert NestedAt(rows, l);
    }
  }

  /** Stepping down from the place in row `l` does not overshoot in the row below. */
  lemma DescendRows(rows: seq<seq<nat>>, due: map<nat, nat>, d: nat, l: nat)
    requires Nested(rows) && l + 1 < |rows| && Ascending(rows[|rows| - 1], due)
    requires forall x :: x in rows[l] ==> x in due
    ensures forall x :: x in rows[l + 1] ==> x in due
    ensures var i := PlaceIn(rows[l], due, d);
      i > 0 ==> rows[l][i - 1] in rows[l + 1] && IndexOf(rows[l + 1], rows[l][i - 1]) < PlaceIn(rows[l + 1], due, d)
  {
    RowFacts(rows, due, l + 1);
    assert NestedAt(rows, l);
    DescendIsShort(rows[l], rows[l + 1], due, d);
  }

  function UnlinkRows(rows: seq<seq<nat>>, t: nat): seq<seq<nat>> {
    seq(|rows|, l requires 0 <= l < |rows| => Without(rows[l], t))
  }

  lemma UnlinkNested(rows: seq<seq<nat>>, t: nat)
    requires Nested(rows)
    ensures Nested(UnlinkRows(rows, t))
  {
    forall l | 0 <= l < |rows| - 1 ensures NestedAt(UnlinkRows(rows, t), l) {
      assert NestedAt(rows, l);
      SubrowWithout(rows[l], rows[l + 1], t);
    }
  }

  function LinkAt(row: seq<nat>, i: nat, t: nat): seq<nat>
    requires i <= |row|
  {
    row[..i] + [t] + row[i..]
  }

  /** The counter without its `k` lowest digits to base 4 */
  function Digit(n: nat, k: nat): nat {
    if k == 0 then n else Digit(n, k - 1) / 4
  }

  /** How high a node is linked: one row up for each of the lowest digits of the counter that is zero,
      up to the first that is not. */
  ghost predicate Reaches(n: nat, levels: nat, h: nat) {
    && h < levels && (forall i :: 0 <= i < levels - 1 - h ==> Digit(n, i) % 4 == 0)
    && (h > 0 ==> Digit(n, levels - 1 - h) % 4 != 0)
  }

  predicate HeadsFit(rows: seq<seq<nat>>, heads: seq<nat>) {
    |heads| == |rows| && forall l :: 0 <= l < |rows| ==> heads[l] <= |rows[l]|
  }

  /** A node linked into every row from `h` down. */
  function LinkFrom(rows: seq<seq<nat>>, heads: seq<nat>, t: nat, h: nat): seq<seq<nat>>
    requires HeadsFit(rows, heads)
  {
    seq(|rows|, l requires 0 <= l < |rows| => if l < h then rows[l] else LinkAt(rows[l], heads[l], t))
  }

  /** `i` is the place of due time `d` in the row. */
  ghost predicate HeadAt(row: seq<nat>, i: nat, due: map<nat, nat>, d: nat) {
    (forall x :: x in row ==> x in due) && i == PlaceIn(row, due, d) && i <= |row|
  }

  ghost predicate HeadBound(row: seq<nat>, i: nat, due: map<nat, nat>, d: nat) {
    i == 0 || ((forall x :: x in row ==> x in due) && i <= PlaceIn(row, due, d))
  }

  ghost predicate HeadsAt(rows: seq<seq<nat>>, heads: seq<nat>, due: map<nat, nat>, d: nat) {
    HeadsFit(rows, heads) && forall l :: 0 <= l < |rows| ==> HeadAt(rows[l], heads[l], due, d)
  }

  /** The stored timeout of `x` is its due time wrapped, within half a wrap of `d`. */
  ghost predicate Comparable(timeout: map<nat, nat>, x: nat, due: map<nat, nat>, d: nat) {
    x in due && x in timeout && timeout[x] == due[x] % WORD && due[x] < d + HALF && d <= due[x] + HALF
  }

  lemma LinkNested(rows: seq<seq<nat>>, heads: seq<nat>, due: map<nat, nat>, d: nat, t: nat, h: nat)
    requires Nested(rows) && h < |rows| && Ascending(rows[|rows| - 1], due)
    requires t !in rows[|rows| - 1] && HeadsAt(rows, heads, due, d)
    ensures Nested(LinkFrom(rows, heads, t, h))
  {
    var next := LinkFrom(rows, heads, t, h);
    forall l | 0 <= l < |next| - 1 ensures NestedAt(next, l) {
      LinkRows(rows, heads, due, d, t, l);
      LinkedPair(rows, heads, t, h, l);
    }
  }

  lemma LinkedPair(rows: seq<seq<nat>>, heads: seq<nat>, t: nat, h: nat, l: nat)
    requires HeadsFit(rows, heads) && l + 1 < |rows| && Subrow(rows[l], rows[l + 1])
    requires Subrow(LinkAt(rows[l], heads[l], t), LinkAt(rows[l + 1], heads[l + 1], t))
    requires Subrow(rows[l], LinkAt(rows[l + 1], heads[l + 1], t))
    ensures NestedAt(LinkFrom(rows, heads, t, h), l)
  {
    LinkFromAt(rows, heads, t, h, l);
    LinkFromAt(rows, heads, t, h, l + 1);
  }

  lemma LinkFromAt(rows: seq<seq<nat>>, heads: seq<nat>, t: nat, h: nat, l: nat)
    requires HeadsFit(rows, heads) && l < |rows|
    ensures LinkFrom(rows, heads, t, h)[l] == if l < h then rows[l] else LinkAt(rows[l], heads[l], t)
  {
  }

  lemma LinkRows(rows: seq<seq<nat>>, heads: seq<nat>, due: map<nat, nat>, d: nat, t: nat, l: nat)
    requires Nested(rows) && l + 1 < |rows| && Ascending(rows[|rows| - 1], due)
    requires t !in rows[|rows| - 1] && HeadsAt(rows, heads, due, d)
    ensures Subrow(LinkAt(rows[l], heads[l], t), LinkAt(rows[l + 1], heads[l + 1], t))
    ensures Subrow(rows[l], LinkAt(rows[l + 1], heads[l + 1], t)) && Subrow(rows[l], rows[l + 1])
  {
    assert NestedAt(rows, l);
    assert HeadAt(rows[l], heads[l], due, d) && HeadAt(rows[l + 1], heads[l + 1], due, d);
    RowFacts(rows, due, l);
    RowFacts(rows, due, l + 1);
    LinkPair(rows[l], rows[l + 1], heads[l], heads[l + 1], due, d, t);
  }

  /** Two adjacent rows stay nested whether the new node reaches the upper one or not. */
  lemma LinkPair(a: seq<nat>, b: seq<nat>, i: nat, j: nat, due: map<nat, nat>, d: nat, t: nat)
    requires Subrow(a, b) && Ascending(b, due) && t !in a && t !in b
    requires HeadAt(a, i, due, d) && HeadAt(b, j, due, d)
    ensures Subrow(LinkAt(a, i, t), LinkAt(b, j, t)) && Subrow(a, LinkAt(b, j, t))
  {
    SubrowInsert(a, b, due, d, t);
    SubrowBelow(a, b, j, t);
  }

  /** What the queue says about the bottom row, for a timer about to be started. */
  lemma StartFacts(s: State, t: nat, d: nat, timeout: map<nat, nat>)
    requires Inv(s) && s.now <= d < s.now + HALF
    requires forall a :: a in s.queue ==> a.timer != t && a.timer in timeout && timeout[a.timer] == Deadline(a) % WORD
    ensures var due, row := DueMap(s.queue), Ids(s.queue);
      && Ascending(row, due) && t !in row
      && (forall x :: x in row ==> Comparable(timeout, x, due, d))
      && PlaceIn(row, due, d) == Place(s.queue, d)
  {
    var q := s.queue;
    var due := DueMap(q);
    forall b | b in q ensures due[b.timer] == Deadline(b) { DueMapAt(q, b); }
    BottomRow(q, due);
    BottomPlace(q, due, d);
    IdsIn(q);
    forall x | x in Ids(q) ensures Comparable(timeout, x, due, d) && x != t {
      var b :| b in q && b.timer == x;
      assert Queued(s, b);
    }
  }

  // --------------------------------------------------------------------------------
  // The timer list
  // --------------------------------------------------------------------------------

  /** Stored timeouts are the deadlines, wrapped. */
  ghost predicate Timed(q: seq<Arming>, timeout: map<nat, nat>) {
    forall a :: a in q ==> a.timer in timeout && timeout[a.timer] == Deadline(a) % WORD
  }

  /** The concrete fields say what the abstract state says. */
  ghost predicate Linked(
    s: State, tick: nat, timers: map<nat, Timer>, timeout: map<nat, nat>, rows: seq<seq<nat>>, held: set<nat>)
  {
    && Inv(s) && s.timers == timers && s.held == held && tick == s.now % WORD
    && rows != [] && Nested(rows) && rows[|rows| - 1] == Ids(s.queue)
    && Timed(s.queue, timeout)
  }

  class TimerList {
    /** `rt_tick` */
    var tick: nat
    var timers: map<nat, Timer>
    /** `timer->timeout_tick` */
    var timeout: map<nat, nat>
    /** `_timer_list`, the sparsest row first */
    var rows: seq<seq<nat>>
    /** `random_nr` of `rt_timer_start` */
    var random: nat
    /** The local list of `rt_timer_check` */
    var held: set<nat>
    ghost var spec: State

    ghost predicate Valid()
      reads this
    {
      Linked(spec, tick, timers, timeout, rows, held)
    }

    /** `RT_TIMER_SKIP_LIST_LEVEL` empty rows and no timer started */
    constructor (levels: nat, all: map<nat, Timer>, now: nat)
      requires levels >= 1 && forall t :: t in all ==> ValidTimer(all[t])
      ensures Valid() && Quiet(spec) && |rows| == levels
      ensures spec == State(now, all, [], [], [], [], {})
    {
      tick, timers, timeout, rows, random, held := now % WORD, all, map[], seq(levels, _ => []), 0, {};
      spec := State(now, all, [], [], [], [], {});
    }

    /** `_timer_remove` */
    method RemoveTimer(t: nat)
      requires Valid()
      modifies this`rows, this`held, this`spec
      ensures Valid() && spec == Unqueue(old(spec), t) && |rows| == |old(rows)|
    {
      UnqueueInv(spec, t);
      UnlinkNested(rows, t);
      DropIds(spec.queue, t);
      rows := UnlinkRows(rows, t);
      held := held - {t};
      spec := Unqueue(spec, t);
    }

    /** The inner loop of `rt_timer_start`: along one row, from anywhere not past the place. */
    method ScanRow(row: seq<nat>, start: nat, timeoutTick: nat, ghost due: map<nat, nat>, ghost d: nat)
      returns (i: nat)
      requires Ascending(row, due) && timeoutTick == d % WORD
      requires forall x :: x in row ==> Comparable(timeout, x, due, d)
      requires start <= PlaceIn(row, due, d)
      ensures i == PlaceIn(row, due, d)
    {
      i := start;
      while i < |row|
        invariant start <= i <= PlaceIn(row, due, d)
      {
        var x := row[i];
        assert x in row && Comparable(timeout, x, due, d);
        WrapCompare(due[x], d);
        PlaceSeparates(row, due, d, i);
        var diff := Sub32(timeout[x], timeoutTick);
        if diff == 0 {
          // an equal timer is passed, so that ties fire in starting order
        } else if diff < HALF {
          break;
        }
        i := i + 1;
      }
    }

    /** The nested loops of `rt_timer_start`: for any number of rows, going down row by row
        lands where a linear scan of each row would. */
    method Search(timeoutTick: nat, ghost due: map<nat, nat>, ghost d: nat) returns (heads: seq<nat>)
      requires rows != [] && Nested(rows) && Ascending(rows[|rows| - 1], due) && timeoutTick == d % WORD
      requires forall x :: x in rows[|rows| - 1] ==> Comparable(timeout, x, due, d)
      ensures HeadsAt(rows, heads, due, d)
    {
      var n := |rows|;
      heads := [];
      var start: nat := 0;
      for l := 0 to n
        invariant |heads| == l && forall k :: 0 <= k < l ==> HeadAt(rows[k], heads[k], due, d)
        invariant l < n ==> HeadBound(rows[l], start, due, d)
      {
        var i;
        i, start := SearchRow(l, start, timeoutTick, due, d);
        heads := heads + [i];
      }
    }

    /** One row of the search, and where it goes on in the row below. */
    method SearchRow(l: nat, start: nat, timeoutTick: nat, ghost due: map<nat, nat>, ghost d: nat)
      returns (i: nat, below: nat)
      requires Nested(rows) && l < |rows| && Ascending(rows[|rows| - 1], due) && timeoutTick == d % WORD
      requires forall x :: x in rows[|rows| - 1] ==> Comparable(timeout, x, due, d)
      requires HeadBound(rows[l], start, due, d)
      ensures HeadAt(rows[l], i, due, d)
      ensures l + 1 < |rows| ==> HeadBound(rows[l + 1], below, due, d)
    {
      RowFacts(rows, due, l);
      i := ScanRow(rows[l], start, timeoutTick, due, d);
      assert HeadAt(rows[l], i, due, d);
      below := 0;
      if l + 1 < |rows| && i > 0 {
        DescendRows(rows, due, d, l);
        below := IndexOf(rows[l + 1], rows[l][i - 1]) + 1;
      }
    }

    /** The tail of `rt_timer_start`: into the bottom row, and up as far as the counter says. */
    method LinkTimer(t: nat, heads: seq<nat>, ghost due: map<nat, nat>, ghost d: nat)
      requires rows != [] && Nested(rows) && Ascending(rows[|rows| - 1], due) && t !in rows[|rows| - 1]
      requires HeadsAt(rows, heads, due, d)
      modifies this`rows, this`random
      ensures Nested(rows) && random == (old(random) + 1) % WORD
      ensures exists h :: Reaches(random, |old(rows)|, h) && rows == LinkFrom(old(rows), heads, t, h)
    {
      random := (random + 1) % WORD;
      ghost var before := rows;
      ghost var h := LinkUp(t, heads);
      LinkNested(before, heads, due, d, t, h);
    }

    /** The loop over the rows, the bottom one first */
    method LinkUp(t: nat, heads: seq<nat>) returns (ghost top: nat)
      requires rows != [] && HeadsFit(rows, heads)
      modifies this`rows
      ensures Reaches(random, |old(rows)|, top) && rows == LinkFrom(old(rows), heads, t, top)
    {
      ghost var before := rows;
      var bits := random;
      var h: nat := |rows| - 1;
      rows := rows[h := LinkAt(rows[h], heads[h], t)];
      while h > 0 && bits % 4 == 0
        invariant 0 <= h < |before| && rows == LinkFrom(before, heads, t, h)
        invariant bits == Digit(random, |before| - 1 - h)
        invariant forall i :: 0 <= i < |before| - 1 - h ==> Digit(random, i) % 4 == 0
      {
        h := h - 1;
        rows := rows[h := LinkAt(rows[h], heads[h], t)];
        bits := bits / 4;
      }
      top := h;
    }

    /** `rt_timer_start` */
    method StartTimer(t: nat)
      requires Valid() && t in timers
      modifies this
      ensures Valid() && spec == Arm(old(spec), t) && |rows| == |old(rows)| && tick == old(tick)
    {
      ghost var s := spec;
      Relink(t);
      ArmInv(s, t);
      ArmedFields(s, t);
      spec := Arm(s, t);
    }

    /** The changes to the rows and the timer: out wherever it stood, in at its place. */
    method Relink(t: nat)
      requires Valid() && t in timers
      modifies this
      ensures tick == old(tick) && held == old(held) - {t}
      ensures timers == old(timers)[t := old(timers)[t].(active := true)]
      ensures Timed(Arm(old(spec), t).queue, timeout)
      ensures |rows| == |old(rows)| && Nested(rows) && rows[|rows| - 1] == Ids(Arm(old(spec), t).queue)
    {
      ghost var s := spec;
      ghost var d := s.now + s.timers[t].period;
      assert ValidTimer(timers[t]);
      UnqueueInv(spec, t);
      RemoveTimer(t);
      QueueTimed(s, t, timeout);
      StartFacts(spec, t, d, timeout);
      InsertTimer(t, spec.queue, spec.now, d);
      ArmedRow(s, t);
    }

    /** The part of `rt_timer_start` after the removal. */
    method InsertTimer(t: nat, ghost q: seq<Arming>, ghost now: nat, ghost d: nat)
      requires t in timers && tick == now % WORD && d == now + timers[t].period
      requires rows != [] && Nested(rows) && rows[|rows| - 1] == Ids(q)
      requires Ascending(Ids(q), DueMap(q)) && t !in Ids(q)
      requires forall x :: x in Ids(q) ==> Comparable(timeout, x, DueMap(q), d)
      requires PlaceIn(Ids(q), DueMap(q), d) == Place(q, d)
      modifies this`timeout, this`timers, this`rows, this`random
      ensures timeout == old(timeout)[t := d % WORD]
      ensures timers == old(timers)[t := old(timers)[t].(active := true)]
      ensures |rows| == |old(rows)| && Nested(rows)
      ensures rows[|rows| - 1] == LinkAt(Ids(q), Place(q, d), t)
    {
      var timeoutTick := (tick + timers[t].period) % WORD;
      assert timeoutTick == d % WORD;
      timeout := timeout[t := timeoutTick];
      assert forall x :: x in Ids(q) ==> Comparable(timeout, x, DueMap(q), d);
      var heads := Search(timeoutTick, DueMap(q), d);
      LinkTimer(t, heads, DueMap(q), d);
      timers := timers[t := timers[t].(active := true)];
    }

    /** `rt_timer_stop` */
    method StopTimer(t: nat) returns (ok: bool)
      requires Valid() && t in timers
      modifies this
      ensures Valid() && spec == Disarm(old(spec), t) && ok == old(timers[t].active) && |rows| == |old(rows)|
    {
      DoInv(spec, Stop(t));
      if !timers[t].active {
        return false;
      }
      RemoveTimer(t);
      timers := timers[t := timers[t].(active := false)];
      spec := Disarm(old(spec), t);
      return true;
    }

    /** One call of a thread or of a callback, `rt_timer_control` included */
    method Execute(c: Command)
      requires Valid() && Allowed(spec, c)
      modifies this
      ensures Valid() && spec == Do(old(spec), c) && |rows| == |old(rows)| && tick == old(tick)
    {
      DoInv(spec, c);
      match c {
        case Start(t) => StartTimer(t);
        case Stop(t) => var _ := StopTimer(t);
        case SetTime(t, ticks) =>
          timers := timers[t := timers[t].(period := ticks)];
          spec := Do(spec, c);
        case SetMode(t, periodic) =>
          timers := timers[t := timers[t].(periodic := periodic)];
          spec := Do(spec, c);
      }
    }

    method ExecuteAll(cmds: seq<Command>)
      requires Valid() && Scripted(spec.timers.Keys, cmds)
      modifies this
      ensures Valid() && spec == DoAll(old(spec), cmds) && |rows| == |old(rows)| && tick == old(tick)
      decreases |cmds|
    {
      if cmds != [] {
        DoInv(spec, cmds[0]);
        Execute(cmds[0]);
        ExecuteAll(cmds[1..]);
      }
    }

    /** `rt_timer_check`: the loop ends when the unbounded clock's expiry loop does, and does what
        that does. */
    method CheckTimers(script: seq<seq<Command>>)
      requires Valid() && held == {} && ScriptedAll(spec.timers.Keys, script) && Ends(spec, script)
      modifies this
      ensures Valid() && spec == Check(old(spec), script) && |rows| == |old(rows)| && tick == old(tick)
    {
      var rest := script;
      while rows[|rows| - 1] != []
        invariant Valid() && held == {} && |rows| == |old(rows)| && tick == old(tick)
        invariant ScriptedAll(spec.timers.Keys, rest) && Ends(spec, rest)
        invariant Check(spec, rest) == Check(old(spec), script)
        decreases Rounds(spec, rest)
      {
        var t := rows[|rows| - 1][0];
        HeadFacts();
        if !(Sub32(tick, timeout[t]) < HALF) {
          break;
        }
        CheckRound(spec, rest);
        Expire(t, Script(rest));
        rest := Later(rest);
      }
      assert !Expired(spec);
    }

    /** `rt_tick_increase`, the clock and the timers; the clock wraps. */
    method TickIncrease(script: seq<seq<Command>>)
      requires Valid() && Quiet(spec) && ScriptedAll(spec.timers.Keys, script)
      requires (AdvanceInv(spec); Ends(Advance(spec), script))
      modifies this
      ensures Valid() && spec == Tick(old(spec), script) && |rows| == |old(rows)|
    {
      AdvanceInv(spec);
      tick := (tick + 1) % WORD;
      spec := Advance(spec);
      CheckTimers(script);
    }

    /** The wrapped test of the first timer is the unbounded one. */
    lemma HeadFacts()
      requires Valid() && rows[|rows| - 1] != []
      ensures spec.queue != [] && rows[|rows| - 1][0] == spec.queue[0].timer
      ensures spec.queue[0].timer in timeout && spec.queue[0].timer in timers
      ensures Sub32(tick, timeout[spec.queue[0].timer]) < HALF <==> Expired(spec)
    {
      assert spec.queue[0] in spec.queue && Queued(spec, spec.queue[0]);
      WrapDue(spec.now, spec.queue[0]);
    }

    /** One round of the expiry loop */
    method Expire(t: nat, cmds: seq<Command>)
      requires Valid() && held == {} && Expired(spec) && t == spec.queue[0].timer && Scripted(spec.timers.Keys, cmds)
      modifies this
      ensures Valid() && held == {} && spec == Round(old(spec), cmds) && |rows| == |old(rows)| && tick == old(tick)
    {
      TakeFirst(t);
      ExecuteAll(cmds);
      Release(t);
    }

    /** After the callback of timer `t` */
    method Release(t: nat)
      requires Valid() && held <= {t} && t in timers
      modifies this
      ensures Valid() && held == {} && spec == Settle(old(spec), t) && |rows| == |old(rows)| && tick == old(tick)
    {
      SettleInv(spec, t);
      if t !in held {
        return;
      }
      ReleaseInv(spec);
      held := held - {t};
      spec := spec.(held := {});
      if timers[t].periodic && timers[t].active {
        StartTimer(t);
      }
    }

    /** The first timer leaves every row for the loop's own list. */
    method TakeFirst(t: nat)
      requires Valid() && held == {} && Expired(spec) && t == spec.queue[0].timer
      modifies this
      ensures Valid() && Queued(old(spec), old(spec).queue[0]) && spec == Fire(old(spec))
      ensures |rows| == |old(rows)| && tick == old(tick)
    {
      FirstUnlinked(spec, rows, timeout);
      rows := UnlinkRows(rows, t);
      timers := timers[t := timers[t].(active := timers[t].active && timers[t].periodic)];
      held := {t};
      spec := Fire(spec);
    }
  }

  /** Stored timeouts are right after an insertion too. */
  lemma QueueTimed(s: State, t: nat, timeout: map<nat, nat>)
    requires Inv(s) && t in s.timers && Timed(Unqueue(s, t).queue, timeout)
    ensures Timed(Arm(s, t).queue, timeout[t := (s.now + s.timers[t].period) % WORD])
  {
    UnqueueInv(s, t);
    ArmedQueue(s, t);
    ArmedTimed(Unqueue(s, t).queue, Arm(s, t).queue, timeout, t, s.now + s.timers[t].period);
  }

  lemma ArmedRow(s: State, t: nat)
    requires |s.fate| == |s.armings| && t in s.timers
    ensures var q, d := Unqueue(s, t).queue, s.now + s.timers[t].period;
      Ids(Arm(s, t).queue) == LinkAt(Ids(q), Place(q, d), t)
  {
    ArmedQueue(s, t);
  }

  lemma ArmedFields(s: State, t: nat)
    requires |s.fate| == |s.armings| && t in s.timers
    ensures Arm(s, t).timers == s.timers[t := s.timers[t].(active := true)]
    ensures Arm(s, t).held == s.held - {t} && Arm(s, t).now == s.now
  {
  }

  /** Unlinking the first timer from every row leaves the rest of the queue in the bottom row. */
  lemma FirstUnlinked(s: State, rows: seq<seq<nat>>, timeout: map<nat, nat>)
    requires Inv(s) && Expired(s) && rows != [] && Nested(rows) && rows[|rows| - 1] == Ids(s.queue)
    requires Timed(s.queue, timeout)
    ensures Queued(s, s.queue[0]) && Inv(Fire(s)) && Timed(Fire(s).queue, timeout)
    ensures var next := UnlinkRows(rows, s.queue[0].timer); Nested(next) && next[|next| - 1] == Ids(Fire(s).queue)
  {
    FireInv(s);
    FirstLeaves(s);
    UnlinkNested(rows, s.queue[0].timer);
    BottomDistinct(s);
    WithoutFront(Ids(s.queue));
    assert Ids(Fire(s).queue) == Ids(s.queue)[1..];
  }

  lemma ReleaseInv(s: State)
    requires Inv(s)
    ensures Inv(s.(held := {}))
  {
    var r := s.(held := {});
    forall a | a in s.queue ensures Queued(r, a) { assert Queued(s, a); }
    forall k | 0 <= k < |s.armings| ensures OnTime(r, k) { assert OnTime(s, k); }
  }

  /** The queue and the bottom row after a start. */
  lemma ArmedQueue(s: State, t: nat)
    requires |s.fate| == |s.armings| && t in s.timers
    ensures var q, d := Unqueue(s, t).queue, s.now + s.timers[t].period;
      && Ids(Arm(s, t).queue) == LinkAt(Ids(q), Place(q, d), t)
      && forall a :: a in Arm(s, t).queue ==> a in q || (a.timer == t && Deadline(a) == d)
  {
    var q := Unqueue(s, t).queue;
    LinkIds(q, Arming(|s.armings|, t, s.now, s.timers[t].period), Place(q, s.now + s.timers[t].period));
  }

  lemma ArmedTimed(q: seq<Arming>, r: seq<Arming>, timeout: map<nat, nat>, t: nat, d: nat)
    requires Timed(q, timeout) && forall a :: a in q ==> a.timer != t
    requires forall a :: a in r ==> a in q || (a.timer == t && Deadline(a) == d)
    ensures Timed(r, timeout[t := d % WORD])
  {
  }

  lemma LinkIds(q: seq<Arming>, a: Arming, i: nat)
    requires i <= |q|
    ensures Ids(q[..i] + [a] + q[i..]) == LinkAt(Ids(q), i, a.timer)
    ensures forall b :: b in q[..i] + [a] + q[i..] ==> b in q || b == a
  {
    assert q == q[..i] + q[i..];
  }

  lemma BottomDistinct(s: State)
    requires Inv(s)
    ensures Distinct(Ids(s.queue))
  {
    forall b | b in s.queue ensures DueMap(s.queue)[b.timer] == Deadline(b) { DueMapAt(s.queue, b); }
    BottomRow(s.queue, DueMap(s.queue));
  }
}
