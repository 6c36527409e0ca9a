/** The memory heap of memheap.c: a ring of blocks in address order, and a doubly linked list of
    the free ones.  Offsets count from the start of the pool.
 */
module Memheap {
  import opened Wrappers
  import opened Lists
  import opened HeapChain
  import opened FreeList

  /** `RT_MEMHEAP_SIZE` on a 32-bit machine, and `RT_MEMHEAP_MINIALLOC` */
  const HDR: nat := 24
  const MINI: nat := 12

  datatype Item = Item(used: bool, next: nat, prev: nat)

  /** The data size a request is served with. */
  function Need(size: nat): (n: nat)
    ensures n % 4 == 0 && n >= MINI && n >= size
  {
    var a := (size + 3) / 4 * 4;
    if a < MINI then MINI else a
  }

  /** A size that is rounded already stays as it is. */
  lemma NeedTwice(n: nat)
    requires n % 4 == 0 && n >= MINI
    ensures Need(n) == n
  {
  }

  // --------------------------------------------------------------------------------
  // The ring of blocks
  // --------------------------------------------------------------------------------

  function NextOf(offs: seq<nat>, i: nat): nat
    requires i < |offs|
  {
    if i + 1 < |offs| then offs[i + 1] else offs[0]
  }

  function PrevOf(offs: seq<nat>, i: nat): nat
    requires i < |offs|
  {
    if i > 0 then offs[i - 1] else offs[|offs| - 1]
  }

  /** Header `i` knows its neighbours in the ring and whether its block is used. */
  ghost predicate ItemOk(h: map<nat, Item>, offs: seq<nat>, free: set<nat>, i: nat)
    requires i < |offs|
  {
    offs[i] in h && h[offs[i]] == Item(offs[i] !in free, NextOf(offs, i), PrevOf(offs, i))
  }

  /** Block `i` has room for its header. */
  ghost predicate Room(offs: seq<nat>, i: nat)
    requires i + 1 < |offs|
  {
    offs[i] + HDR <= offs[i + 1]
  }

  /** The ring tiles the pool from 0 to the tail block at `end`, which is never free. */
  ghost predicate Blocks(h: map<nat, Item>, offs: seq<nat>, free: set<nat>, end: nat) {
    && Tiled(offs, end) && (forall x :: x in free ==> x in offs && x != end)
    && (forall i :: 0 <= i < |offs| - 1 ==> Room(offs, i))
    && (forall i :: 0 <= i < |offs| ==> ItemOk(h, offs, free, i))
  }

  /** Blocks `i` and `i + 1` are not both free. */
  ghost predicate Parted(offs: seq<nat>, free: set<nat>, i: nat)
    requires i + 1 < |offs|
  {
    offs[i] !in free || offs[i + 1] !in free
  }

  ghost predicate AllParted(offs: seq<nat>, free: set<nat>) {
    forall i :: 0 <= i < |offs| - 1 ==> Parted(offs, free, i)
  }

  /** Summed data size of the free blocks */
  ghost function FreeData(offs: seq<nat>, free: set<nat>): int {
    BlockSum(offs, free, HDR)
  }

  lemma IndexOf(offs: seq<nat>, x: nat) returns (i: nat)
    requires x in offs
    ensures i < |offs| && offs[i] == x
  {
    i :| 0 <= i < |offs| && offs[i] == x;
  }

  /** Block `i`, its neighbours and its extent. */
  lemma BlockAt(h: map<nat, Item>, offs: seq<nat>, free: set<nat>, end: nat, i: nat)
    requires Blocks(h, offs, free, end) && i + 1 < |offs|
    ensures ItemOk(h, offs, free, i) && ItemOk(h, offs, free, i + 1) && Room(offs, i) && Sound(offs, i)
    ensures offs[i] in offs && offs[i + 1] in offs && offs[i] < offs[i + 1] <= end
    ensures offs[i + 1] == end <==> i + 2 == |offs|
  {
    SameIndex(offs, end, i, i + 1);
    SameIndex(offs, end, i + 1, |offs| - 1);
    assert ItemOk(h, offs, free, i) && ItemOk(h, offs, free, i + 1) && Room(offs, i) && Sound(offs, i);
  }

  // --------------------------------------------------------------------------------
  // Joining a block to the one before it, and dividing a block
  // --------------------------------------------------------------------------------

  function Joined(h: map<nat, Item>, a: nat, b: nat): map<nat, Item>
    requires a in h && b in h && h[b].next in h
  {
    var h1 := h[a := h[a].(next := h[b].next)];
    h1[h[b].next := h1[h[b].next].(prev := a)]
  }

  lemma JoinedItem(h: map<nat, Item>, offs: seq<nat>, free: set<nat>, end: nat, i: nat, k: nat)
    requires Blocks(h, offs, free, end) && 0 < i < |offs| - 1 && k < |offs| - 1
    requires offs[i - 1] in h && offs[i] in h && h[offs[i]].next in h
    ensures ItemOk(Joined(h, offs[i - 1], offs[i]), Cut(offs, i), free - {offs[i]}, k)
  {
    var m := if k < i then k else k + 1;
    assert ItemOk(h, offs, free, m) && ItemOk(h, offs, free, i);
    assert ItemOk(h, offs, free, i - 1) && ItemOk(h, offs, free, i + 1);
    SameIndex(offs, end, m, i - 1);
    SameIndex(offs, end, m, i);
    SameIndex(offs, end, m, i + 1);
    SameIndex(offs, end, i - 1, i + 1);
    var c := Cut(offs, i);
    assert c[k] == offs[m] && c[|c| - 1] == offs[|offs| - 1] && c[0] == offs[0];
    assert k + 1 < |c| ==> c[k + 1] == offs[if k + 1 < i then k + 1 else k + 2];
    assert k > 0 ==> c[k - 1] == offs[if k - 1 < i then k - 1 else k];
  }

  /** Block `i`, which is marked free, becomes part of the block before it. */
  lemma JoinedBlocks(h: map<nat, Item>, offs: seq<nat>, free: set<nat>, end: nat, i: nat)
    requires Blocks(h, offs, free, end) && 0 < i < |offs| - 1
    ensures offs[i - 1] in h && offs[i] in h && h[offs[i]].next in h
    ensures Blocks(Joined(h, offs[i - 1], offs[i]), Cut(offs, i), free - {offs[i]}, end)
  {
    BlockAt(h, offs, free, end, i);
    BlockAt(h, offs, free, end, i - 1);
    var r, c, f := Joined(h, offs[i - 1], offs[i]), Cut(offs, i), free - {offs[i]};
    CutTiled(offs, end, i);
    forall k | 0 <= k < |c| ensures ItemOk(r, c, f, k) { JoinedItem(h, offs, free, end, i, k); }
    forall k | 0 <= k < |c| - 1 ensures Room(c, k) {
      assert Room(offs, if k < i then k else k + 1);
    }
  }

  function Divided(h: map<nat, Item>, a: nat, m: nat): map<nat, Item>
    requires a in h && h[a].next in h && a != m
  {
    var h1 := h[m := Item(false, h[a].next, a)];
    var h2 := h1[h[a].next := h1[h[a].next].(prev := m)];
    h2[a := h2[a].(next := m)]
  }

  lemma DividedItem(h: map<nat, Item>, offs: seq<nat>, free: set<nat>, end: nat, i: nat, m: nat, k: nat)
    requires Blocks(h, offs, free, end) && i < |offs| - 1 && k < |offs| + 1 && m !in offs
    requires offs[i] in h && h[offs[i]].next in h && offs[i] != m
    ensures ItemOk(Divided(h, offs[i], m), Split(offs, i, m), free + {m}, k)
  {
    var c := Split(offs, i, m);
    BlockAt(h, offs, free, end, i);
    if k != i + 1 {
      var j := if k <= i then k else k - 1;
      assert ItemOk(h, offs, free, j) && offs[j] in offs;
      SameIndex(offs, end, j, i);
      SameIndex(offs, end, j, i + 1);
      assert c[k] == offs[j];
    }
    assert c[|c| - 1] == offs[|offs| - 1] && c[0] == offs[0];
  }

  /** Block `i` gives up its part from `m` on as a free block. */
  lemma DividedBlocks(h: map<nat, Item>, offs: seq<nat>, free: set<nat>, end: nat, i: nat, m: nat)
    requires Blocks(h, offs, free, end) && i < |offs| - 1 && m % 4 == 0 && offs[i] + HDR <= m && m + HDR <= offs[i + 1]
    ensures m !in offs && m != offs[i] && offs[i] in h && h[offs[i]].next in h
    ensures Blocks(Divided(h, offs[i], m), Split(offs, i, m), free + {m}, end)
    ensures forall x :: x in Split(offs, i, m) <==> x in offs || x == m
  {
    BlockAt(h, offs, free, end, i);
    InsideIsNew(offs, end, i, m);
    SplitTiled(offs, end, i, m);
    var r, c, f := Divided(h, offs[i], m), Split(offs, i, m), free + {m};
    forall k | 0 <= k < |c| ensures ItemOk(r, c, f, k) { DividedItem(h, offs, free, end, i, m, k); }
    forall k | 0 <= k < |c| - 1 ensures Room(c, k) {
      if k != i && k != i + 1 { assert Room(offs, if k < i then k else k - 1); }
    }
  }

  /** Turning block `i` used or free. */
  lemma MarkedBlocks(h: map<nat, Item>, offs: seq<nat>, free: set<nat>, end: nat, i: nat, used: bool)
    requires Blocks(h, offs, free, end) && i < |offs| - 1
    ensures offs[i] in h
    ensures Blocks(h[offs[i] := h[offs[i]].(used := used)], offs,
                   if used then free - {offs[i]} else free + {offs[i]}, end)
  {
    BlockAt(h, offs, free, end, i);
    var r, f := h[offs[i] := h[offs[i]].(used := used)], if used then free - {offs[i]} else free + {offs[i]};
    forall k | 0 <= k < |offs| ensures ItemOk(r, offs, f, k) {
      assert ItemOk(h, offs, free, k);
      SameIndex(offs, end, k, i);
    }
  }

  // --------------------------------------------------------------------------------
  // Free data
  // --------------------------------------------------------------------------------

  lemma SumMarked(offs: seq<nat>, free: set<nat>, end: nat, i: nat)
    requires Tiled(offs, end) && i < |offs| - 1 && offs[i] !in free
    ensures FreeData(offs, free + {offs[i]}) == FreeData(offs, free) + offs[i + 1] - offs[i] - HDR
  {
    var f := free + {offs[i]};
    forall j | 0 <= j < |offs| - 1 && j != i ensures offs[j] in free <==> offs[j] in f { SameIndex(offs, end, j, i); }
    BlockSumToggle(offs, free, f, i, HDR);
  }

  lemma SumDivided(offs: seq<nat>, free: set<nat>, end: nat, i: nat, m: nat)
    requires i < |offs| - 1 && Tiled(Split(offs, i, m), end) && m !in free
    ensures FreeData(Split(offs, i, m), free + {m}) ==
      FreeData(offs, free) - (if offs[i] in free then offs[i + 1] - m else 0) + offs[i + 1] - m - HDR
  {
    var c := Split(offs, i, m);
    BlockSumSplit(offs, free, i, m, HDR);
    assert c[i + 1] == m && c[i + 2] == offs[i + 1];
    SumMarked(c, free, end, i + 1);
  }

  lemma SumJoined(offs: seq<nat>, free: set<nat>, end: nat, i: nat)
    requires Tiled(offs, end) && 0 < i < |offs| - 1 && offs[i] in free
    ensures FreeData(Cut(offs, i), free - {offs[i]}) ==
      FreeData(offs, free) - (if offs[i - 1] in free then 0 else offs[i + 1] as int - offs[i]) + HDR
  {
    var c, f := Cut(offs, i), free - {offs[i]};
    assert Split(c, i - 1, offs[i]) == offs && c[i] == offs[i + 1];
    assert f + {offs[i]} == free;
    SameIndex(offs, end, i - 1, i);
    SumDivided(c, f, end, i - 1, offs[i]);
  }

  // --------------------------------------------------------------------------------
  // Neighbours
  // --------------------------------------------------------------------------------

  /** All pairs of neighbours are parted, except perhaps blocks `j` and `j + 1`. */
  ghost predicate PartedBut(offs: seq<nat>, free: set<nat>, j: nat) {
    forall k :: 0 <= k < |offs| - 1 && k != j ==> Parted(offs, free, k)
  }

  /** A block taken, with what is left of it free. */
  lemma TakenParted(offs: seq<nat>, free: set<nat>, i: nat, m: nat)
    requires i < |offs| - 1 && AllParted(offs, free) && offs[i] in free && m !in offs
    ensures AllParted(Split(offs, i, m), free + {m} - {offs[i]})
  {
    var c, f := Split(offs, i, m), free + {m} - {offs[i]};
    assert Parted(offs, free, i);
    forall k | 0 <= k < |c| - 1 ensures Parted(c, f, k) {
      if k < i { assert Parted(offs, free, k) && offs[k] in offs && offs[k + 1] in offs; }
      if k > i + 1 { assert Parted(offs, free, k - 1) && offs[k - 1] in offs && offs[k] in offs; }
      if k == i + 1 { assert offs[i + 1] in offs; }
    }
  }

  /** Dividing a used block: only the new free block and its successor may touch. */
  lemma DividedParted(offs: seq<nat>, free: set<nat>, i: nat, m: nat)
    requires i < |offs| - 1 && AllParted(offs, free) && offs[i] !in free && m !in offs
    ensures PartedBut(Split(offs, i, m), free + {m}, i + 1)
    ensures offs[i + 1] !in free ==> AllParted(Split(offs, i, m), free + {m})
  {
    var c, f := Split(offs, i, m), free + {m};
    assert offs[i] in offs && offs[i + 1] in offs;
    forall k | 0 <= k < |c| - 1 && (k != i + 1 || offs[i + 1] !in free) ensures Parted(c, f, k) {
      if k < i { assert Parted(offs, free, k) && offs[k] in offs && offs[k + 1] in offs; }
      if k > i + 1 { assert Parted(offs, free, k - 1) && offs[k - 1] in offs && offs[k] in offs; }
    }
  }

  /** Joining block `j + 1` to block `j` parts all, if it parted the rest before. */
  lemma JoinedParted(offs: seq<nat>, free: set<nat>, end: nat, j: nat)
    requires Tiled(offs, end) && j + 1 < |offs| - 1 && PartedBut(offs, free, j) && offs[j + 1] in free
    ensures AllParted(Cut(offs, j + 1), free - {offs[j + 1]})
  {
    var c, f := Cut(offs, j + 1), free - {offs[j + 1]};
    assert Parted(offs, free, j + 1);
    forall k | 0 <= k < |c| - 1 ensures Parted(c, f, k) {
      if k < j { assert Parted(offs, free, k); }
      if k > j { assert Parted(offs, free, k + 1); }
    }
  }

  /** A block turned free, after it has been joined to a free block before it, if any. */
  lemma FreedParted(offs: seq<nat>, free: set<nat>, end: nat, i: nat)
    requires Tiled(offs, end) && i < |offs| - 1 && AllParted(offs, free) && offs[i] !in free
    ensures (i == 0 || offs[i - 1] !in free) ==> PartedBut(offs, free + {offs[i]}, i)
    ensures i > 0 && offs[i - 1] in free ==>
      free + {offs[i]} - {offs[i]} == free && PartedBut(Cut(offs, i), free, i - 1)
  {
    var f, c := free + {offs[i]}, Cut(offs, i);
    forall k | 0 <= k < |offs| - 1 && k != i && k + 1 != i ensures Parted(offs, f, k) {
      assert Parted(offs, free, k);
      SameIndex(offs, end, k, i);
      SameIndex(offs, end, k + 1, i);
    }
    if i > 0 {
      SameIndex(offs, end, i - 1, i);
      assert offs[i - 1] !in free ==> Parted(offs, f, i - 1);
      forall k | 0 <= k < |c| - 1 && k != i - 1 ensures Parted(c, free, k) {
        assert Parted(offs, free, if k < i then k else k + 1);
      }
    }
  }

  lemma FewerParted(offs: seq<nat>, free: set<nat>, f: set<nat>)
    requires AllParted(offs, free) && f <= free
    ensures AllParted(offs, f)
  {
    forall k | 0 <= k < |offs| - 1 ensures Parted(offs, f, k) { assert Parted(offs, free, k); }
  }

  /** The blocks in `live` still start and end where they did. */
  ghost predicate Undisturbed(before: map<nat, Item>, after: map<nat, Item>, live: set<nat>) {
    forall x :: x in live ==> x in before && x in after && after[x].next == before[x].next
  }

  /** The used blocks, without the tail */
  ghost predicate LiveIs(offs: seq<nat>, free: set<nat>, end: nat, live: set<nat>) {
    forall x :: x in live <==> x in offs && x !in free && x != end
  }

  /** The free list holds exactly the free blocks. */
  ghost predicate Listed(next: map<int, int>, prev: map<int, int>, list: seq<nat>, free: set<nat>) {
    Ring(next, prev, list) && forall x :: x in list <==> x in free
  }

  /** Ring, free set, live set and available size agree, and free blocks keep apart. */
  ghost predicate State(h: map<nat, Item>, offs: seq<nat>, free: set<nat>, live: set<nat>, end: nat, avail: int) {
    && Blocks(h, offs, free, end) && AllParted(offs, free) && LiveIs(offs, free, end, live)
    && avail == FreeData(offs, free)
  }

  /** A free block taken, all of it. */
  lemma TakenWhole(h: map<nat, Item>, offs: seq<nat>, free: set<nat>, live: set<nat>, end: nat, avail: int, i: nat)
    requires State(h, offs, free, live, end, avail) && i < |offs| - 1 && offs[i] in free
    ensures offs[i] in h && Undisturbed(h, h[offs[i] := h[offs[i]].(used := true)], live)
    ensures State(h[offs[i] := h[offs[i]].(used := true)], offs, free - {offs[i]}, live + {offs[i]}, end,
                  avail - (offs[i + 1] - offs[i] - HDR))
  {
    BlockAt(h, offs, free, end, i);
    MarkedBlocks(h, offs, free, end, i, true);
    SumMarked(offs, free - {offs[i]}, end, i);
    assert free - {offs[i]} + {offs[i]} == free;
    FewerParted(offs, free, free - {offs[i]});
    LiveItems(h, offs, free, end, live);
  }

  lemma LiveItems(h: map<nat, Item>, offs: seq<nat>, free: set<nat>, end: nat, live: set<nat>)
    requires Blocks(h, offs, free, end) && LiveIs(offs, free, end, live)
    ensures forall x :: x in live ==> x in h
  {
    forall x | x in live ensures x in h {
      var k := IndexOf(offs, x);
      assert ItemOk(h, offs, free, k);
    }
  }

  /** A free block taken up to `m`; the rest stays free. */
  lemma TakenPart(
    h: map<nat, Item>, offs: seq<nat>, free: set<nat>, live: set<nat>, end: nat, avail: int, i: nat, m: nat)
    requires State(h, offs, free, live, end, avail) && i < |offs| - 1 && offs[i] in free
    requires m % 4 == 0 && offs[i] + HDR <= m && m + HDR <= offs[i + 1]
    ensures m !in offs && m != offs[i] && offs[i] in h && h[offs[i]].next in h
    ensures var a, d := offs[i], Divided(h, offs[i], m);
      var r := d[a := d[a].(used := true)];
      && State(r, Split(offs, i, m), free + {m} - {a}, live + {a}, end, avail - (m - a))
      && Undisturbed(h, r, live) && r[a].next == m
  {
    var a, c := offs[i], Split(offs, i, m);
    BlockAt(h, offs, free, end, i);
    DividedBlocks(h, offs, free, end, i, m);
    assert c[i] == a && c[i + 1] == m;
    MarkedBlocks(Divided(h, a, m), c, free + {m}, end, i, true);
    TakenParted(offs, free, i, m);
    SumDivided(offs, free, end, i, m);
    SumMarked(c, free + {m} - {a}, end, i);
    assert free + {m} - {a} + {a} == free + {m};
    LiveItems(h, offs, free, end, live);
  }

  /** As `State`, but block `j`, which is free, may touch a free block behind it. */
  ghost predicate Touching(
    h: map<nat, Item>, offs: seq<nat>, free: set<nat>, live: set<nat>, end: nat, avail: int, j: nat) {
    && Blocks(h, offs, free, end) && PartedBut(offs, free, j) && LiveIs(offs, free, end, live)
    && avail == FreeData(offs, free)
    && j < |offs| - 1 && offs[j] in free
  }

  /** A block given back whose predecessor is used, or the tail. */
  lemma FreedAlone(h: map<nat, Item>, offs: seq<nat>, free: set<nat>, live: set<nat>, end: nat, avail: int, i: nat)
    requires State(h, offs, free, live, end, avail) && i < |offs| - 1 && offs[i] in live
    requires i == 0 || offs[i - 1] !in free
    ensures offs[i] in h && Undisturbed(h, h[offs[i] := h[offs[i]].(used := false)], live - {offs[i]})
    ensures Touching(h[offs[i] := h[offs[i]].(used := false)], offs, free + {offs[i]}, live - {offs[i]}, end,
                     avail + (offs[i + 1] - offs[i] - HDR), i)
  {
    BlockAt(h, offs, free, end, i);
    MarkedBlocks(h, offs, free, end, i, false);
    FreedParted(offs, free, end, i);
    SumMarked(offs, free, end, i);
    LiveItems(h, offs, free, end, live);
  }

  /** A block given back and joined to the free block before it. */
  lemma FreedLeft(h: map<nat, Item>, offs: seq<nat>, free: set<nat>, live: set<nat>, end: nat, avail: int, i: nat)
    requires State(h, offs, free, live, end, avail) && 0 < i < |offs| - 1 && offs[i] in live && offs[i - 1] in free
    ensures offs[i] in h
    ensures var h1 := h[offs[i] := h[offs[i]].(used := false)];
      && offs[i - 1] in h1 && h1[offs[i]].next in h1
      && Touching(Joined(h1, offs[i - 1], offs[i]), Cut(offs, i), free, live - {offs[i]}, end,
                  avail + offs[i + 1] - offs[i], i - 1)
      && Undisturbed(h, Joined(h1, offs[i - 1], offs[i]), live - {offs[i]})
  {
    BlockAt(h, offs, free, end, i);
    MarkedBlocks(h, offs, free, end, i, false);
    var h1, f := h[offs[i] := h[offs[i]].(used := false)], free + {offs[i]};
    JoinedBlocks(h1, offs, f, end, i);
    FreedParted(offs, free, end, i);
    SumMarked(offs, free, end, i);
    SumJoined(offs, f, end, i);
    CutTiled(offs, end, i);
    SameIndex(offs, end, i - 1, i);
    LiveItems(h, offs, free, end, live);
  }

  /** A free block joined with the free block behind it. */
  lemma JoinedRight(h: map<nat, Item>, offs: seq<nat>, free: set<nat>, live: set<nat>, end: nat, avail: int, j: nat)
    requires Touching(h, offs, free, live, end, avail, j)
    ensures offs[j + 1] !in free ==> State(h, offs, free, live, end, avail)
    ensures offs[j] in h && offs[j + 1] in h && h[offs[j]].next == offs[j + 1]
    ensures (h[offs[j + 1]].used <==> offs[j + 1] !in free)
    ensures offs[j + 1] in free ==> h[offs[j + 1]].next in h && h[offs[j + 1]].next != offs[j] && offs[j + 1] != offs[j]
    ensures offs[j + 1] in free ==>
      && State(Joined(h, offs[j], offs[j + 1]), Cut(offs, j + 1), free - {offs[j + 1]}, live, end, avail + HDR)
      && Undisturbed(h, Joined(h, offs[j], offs[j + 1]), live)
  {
    BlockAt(h, offs, free, end, j);
    if offs[j + 1] in free {
      BlockAt(h, offs, free, end, j + 1);
      JoinedBlocks(h, offs, free, end, j + 1);
      JoinedParted(offs, free, end, j);
      SumJoined(offs, free, end, j + 1);
      CutTiled(offs, end, j + 1);
      LiveItems(h, offs, free, end, live);
    } else {
      forall k | 0 <= k < |offs| - 1 ensures Parted(offs, free, k) { }
    }
  }

  /** A used block takes over the whole free block behind it. */
  lemma Swallowed(h: map<nat, Item>, offs: seq<nat>, free: set<nat>, live: set<nat>, end: nat, avail: int, i: nat)
    requires State(h, offs, free, live, end, avail) && i < |offs| - 1 && offs[i] in live && offs[i + 1] in free
    ensures i + 2 < |offs| && offs[i + 2] !in free && offs[i] in h && offs[i + 1] in h
    ensures h[offs[i + 1]].next == offs[i + 2] && offs[i + 2] in h
    ensures offs[i] < offs[i + 1] < offs[i + 2] && h[offs[i + 1]].prev == offs[i]
    ensures State(Joined(h, offs[i], offs[i + 1]), Cut(offs, i + 1), free - {offs[i + 1]}, live, end,
                  avail - (offs[i + 2] - offs[i + 1] - HDR))
    ensures Undisturbed(h, Joined(h, offs[i], offs[i + 1]), live - {offs[i]})
  {
    BlockAt(h, offs, free, end, i);
    BlockAt(h, offs, free, end, i + 1);
    assert Parted(offs, free, i + 1);
    JoinedBlocks(h, offs, free, end, i + 1);
    JoinedParted(offs, free, end, i);
    SumJoined(offs, free, end, i + 1);
    CutTiled(offs, end, i + 1);
    LiveItems(h, offs, free, end, live);
  }

  /** A used block gives up its far end, which may touch a free block behind it. */
  lemma Shortened(
    h: map<nat, Item>, offs: seq<nat>, free: set<nat>, live: set<nat>, end: nat, avail: int, i: nat, m: nat)
    requires State(h, offs, free, live, end, avail) && i < |offs| - 1 && offs[i] in live
    requires m % 4 == 0 && offs[i] + HDR <= m && m + HDR <= offs[i + 1]
    ensures m !in offs && m != offs[i] && offs[i] in h && h[offs[i]].next == offs[i + 1]
    ensures offs[i + 1] in h && offs[i + 1] != offs[i]
    ensures Touching(Divided(h, offs[i], m), Split(offs, i, m), free + {m}, live, end,
                     avail + (offs[i + 1] - m - HDR), i + 1)
    ensures offs[i + 1] !in free ==>
      State(Divided(h, offs[i], m), Split(offs, i, m), free + {m}, live, end, avail + (offs[i + 1] - m - HDR))
    ensures Undisturbed(h, Divided(h, offs[i], m), live - {offs[i]}) && Divided(h, offs[i], m)[offs[i]].next == m
    ensures Split(offs, i, m)[i + 1] == m
  {
    BlockAt(h, offs, free, end, i);
    DividedBlocks(h, offs, free, end, i, m);
    DividedParted(offs, free, i, m);
    SumDivided(offs, free, end, i, m);
    LiveItems(h, offs, free, end, live);
  }

  /** The whole change to the ring when a block grows up to `m`. */
  lemma Grown(h: map<nat, Item>, offs: seq<nat>, free: set<nat>, live: set<nat>, end: nat, avail: int, i: nat, m: nat)
    requires State(h, offs, free, live, end, avail) && i < |offs| - 1 && offs[i] in live && offs[i + 1] in free
    requires m % 4 == 0 && offs[i + 1] <= m && offs[i] in h && offs[i + 1] in h && m + HDR <= h[offs[i + 1]].next
    ensures h[offs[i]].next == offs[i + 1] && h[offs[i + 1]].next in h
    ensures h[offs[i + 1]].next != offs[i] && offs[i + 1] != offs[i]
    ensures var h1 := Joined(h, offs[i], offs[i + 1]);
      && m != offs[i] && h1[offs[i]].next in h1 && h1[offs[i]].next != offs[i]
      && m !in free - {offs[i + 1]}
      && State(Divided(h1, offs[i], m), Split(Cut(offs, i + 1), i, m), free - {offs[i + 1]} + {m}, live, end,
               avail - (m - offs[i + 1]))
      && Undisturbed(h, Divided(h1, offs[i], m), live - {offs[i]}) && Divided(h1, offs[i], m)[offs[i]].next == m
  {
    BlockAt(h, offs, free, end, i);
    Swallowed(h, offs, free, live, end, avail, i);
    var h1, c, f := Joined(h, offs[i], offs[i + 1]), Cut(offs, i + 1), free - {offs[i + 1]};
    assert c[i] == offs[i] && c[i + 1] == offs[i + 2];
    Shortened(h1, c, f, live, end, avail - (offs[i + 2] - offs[i + 1] - HDR), i, m);
  }

  /** The whole change to the ring when a block shrinks to `m`, with a used or a free block
      behind it. */
  lemma Shrunk(h: map<nat, Item>, offs: seq<nat>, free: set<nat>, live: set<nat>, end: nat, avail: int, i: nat, m: nat)
    requires State(h, offs, free, live, end, avail) && i < |offs| - 1 && offs[i] in live
    requires m % 4 == 0 && offs[i] + HDR <= m && m + HDR <= offs[i + 1]
    ensures m != offs[i] && m !in free && offs[i] in h && h[offs[i]].next == offs[i + 1]
    ensures offs[i + 1] in h && offs[i + 1] != offs[i]
    ensures var d, c, b := Divided(h, offs[i], m), Split(offs, i, m), offs[i + 1];
      && m in d && d[m].next == b && b in d && b != m && (d[b].used <==> b !in free) && d[offs[i]].next == m
      && Undisturbed(h, d, live - {offs[i]})
      && (b !in free ==> State(d, c, free + {m}, live, end, avail + (b - m - HDR)))
      && (b in free ==>
          && d[b].next in d && d[b].next != m && d[b].next == h[b].next
          && Joined(d, m, b)[m].next == h[b].next
          && State(Joined(d, m, b), Cut(c, i + 2), free + {m} - {b}, live, end, avail + (b - m))
          && Undisturbed(h, Joined(d, m, b), live - {offs[i]}) && Joined(d, m, b)[offs[i]].next == m)
  {
    BlockAt(h, offs, free, end, i);
    Shortened(h, offs, free, live, end, avail, i, m);
    var d, c, b := Divided(h, offs[i], m), Split(offs, i, m), offs[i + 1];
    assert c[i + 1] == m && c[i + 2] == b;
    JoinedRight(d, c, free + {m}, live, end, avail + (b - m - HDR), i + 1);
  }

  /** When everything has been given back, the pool is one free block again. */
  lemma EmptiedPool(h: map<nat, Item>, offs: seq<nat>, free: set<nat>, live: set<nat>, end: nat, avail: int)
    requires State(h, offs, free, live, end, avail) && live == {}
    ensures offs == [0, end] && free == {0} && avail == end - HDR
  {
    assert offs[0] in offs && offs[1] in offs;
    SameIndex(offs, end, 0, |offs| - 1);
    SameIndex(offs, end, 1, |offs| - 1);
    assert Parted(offs, free, 0);
    assert offs == [0, end];
    forall x | x in free ensures x == 0 { }
    assert offs[1..] == [end] && BlockSum(offs[1..], free, HDR) == 0;
  }

  // --------------------------------------------------------------------------------
  // Contents
  // --------------------------------------------------------------------------------

  /** Block `x` holds the same data in `b` and `c`. */
  ghost predicate SameData(h: map<nat, Item>, b: seq<int>, c: seq<int>, x: nat) {
    && x in h && x + HDR <= h[x].next <= |b| && |b| == |c|
    && forall k :: x + HDR <= k < h[x].next ==> c[k] == b[k]
  }

  /** Live blocks lie in the pool and do not overlap. */
  lemma LiveApart(h: map<nat, Item>, offs: seq<nat>, free: set<nat>, live: set<nat>, end: nat, x: nat, y: nat)
    requires Blocks(h, offs, free, end) && LiveIs(offs, free, end, live) && x in live && y in live
    ensures x in h && y in h && x + HDR <= h[x].next <= end && y + HDR <= h[y].next <= end
    ensures x < y ==> h[x].next <= y
    ensures y < x ==> h[y].next <= x
  {
    var i := IndexOf(offs, x);
    var j := IndexOf(offs, y);
    SameIndex(offs, end, i, |offs| - 1);
    SameIndex(offs, end, j, |offs| - 1);
    BlockAt(h, offs, free, end, i);
    BlockAt(h, offs, free, end, j);
    SameIndex(offs, end, i, j);
    SameIndex(offs, end, i + 1, j);
    SameIndex(offs, end, j + 1, i);
  }

  /** Copying into a live block that is not in `before` leaves the data of those that are. */
  lemma CopyClear(
    g: map<nat, Item>, h: map<nat, Item>, offs: seq<nat>, free: set<nat>, before: set<nat>, end: nat, b: seq<int>,
    to: nat, from: nat, m: nat)
    requires Blocks(h, offs, free, end) && to !in before && LiveIs(offs, free, end, before + {to})
    requires end <= |b| && to in h && to + HDR + m <= h[to].next <= |b| && from + HDR + m <= |b|
    requires Undisturbed(g, h, before)
    ensures forall x :: x in before ==> SameData(g, b, Copied(b, to + HDR, from + HDR, m), x)
  {
    forall x | x in before ensures SameData(g, b, Copied(b, to + HDR, from + HDR, m), x) {
      LiveApart(h, offs, free, before + {to}, end, x, to);
    }
  }

  lemma MovedSet(before: set<nat>, from: nat, to: nat)
    requires from != to
    ensures before + {to} - {from} == before - {from} + {to}
  {
  }

  lemma DataInPool(h: map<nat, Item>, offs: seq<nat>, free: set<nat>, live: set<nat>, end: nat, b: seq<int>)
    requires Blocks(h, offs, free, end) && LiveIs(offs, free, end, live) && end <= |b|
    ensures forall x :: x in live ==> SameData(h, b, b, x)
  {
    forall x | x in live ensures SameData(h, b, b, x) { LiveApart(h, offs, free, live, end, x, x); }
  }

  class Heap {
    /** `pool_size` */
    const poolSize: nat
    var items: map<nat, Item>
    var nextFree: map<int, int>
    var prevFree: map<int, int>
    var available: int
    var maxUsed: int
    /** What the blocks hold, by offset; headers are kept apart from it. */
    var bytes: seq<int>
    /** `pool_size - available_size` after each change of it so far */
    ghost var history: seq<int>
    ghost var offs: seq<nat>
    ghost var free: set<nat>
    ghost var list: seq<nat>
    ghost var live: set<nat>

    ghost function End(): nat
      requires poolSize >= HDR
    {
      poolSize - HDR
    }

    ghost predicate Valid()
      reads this
    {
      && poolSize >= 2 * HDR && poolSize % 4 == 0
      && State(items, offs, free, live, End(), available) && Listed(nextFree, prevFree, list, free)
      && history != [] && history[|history| - 1] == poolSize - available && maxUsed == Peak(history)
      && |bytes| == poolSize
    }

    /** Data size of a block, `MEMITEM_SIZE` */
    function Data(x: nat): int
      requires x in items
      reads this`items
    {
      items[x].next - x - HDR
    }

    /** What is available right after block `x` has been taken out of the chain `before`: its data,
        and a header if it was split. */
    ghost function AfterTaking(x: nat, before: seq<nat>, avail: int): int
      requires x in items
      reads this`items
    {
      avail - Data(x) - (if items[x].next in before then 0 else HDR)
    }

    /** `rt_memheap_init` for an aligned size with room for two headers */
    constructor (size: nat, contents: seq<int>)
      requires size >= 2 * HDR && size % 4 == 0 && |contents| == size
      ensures Valid() && poolSize == size && live == {} && available == size - 2 * HDR && maxUsed == 2 * HDR
      ensures fresh(this) && offs == [0, size - HDR] && free == {0} && history == [2 * HDR] && bytes == contents
      ensures 0 in items && items[0].next == size - HDR
    {
      poolSize, bytes := size, contents;
      history := [2 * HDR];
      available := size - 2 * HDR;
      maxUsed := 2 * HDR;
      items := map[0 := Item(false, size - HDR, size - HDR), size - HDR := Item(true, 0, 0)];
      nextFree := map[HEAD := HEAD];
      prevFree := map[HEAD := HEAD];
      offs, free, list, live := [0, size - HDR], {0}, [], {};
      new;
      EmptyRing();
      Enlist(0);
      assert offs[1..][1..] == [] && BlockSum(offs[1..], free, HDR) == 0;
    }

    /** Insertion at the front of the free list */
    method Enlist(x: nat)
      requires Ring(nextFree, prevFree, list) && x !in list
      modifies this`nextFree, this`prevFree, this`list
      ensures Ring(nextFree, prevFree, list) && list == [x] + old(list)
    {
      PushRing(nextFree, prevFree, list, x);
      var first := nextFree[HEAD];
      nextFree := nextFree[x := first];
      prevFree := prevFree[x := HEAD];
      prevFree := prevFree[first := x];
      nextFree := nextFree[HEAD := x];
      list := [x] + list;
    }

    /** Removal from the free list */
    method Unlist(x: nat)
      requires Ring(nextFree, prevFree, list) && x in list
      modifies this`nextFree, this`prevFree, this`list
      ensures Ring(nextFree, prevFree, list) && list == Without(old(list), x)
    {
      RemoveRing(nextFree, prevFree, list, x);
      var n, p := nextFree[x], prevFree[x];
      prevFree := prevFree[n := p];
      nextFree := nextFree[p := n];
      list := Without(list, x);
    }

    /** The search loop of `rt_memheap_alloc` along the free list */
    method Search(n: nat) returns (header: int, freeSize: int)
      requires Valid() && n > 0
      ensures freeSize >= n ==> header in free && header in items && freeSize == Data(header)
      ensures freeSize >= n <==> exists x :: x in free && x in items && items[x].next - x - HDR >= n
      ensures freeSize >= n ==> FirstFit(items, list, n, header)
    {
      assert LinkOk(nextFree, prevFree, list, 0);
      header, freeSize := nextFree[HEAD], 0;
      ghost var k := 0;
      FreeItems(items, offs, free, End());
      while header != HEAD && freeSize < n
        invariant 0 <= k <= |list| && header == At(list, k) && PassedOver(list, k, n)
        invariant freeSize < n || (k < |list| && header in items && freeSize == Data(header))
        decreases |list| - k, if freeSize < n then 1 else 0
      {
        assert list[k] in free;
        freeSize := items[header].next - header - HDR;
        if freeSize < n {
          assert LinkOk(nextFree, prevFree, list, k + 1);
          header := nextFree[header];
          k := k + 1;
        }
      }
      if freeSize < n {
        forall x | x in free ensures x in items && Data(x) < n {
          var j :| 0 <= j < |list| && list[j] == x;
        }
      }
    }

    /** Less than all that is available is asked for, and some free block has it. */
    ghost predicate Grantable(h: map<nat, Item>, spare: set<nat>, avail: int, n: nat) {
      n < avail && exists x :: x in spare && x in h && h[x].next - x - HDR >= n
    }

    /** `x` is the first block of the free list that has `n` bytes. */
    ghost predicate FirstFit(h: map<nat, Item>, l: seq<nat>, n: nat, x: int) {
      exists k :: 0 <= k < |l| && l[k] == x && l[k] in h && h[l[k]].next - l[k] - HDR >= n
        && forall j :: 0 <= j < k ==> l[j] in h && h[l[j]].next - l[j] - HDR < n
    }

    /** The first block of the list that fits has become used, as large as asked for or without a rest
        worth splitting off; the other used blocks are undisturbed, and what is available has fallen
        by the data taken, and a header if the block was split. */
    ghost predicate Granted(
      h: map<nat, Item>, l: seq<nat>, o: seq<nat>, was: set<nat>, avail: int, n: nat, x: nat)
      reads this`items, this`live, this`available
    {
      && FirstFit(h, l, n, x) && x !in was && live == was + {x} && Undisturbed(h, items, was)
      && x in items && n <= Data(x) < n + HDR + MINI && available == AfterTaking(x, o, avail)
    }

    /** A block of a reallocation to `n` bytes is not moved: it has room, or the free block behind it
        has what is missing. */
    ghost predicate Stays(h: map<nat, Item>, x: nat, n: nat) {
      && x in h && h[x].next in h
      && (n <= h[x].next - x - HDR ||
          (!h[h[x].next].used && h[h[x].next].next - h[x].next - HDR + (h[x].next - x - HDR) > n + MINI))
    }

    /** When a reallocation stays, moves or fails, and how large the block is if it stays: as it was
        if what is over cannot be split off, and as asked for otherwise. */
    ghost predicate Decided(h: map<nat, Item>, spare: set<nat>, avail: int, x: nat, n: nat, r: Option<nat>)
      reads this`items
    {
      && x in h
      && (r == Some(x + HDR) <==> Stays(h, x, n))
      && (r.None? <==> !Stays(h, x, n) && !Grantable(h, spare, avail, n))
      && (r == Some(x + HDR) ==>
          && x in items
          && Data(x) == if n <= h[x].next - x - HDR <= n + HDR + MINI then h[x].next - x - HDR else n)
    }

    /** `rt_memheap_alloc`: the first block of the free list that fits, split if the rest can hold
        data.  A request for all that is available is refused, whatever its shape. */
    method Alloc(size: nat) returns (r: Option<nat>)
      requires Valid()
      modifies this`items, this`nextFree, this`prevFree, this`available, this`maxUsed, this`history
      modifies this`offs, this`free, this`list, this`live
      ensures Valid() && maxUsed == if old(maxUsed) < poolSize - available then poolSize - available else old(maxUsed)
      ensures bytes == old(bytes) && history == if r.Some? then old(history) + [poolSize - available] else old(history)
      ensures r.Some? <==> Grantable(old(items), old(free), old(available), Need(size))
      ensures r.Some? ==> r.value >= HDR
      ensures r.Some? ==>
        Granted(old(items), old(list), old(offs), old(live), old(available), Need(size), r.value - HDR)
      ensures r.None? ==> items == old(items) && offs == old(offs) && live == old(live) && free == old(free)
      ensures r.None? ==> available == old(available)
    {
      var n := Need(size);
      if n >= available {
        return None;
      }
      var header, freeSize := Search(n);
      if freeSize < n {
        return None;
      }
      TakeBlock(header, n, freeSize);
      UpdateMax();
      r := Some(header + HDR);
    }

    /** The update of `max_used_size` after `available_size` has gone down */
    method UpdateMax()
      requires history != [] && maxUsed == Peak(history)
      modifies this`maxUsed, this`history
      ensures history == old(history) + [poolSize - available] && maxUsed == Peak(history)
      ensures maxUsed == if old(maxUsed) < poolSize - available then poolSize - available else old(maxUsed)
    {
      PeakSnoc(history, poolSize - available);
      if poolSize - available > maxUsed {
        maxUsed := poolSize - available;
      }
      history := history + [poolSize - available];
    }

    /** The found block leaves the free list and becomes used, with or without its far end. */
    method TakeBlock(header: nat, n: nat, freeSize: int)
      requires poolSize >= 2 * HDR && State(items, offs, free, live, End(), available)
      requires Listed(nextFree, prevFree, list, free)
      requires header in free && header in items && freeSize == Data(header) && n % 4 == 0 && n <= freeSize
      modifies this`items, this`nextFree, this`prevFree, this`available, this`offs, this`free, this`live, this`list
      ensures State(items, offs, free, live, End(), available) && Listed(nextFree, prevFree, list, free)
      ensures available <= old(available) && live == old(live) + {header}
      ensures Undisturbed(old(items), items, old(live)) && header in items && n <= Data(header) < n + HDR + MINI
      ensures available == AfterTaking(header, old(offs), old(available))
    {
      ghost var i := IndexOf(offs, header);
      assert i < |offs| - 1;
      BlockAt(items, offs, free, End(), i);
      Unlist(header);
      if freeSize >= n + HDR + MINI {
        TakePart(header, n, i);
      } else {
        TakenWhole(items, offs, free, live, End(), available, i);
        available := available - freeSize;
        items := items[header := items[header].(used := true)];
        free, live := free - {header}, live + {header};
      }
    }

    /** The splitting branch of `rt_memheap_alloc` */
    method TakePart(header: nat, n: nat, ghost i: nat)
      requires poolSize >= 2 * HDR && State(items, offs, free, live, End(), available)
      requires i < |offs| - 1 && offs[i] == header && header in free
      requires n % 4 == 0 && header + HDR + n + HDR <= offs[i + 1]
      requires Ring(nextFree, prevFree, list) && forall x :: x in list <==> x in free - {header}
      modifies this`items, this`nextFree, this`prevFree, this`available, this`offs, this`free, this`live, this`list
      ensures State(items, offs, free, live, End(), available) && Listed(nextFree, prevFree, list, free)
      ensures available == old(available) - n - HDR && live == old(live) + {header}
      ensures Undisturbed(old(items), items, old(live)) && header in items && Data(header) == n
      ensures items[header].next !in old(offs)
    {
      var newPtr := header + n + HDR;
      BlockAt(items, offs, free, End(), i);
      assert Sound(offs, i);
      TakenPart(items, offs, free, live, End(), available, i, newPtr);
      var next := items[header].next;
      items := items[newPtr := Item(false, next, header)];
      items := items[next := items[next].(prev := newPtr)];
      items := items[header := items[header].(next := newPtr)];
      Enlist(newPtr);
      available := available - n - HDR;
      items := items[header := items[header].(used := true)];
      offs, free, live := Split(offs, i, newPtr), free + {newPtr} - {header}, live + {header};
    }

    /** `rt_memheap_free`; only the freed block changes hands. */
    method Free(ptr: Option<nat>)
      requires Valid() && (ptr.Some? ==> ptr.value >= HDR && ptr.value - HDR in live)
      modifies this`items, this`nextFree, this`prevFree, this`available, this`maxUsed, this`history
      modifies this`offs, this`free, this`list, this`live
      ensures Valid() && maxUsed == old(maxUsed) && bytes == old(bytes)
      ensures history == if ptr.Some? then old(history) + [poolSize - available] else old(history)
      ensures live == if ptr.Some? then old(live) - {ptr.value - HDR} else old(live)
      ensures Undisturbed(old(items), items, live)
      ensures available >= old(available)
    {
      LiveItems(items, offs, free, End(), live);
      if ptr.None? {
        return;
      }
      ReleaseBlock(ptr.value - HDR);
      PeakSnoc(history, poolSize - available);
      history := history + [poolSize - available];
    }

    /** The block is marked free, joined with its neighbours, and linked if it was not joined to the
        one before it. */
    method ReleaseBlock(header: nat)
      requires poolSize >= 2 * HDR && State(items, offs, free, live, End(), available)
      requires Listed(nextFree, prevFree, list, free) && header in live
      modifies this`items, this`nextFree, this`prevFree, this`available, this`offs, this`free, this`live, this`list
      ensures State(items, offs, free, live, End(), available) && Listed(nextFree, prevFree, list, free)
      ensures live == old(live) - {header} && Undisturbed(old(items), items, live) && available >= old(available)
    {
      var top, insert, j := GiveBack(header);
      JoinNext(top, insert, j);
      if insert {
        Enlist(top);
      }
    }

    /** Marks the block free and joins it to the block before it if that is free. */
    method GiveBack(header: nat) returns (top: nat, insert: bool, ghost j: nat)
      requires poolSize >= 2 * HDR && State(items, offs, free, live, End(), available)
      requires Listed(nextFree, prevFree, list, free)
      requires header in live
      modifies this`items, this`available, this`offs, this`free, this`live
      ensures Touching(items, offs, free, live, End(), available, j) && offs[j] == top
      ensures live == old(live) - {header} && Undisturbed(old(items), items, live) && available >= old(available)
      ensures forall x :: x in list <==> x in free && (insert ==> x != top)
    {
      ghost var i := IndexOf(offs, header);
      assert i < |offs| - 1;
      BlockAt(items, offs, free, End(), i);
      ghost var h := items;
      assert ItemOk(h, offs, free, if i > 0 then i - 1 else |offs| - 1);
      var size := items[header].next - header - HDR;
      var before := items[header].prev;
      items := items[header := items[header].(used := false)];
      available := available + size;
      if !items[before].used {
        FreedLeft(h, offs, free, live, End(), available - size, i);
        available := available + HDR;
        var next := items[header].next;
        items := items[before := items[before].(next := next)];
        items := items[next := items[next].(prev := before)];
        offs, live := Cut(offs, i), live - {header};
        top, insert, j := before, false, i - 1;
      } else {
        FreedAlone(h, offs, free, live, End(), available - size, i);
        free, live := free + {header}, live - {header};
        top, insert, j := header, true, i;
      }
    }

    /** Joins the free block `top` with the block behind it if that is free. */
    method JoinNext(top: nat, ghost insert: bool, ghost j: nat)
      requires poolSize >= 2 * HDR && Touching(items, offs, free, live, End(), available, j) && offs[j] == top
      requires Ring(nextFree, prevFree, list) && forall x :: x in list <==> x in free && (insert ==> x != top)
      modifies this`items, this`nextFree, this`prevFree, this`available, this`offs, this`free, this`list
      ensures State(items, offs, free, live, End(), available) && top in free
      ensures Ring(nextFree, prevFree, list) && forall x :: x in list <==> x in free && (insert ==> x != top)
      ensures Undisturbed(old(items), items, live) && available >= old(available)
    {
      LiveItems(items, offs, free, End(), live);
      JoinedRight(items, offs, free, live, End(), available, j);
      var newPtr := items[top].next;
      if !items[newPtr].used {
        available := available + HDR;
        Absorb(top, newPtr);
        offs, free := Cut(offs, j + 1), free - {newPtr};
      }
    }

    /** The free block `newPtr` becomes part of `top` and leaves the free list. */
    method Absorb(top: nat, newPtr: nat)
      requires top in items && newPtr in items && items[newPtr].next in items
      requires items[newPtr].next != top && newPtr != top
      requires Ring(nextFree, prevFree, list) && newPtr in list
      modifies this`items, this`nextFree, this`prevFree, this`list
      ensures items == Joined(old(items), top, newPtr)
      ensures Ring(nextFree, prevFree, list) && list == Without(old(list), newPtr)
    {
      var next := items[newPtr].next;
      items := items[next := items[next].(prev := top)];
      items := items[top := items[top].(next := next)];
      Unlist(newPtr);
    }

    /** A new free header at `m` in the used block `header`, linked into the ring */
    method Cleave(header: nat, m: nat)
      requires header in items && items[header].next in items && items[header].next != header && m != header
      modifies this`items
      ensures items == Divided(old(items), header, m)
    {
      var next := items[header].next;
      items := items[m := Item(false, next, header)];
      items := items[next := items[next].(prev := m)];
      items := items[header := items[header].(next := m)];
    }

    /** The branch of `rt_memheap_realloc` that grows a block into the free block behind it */
    method Grow(header: nat, n: nat, ghost i: nat)
      requires Valid() && i < |offs| - 1 && offs[i] == header && header in live && offs[i + 1] in free && n % 4 == 0
      requires header in items && items[header].next in items
      requires Data(header) < n && n + MINI < Data(items[header].next) + Data(header)
      modifies this`items, this`nextFree, this`prevFree, this`available, this`maxUsed, this`history
      modifies this`offs, this`free, this`list, this`live
      ensures Valid() && header in items && Data(header) == n && available < old(available)
      ensures Resized(old(items), old(bytes), old(history), old(offs), old(available), old(live), header, header, n)
      ensures maxUsed == if old(maxUsed) < poolSize - available then poolSize - available else old(maxUsed)
    {
      DataInPool(items, offs, free, live, End(), bytes);
      Stretch(header, n, i);
      UpdateMax();
      assert live - {header} + {header} == live;
    }

    method Stretch(header: nat, n: nat, ghost i: nat)
      requires poolSize >= 2 * HDR && State(items, offs, free, live, End(), available)
      requires Listed(nextFree, prevFree, list, free)
      requires i < |offs| - 1 && offs[i] == header && header in live && offs[i + 1] in free && n % 4 == 0
      requires header in items && items[header].next in items
      requires Data(header) < n && n + MINI < Data(items[header].next) + Data(header)
      modifies this`items, this`nextFree, this`prevFree, this`available, this`offs, this`free, this`list
      ensures State(items, offs, free, live, End(), available) && Listed(nextFree, prevFree, list, free)
      ensures header in items && Data(header) == n && Undisturbed(old(items), items, live - {header})
      ensures available < old(available)
    {
      BlockAt(items, offs, free, End(), i);
      var next := items[header].next;
      var m := header + HDR + n;
      Grown(items, offs, free, live, End(), available, i, m);
      available := available - (n - Data(header));
      MoveFree(header, next, m);
      offs, free := Split(Cut(offs, i + 1), i, m), free - {next} + {m};
    }

    /** The free block `next` is taken out of the ring, and a new one built at `m`. */
    method MoveFree(header: nat, next: nat, m: nat)
      requires header in items && next in items && items[next].next in items
      requires items[next].next != header && next != header
      requires Ring(nextFree, prevFree, list) && next in list && (m == next || m !in list) && m != header
      modifies this`items, this`nextFree, this`prevFree, this`list
      ensures items == Divided(Joined(old(items), header, next), header, m)
      ensures Ring(nextFree, prevFree, list) && list == [m] + Without(old(list), next)
    {
      Absorb(header, next);
      Cleave(header, m);
      Enlist(m);
    }

    /** The branch of `rt_memheap_realloc` that gives back the far end of a block */
    method Shrink(header: nat, n: nat, ghost i: nat)
      requires Valid() && i < |offs| - 1 && offs[i] == header && header in live && n % 4 == 0 && header in items
      requires n + HDR + MINI < Data(header)
      modifies this`items, this`nextFree, this`prevFree, this`available, this`maxUsed, this`history
      modifies this`offs, this`free, this`list, this`live
      ensures Valid() && header in items && Data(header) == n && available > old(available) && maxUsed == old(maxUsed)
      ensures Resized(old(items), old(bytes), old(history), old(offs), old(available), old(live), header, header, n)
    {
      DataInPool(items, offs, free, live, End(), bytes);
      CutShort(header, n, i);
      PeakSnoc(history, poolSize - available);
      history := history + [poolSize - available];
      assert live - {header} + {header} == live;
    }

    method CutShort(header: nat, n: nat, ghost i: nat)
      requires poolSize >= 2 * HDR && State(items, offs, free, live, End(), available)
      requires Listed(nextFree, prevFree, list, free)
      requires i < |offs| - 1 && offs[i] == header && header in live && n % 4 == 0 && header in items
      requires n + HDR + MINI < Data(header)
      modifies this`items, this`nextFree, this`prevFree, this`available, this`offs, this`free, this`list
      ensures State(items, offs, free, live, End(), available) && Listed(nextFree, prevFree, list, free)
      ensures header in items && Data(header) == n && Undisturbed(old(items), items, live - {header})
      ensures available > old(available)
    {
      BlockAt(items, offs, free, End(), i);
      var m := header + n + HDR;
      Shrunk(items, offs, free, live, End(), available, i, m);
      var next := items[header].next;
      var merged := GiveEnd(header, m);
      if merged {
        offs, free := Cut(Split(offs, i, m), i + 2), free + {m} - {next};
      } else {
        offs, free := Split(offs, i, m), free + {m};
      }
    }

    /** A free block at `m` is cut off the end of `header` and joined with a free block behind. */
    method GiveEnd(header: nat, m: nat) returns (merged: bool)
      requires header in items && items[header].next in items && items[header].next != header && m != header
      requires var next := items[header].next;
        && next != m && (!items[next].used ==> items[next].next in items && items[next].next != m && next in list)
      requires Ring(nextFree, prevFree, list) && m !in list
      modifies this`items, this`nextFree, this`prevFree, this`list, this`available
      ensures var next := old(items)[header].next;
        var d := Divided(old(items), header, m);
        && merged == !d[next].used && m in items
        && (if merged then d[next].next in d && items == Joined(d, m, next) && list == [m] + Without(old(list), next)
            else items == d && list == [m] + old(list))
        && available == old(available) + (items[m].next - m - HDR) -
                        (if merged then d[next].next - next - HDR else 0)
      ensures Ring(nextFree, prevFree, list)
    {
      Cleave(header, m);
      var next := items[m].next;
      merged := !items[next].used;
      if merged {
        available := available - (items[next].next - next - HDR);
        Absorb(m, next);
      }
      Enlist(m);
      available := available + (items[m].next - m - HDR);
    }

    /** `rt_memheap_realloc`: in place where it can, otherwise by moving */
    method Realloc(ptr: Option<nat>, newsize: nat) returns (r: Option<nat>)
      requires Valid() && (ptr.Some? ==> ptr.value >= HDR && ptr.value - HDR in live)
      modifies this
      ensures Valid()
      ensures newsize == 0 ==> r.None? && Freed(old(items), old(bytes), old(history), old(live), ptr)
      ensures newsize > 0 ==>
        Reallocated(old(items), old(bytes), old(history), old(offs), old(list), old(free), old(live), old(available),
                    ptr, Need(newsize), r)
    {
      if newsize == 0 {
        Free(ptr);
        return None;
      }
      r := ReallocTo(ptr, Need(newsize));
    }

    /** A null pointer is served as by `rt_memheap_alloc`. */
    method ReallocTo(ptr: Option<nat>, n: nat) returns (r: Option<nat>)
      requires Valid() && (ptr.Some? ==> ptr.value >= HDR && ptr.value - HDR in live) && n % 4 == 0 && n >= MINI
      modifies this
      ensures Valid()
      ensures Reallocated(old(items), old(bytes), old(history), old(offs), old(list), old(free), old(live),
                          old(available), ptr, n, r)
    {
      if ptr.None? {
        NeedTwice(n);
        r := Alloc(n);
      } else {
        r := Resize(ptr.value - HDR, n);
      }
    }

    /** The block is no longer in use, contents and all other blocks are as they were, and the amount
        in use is on record. */
    ghost predicate Freed(h: map<nat, Item>, b: seq<int>, past: seq<int>, was: set<nat>, ptr: Option<nat>)
      reads this`items, this`bytes, this`history, this`live, this`available
    {
      && bytes == b && (if ptr.Some? then ptr.value >= HDR && live == was - {ptr.value - HDR} else live == was)
      && history == (if ptr.Some? then past + [poolSize - available] else past)
      && Undisturbed(h, items, live)
    }

    /** What a reallocation to `n` bytes does: nothing if it fails, and otherwise it serves a null
        pointer as a new request, and resizes a block in use. */
    ghost predicate Reallocated(
      h: map<nat, Item>, b: seq<int>, past: seq<int>, o: seq<nat>, l: seq<nat>, spare: set<nat>, was: set<nat>,
      avail: int, ptr: Option<nat>, n: nat, r: Option<nat>)
      reads this`items, this`bytes, this`history, this`live, this`available
    {
      && (r.None? ==> live == was && items == h && bytes == b && history == past && available == avail)
      && (r.Some? ==> r.value >= HDR)
      && (ptr.None? ==> (r.Some? <==> Grantable(h, spare, avail, n)))
      && (ptr.None? && r.Some? ==>
          Granted(h, l, o, was, avail, n, r.value - HDR) && bytes == b && history == past + [poolSize - available])
      && (ptr.Some? ==> ptr.value >= HDR && Decided(h, spare, avail, ptr.value - HDR, n, r))
      && (ptr.Some? && r.Some? ==> Resized(h, b, past, o, avail, was, ptr.value - HDR, r.value - HDR, n))
    }

    /** The sizes in use that a reallocation passes through: none if the block stays as it is, the new
        one if it changes in place, and while a block moves also the one with both copies taken. */
    ghost predicate Peaked(past: seq<int>, before: seq<nat>, avail: int, from: nat, to: nat)
      reads this`items, this`history, this`available
    {
      && to in items
      && history == if from != to then past + [poolSize - AfterTaking(to, before, avail), poolSize - available]
                    else if available == avail then past
                    else past + [poolSize - available]
    }

    /** A block has moved from `from` to `to`, or stayed: it keeps its data as far as both sizes
        reach, and every other block in `before` keeps all of it. */
    ghost predicate Kept(h: map<nat, Item>, b: seq<int>, before: set<nat>, from: nat, to: nat, n: nat)
      reads this`bytes
    {
      && from in h && from + HDR <= h[from].next
      && (var size := h[from].next - from - HDR;
          var m := if size < n then size else n;
          && |bytes| == |b| && from + HDR + m <= |b| && to + HDR + m <= |b|
          && bytes[to + HDR..to + HDR + m] == b[from + HDR..from + HDR + m])
      && forall x :: x in before && x != from ==> SameData(h, b, bytes, x)
    }

    /** Block `from` is now `to`, with room for `n` bytes and the data it had; nothing else has changed
        hands or contents, and the amounts in use on the way are on record. */
    ghost predicate Resized(
      h: map<nat, Item>, b: seq<int>, past: seq<int>, before: seq<nat>, avail: int, was: set<nat>,
      from: nat, to: nat, n: nat)
      reads this`items, this`bytes, this`history, this`live, this`available
    {
      && to in items && Data(to) >= n && live == was - {from} + {to}
      && Peaked(past, before, avail, from, to) && Kept(h, b, was, from, to, n)
      && Undisturbed(h, items, was - {from})
    }

    /** `rt_memheap_realloc` of a live block to a size it has to have */
    method Resize(header: nat, n: nat) returns (r: Option<nat>)
      requires Valid() && header in live && n % 4 == 0 && n >= MINI
      modifies this
      ensures Valid() && (r.None? ==> history == old(history) && available == old(available))
      ensures r.None? ==> live == old(live) && items == old(items) && bytes == old(bytes)
      ensures r.Some? ==> r.value >= HDR
      ensures r.Some? ==>
        Resized(old(items), old(bytes), old(history), old(offs), old(available), old(live), header, r.value - HDR, n)
      ensures Decided(old(items), old(free), old(available), header, n, r)
    {
      ghost var i := IndexOf(offs, header);
      BlockAt(items, offs, free, End(), i);
      var oldsize := items[header].next - header - HDR;
      if n > oldsize {
        r := Enlarge(header, oldsize, n, i);
      } else {
        Reduce(header, oldsize, n, i);
        r := Some(header + HDR);
      }
    }

    /** The branches for a size that is not larger: the block stays, and gives up what is over if that
        can hold a block. */
    method Reduce(header: nat, oldsize: nat, n: nat, ghost i: nat)
      requires Valid() && i < |offs| - 1 && offs[i] == header && header in live && n % 4 == 0 && n >= MINI
      requires header in items && oldsize == Data(header) && n <= oldsize
      modifies this
      ensures Valid()
      ensures Resized(old(items), old(bytes), old(history), old(offs), old(available), old(live), header, header, n)
      ensures Decided(old(items), old(free), old(available), header, n, Some(header + HDR))
    {
      BlockAt(items, offs, free, End(), i);
      if n + HDR + MINI >= oldsize {
        StaysResized(header, n);
      } else {
        Shrink(header, n, i);
      }
    }

    /** The branches for a larger size */
    method Enlarge(header: nat, oldsize: nat, n: nat, ghost i: nat) returns (r: Option<nat>)
      requires Valid() && i < |offs| - 1 && offs[i] == header && header in live && n % 4 == 0 && n >= MINI
      requires header in items && oldsize == Data(header) && oldsize < n
      modifies this
      ensures Valid() && (r.None? ==> history == old(history) && available == old(available))
      ensures r.None? ==> live == old(live) && items == old(items) && bytes == old(bytes)
      ensures r.Some? ==> r.value >= HDR
      ensures r.Some? ==>
        Resized(old(items), old(bytes), old(history), old(offs), old(available), old(live), header, r.value - HDR, n)
      ensures Decided(old(items), old(free), old(available), header, n, r)
    {
      BlockAt(items, offs, free, End(), i);
      var next := items[header].next;
      if !items[next].used && items[next].next - next - HDR + oldsize > n + MINI {
        Grow(header, n, i);
        return Some(header + HDR);
      }
      r := Move(header, oldsize, n);
    }

    /** A block that stays as it is has room for less as well. */
    lemma StaysResized(header: nat, n: nat)
      requires Valid() && header in live && header in items && n <= Data(header)
      ensures Resized(items, bytes, history, offs, available, live, header, header, n)
    {
      LiveItems(items, offs, free, End(), live);
      DataInPool(items, offs, free, live, End(), bytes);
      assert live - {header} + {header} == live;
    }

    /** The branch of `rt_memheap_realloc` that allocates, copies and releases */
    method Move(header: nat, oldsize: nat, n: nat) returns (r: Option<nat>)
      requires Valid() && header in live && n % 4 == 0 && n >= MINI && oldsize <= n
      requires header in items && oldsize == Data(header)
      modifies this
      ensures Valid() && (r.None? ==> history == old(history) && available == old(available))
      ensures r.None? ==> live == old(live) && items == old(items) && bytes == old(bytes)
      ensures r.Some? ==> r.value >= HDR && r.value - HDR != header
      ensures r.Some? ==>
        Resized(old(items), old(bytes), old(history), old(offs), old(available), old(live), header, r.value - HDR, n)
      ensures r.Some? <==> Grantable(old(items), old(free), old(available), n)
    {
      NeedTwice(n);
      r := Alloc(n);
      if r.Some? {
        ghost var was, past, before, avail := old(live), old(history), old(offs), old(available);
        CopyAndFree(header, r.value - HDR, oldsize, n, old(items), was, past, before, avail);
      }
    }

    /** The copy of a moving reallocation and the release that follows it */
    method CopyAndFree(
      header: nat, to: nat, oldsize: nat, n: nat, ghost g: map<nat, Item>, ghost was: set<nat>,
      ghost past: seq<int>, ghost before: seq<nat>, ghost avail: int)
      requires Valid() && header in was && to !in was && live == was + {to} && Undisturbed(g, items, was)
      requires header in g && oldsize == g[header].next - header - HDR && oldsize <= n
      requires to in items && n <= Data(to)
      requires history == past + [poolSize - available] && available == AfterTaking(to, before, avail)
      modifies this
      ensures Valid() && Resized(g, old(bytes), past, before, avail, was, header, to, n)
    {
      CopyData(header, to, oldsize, n, g, was);
      MovedSet(was, header, to);
      Free(Some(header + HDR));
    }

    /** The copy leaves all other blocks alone. */
    method CopyData(header: nat, to: nat, oldsize: nat, n: nat, ghost g: map<nat, Item>, ghost was: set<nat>)
      requires Valid() && header in was && to !in was && live == was + {to} && Undisturbed(g, items, was)
      requires header in g && oldsize == g[header].next - header - HDR && oldsize <= n
      requires to in items && n <= Data(to)
      modifies this`bytes
      ensures |bytes| == |old(bytes)| && Kept(g, old(bytes), was, header, to, n)
    {
      LiveApart(items, offs, free, live, End(), header, to);
      CopyClear(g, items, offs, free, was, End(), bytes, to, header, oldsize);
      bytes := Copied(bytes, to + HDR, header + HDR, oldsize);
    }

    /** The first `k` blocks of the list are too small for `n` bytes. */
    ghost predicate PassedOver(l: seq<nat>, k: nat, n: nat)
      requires k <= |l|
      reads this`items
    {
      forall j :: 0 <= j < k ==> l[j] in items && Data(l[j]) < n
    }
  }

  /** What `rt_memheap_init` computes as available, in 32 bits: for a pool without room for two
      headers the difference wraps around, and more than the pool is said to be available. */
  lemma TinyPoolWraps(size: nat)
    requires size < 0x1_0000_0000
    ensures (size - 2 * HDR) % 0x1_0000_0000 <= size <==> size >= 2 * HDR
  {
    if size < 2 * HDR {
      assert (size - 2 * HDR) % 0x1_0000_0000 == size - 2 * HDR + 0x1_0000_0000;
    }
  }

  /** A request for exactly what is available is refused although a free block has that size. */
  method ExactSizeIsRefused() returns (heap: Heap, r: Option<nat>)
    ensures fresh(heap) && heap.Valid() && heap.poolSize == 60 && heap.available == 12 && r.None?
    ensures heap.free == {0} && 0 in heap.items && heap.Data(0) == Need(12)
  {
    heap := new Heap(60, seq(60, _ => 0));
    r := heap.Alloc(12);
  }

  lemma FreeItems(h: map<nat, Item>, offs: seq<nat>, free: set<nat>, end: nat)
    requires Blocks(h, offs, free, end)
    ensures forall x :: x in free ==> x in h
  {
    forall x | x in free ensures x in h {
      var k := IndexOf(offs, x);
      assert ItemOk(h, offs, free, k);
    }
  }
}
