/** The small-memory heap of mem.c: headers at the start of each block, linked forward and
    backward, with the lowest free block remembered.  Offsets count from the heap's start.
 */
module SmallMem {
  import opened Wrappers
  import opened HeapChain

  /** `SIZEOF_STRUCT_MEM` and `MIN_SIZE_ALIGNED` on a 32-bit machine with 4-byte alignment */
  const HEADER: nat := 12
  const MIN_SIZE: nat := 12

  datatype Header = Header(used: bool, next: nat, prev: nat)

  /** `RT_ALIGN(size, 4)` */
  function Align(size: nat): nat {
    (size + 3) / 4 * 4
  }

  /** The data size a request is served with. */
  function Need(size: nat): nat {
    if Align(size) < MIN_SIZE then MIN_SIZE else Align(size)
  }

  /** Header `i` points to its neighbours and knows whether its block is used. */
  ghost predicate LinkOk(h: map<nat, Header>, offs: seq<nat>, used: set<nat>, i: nat)
    requires i + 1 < |offs|
  {
    && offs[i] in h
    && h[offs[i]] == Header(offs[i] in used, offs[i + 1], if i == 0 then 0 else offs[i - 1])
  }

  /** Forward and backward links are those of the chain; the sentinel is marked used and
      points to itself, and its back link is not maintained. */
  ghost predicate Linked(h: map<nat, Header>, offs: seq<nat>, used: set<nat>, end: nat) {
    && (forall i :: 0 <= i < |offs| - 1 ==> LinkOk(h, offs, used, i))
    && end in h && h[end].used && h[end].next == end
  }

  /** Block `i` serves a request for `n` bytes in the eyes of the search loop. */
  ghost predicate Fits(offs: seq<nat>, used: set<nat>, memSize: nat, n: nat, i: nat)
    requires i + 1 < |offs|
  {
    offs[i] !in used && offs[i] + HEADER + n <= offs[i + 1] && offs[i] + n < memSize
  }

  ghost predicate NoneFits(offs: seq<nat>, used: set<nat>, memSize: nat, n: nat) {
    forall k :: 0 <= k < |offs| - 1 ==> !Fits(offs, used, memSize, n, k)
  }

  /** The only block with room that the search can pass over is an exact fit at the very end. */
  lemma PassedOver(offs: seq<nat>, used: set<nat>, memSize: nat, n: nat, i: nat)
    requires Tiled(offs, memSize + HEADER) && i + 1 < |offs| && n <= memSize
    requires offs[i] !in used && offs[i] + HEADER + n <= offs[i + 1] && !Fits(offs, used, memSize, n, i)
    ensures i == |offs| - 2 && offs[i] + HEADER + n == offs[i + 1]
  {
    SameIndex(offs, memSize + HEADER, i + 1, |offs| - 1);
  }

  /** Merging block `i + 1` into block `i` in the headers. */
  function Merged(h: map<nat, Header>, a: nat, b: nat): map<nat, Header>
    requires a in h && b in h && h[b].next in h
  {
    var h1 := h[a := h[a].(next := h[b].next)];
    h1[h[b].next := h1[h[b].next].(prev := a)]
  }

  lemma MergedLinked(h: map<nat, Header>, offs: seq<nat>, used: set<nat>, end: nat, i: nat)
    requires Tiled(offs, end) && Linked(h, offs, used, end) && i + 2 < |offs|
    requires offs[i] in h && offs[i + 1] in h && h[offs[i + 1]].next in h
    ensures Linked(Merged(h, offs[i], offs[i + 1]), Cut(offs, i + 1), used, end)
  {
    var r, c := Merged(h, offs[i], offs[i + 1]), Cut(offs, i + 1);
    assert LinkOk(h, offs, used, i) && LinkOk(h, offs, used, i + 1);
    forall k | 0 <= k < |c| - 1 ensures LinkOk(r, c, used, k) {
      var m := if k <= i then k else k + 1;
      assert c[k] == offs[m] && c[k + 1] == (if k < i then offs[k + 1] else offs[k + 2]);
      assert LinkOk(h, offs, used, m);
      SameIndex(offs, end, m, i);
      SameIndex(offs, end, m, i + 2);
    }
    SameIndex(offs, end, i, |offs| - 1);
  }

  /** A header written into block `i`, as both allocation and reallocation do it. */
  function Divided(h: map<nat, Header>, a: nat, m: nat, end: nat): map<nat, Header>
    requires a in h && h[a].next in h
  {
    var h1 := h[m := Header(false, h[a].next, a)][a := h[a].(next := m)];
    if h[a].next != end then h1[h[a].next := h1[h[a].next].(prev := m)] else h1
  }

  lemma DividedAt(h: map<nat, Header>, offs: seq<nat>, used: set<nat>, end: nat, i: nat, m: nat, j: nat)
    requires Tiled(offs, end) && Linked(h, offs, used, end) && i + 1 < |offs| && j + 1 < |offs|
    requires offs[i] < m < offs[i + 1] && m !in offs && m !in used && offs[i] in h && h[offs[i]].next in h
    ensures var r, c := Divided(h, offs[i], m, end), Split(offs, i, m);
      && LinkOk(r, c, used, if j <= i then j else j + 1)
      && (j == i ==> LinkOk(r, c, used, i + 1))
  {
    var c := Split(offs, i, m);
    assert LinkOk(h, offs, used, i) && LinkOk(h, offs, used, j);
    SameIndex(offs, end, j, i);
    SameIndex(offs, end, j, i + 1);
    SameIndex(offs, end, i, i + 1);
    SameIndex(offs, end, j, |offs| - 1);
    SameIndex(offs, end, i, |offs| - 1);
    assert offs[j] in offs && offs[i + 1] in offs;
  }

  lemma DividedLinked(h: map<nat, Header>, offs: seq<nat>, used: set<nat>, end: nat, i: nat, m: nat)
    requires Tiled(offs, end) && UsedIn(offs, used) && Linked(h, offs, used, end) && i + 1 < |offs| && offs[i] in h
    requires offs[i] < m < offs[i + 1] && h[offs[i]].next in h
    ensures m !in offs && Linked(Divided(h, offs[i], m, end), Split(offs, i, m), used, end)
  {
    var r, c := Divided(h, offs[i], m, end), Split(offs, i, m);
    InsideIsNew(offs, end, i, m);
    forall k | 0 <= k < |c| - 1 ensures LinkOk(r, c, used, k) {
      DividedAt(h, offs, used, end, i, m, if k <= i then k else k - 1);
    }
    assert LinkOk(h, offs, used, i);
    SameIndex(offs, end, i, |offs| - 1);
    assert end in offs;
  }

  /** The blocks in `live` still start and end where they did. */
  ghost predicate Undisturbed(before: map<nat, Header>, after: map<nat, Header>, live: set<nat>) {
    forall x :: x in live ==> x in before && x in after && after[x].next == before[x].next
  }

  /** The chain, its headers, the lowest free block and the statistics all agree. */
  ghost predicate ShapeOf(h: map<nat, Header>, offs: seq<nat>, used: set<nat>, end: nat, lfree: nat, usedMem: int) {
    ChainOf(h, offs, used, end, usedMem) && IsLowest(offs, used, lfree)
  }

  ghost predicate ChainOf(h: map<nat, Header>, offs: seq<nat>, used: set<nat>, end: nat, usedMem: int) {
    Tiled(offs, end) && UsedIn(offs, used) && Linked(h, offs, used, end) && usedMem == BlockSum(offs, used, 0)
  }

  /** Every block has a header, and so has what follows it. */
  lemma HeaderAt(h: map<nat, Header>, offs: seq<nat>, used: set<nat>, end: nat, i: nat)
    requires Tiled(offs, end) && UsedIn(offs, used) && Linked(h, offs, used, end) && i + 1 < |offs|
    ensures LinkOk(h, offs, used, i) && offs[i + 1] in h && offs[i] in offs && offs[i + 1] in offs
    ensures h[offs[i + 1]].used <==> offs[i + 1] in used || offs[i + 1] == end
    ensures offs[i] < offs[i + 1] <= end && (offs[i + 1] == end <==> i + 2 == |offs|)
  {
    if i + 2 < |offs| { assert LinkOk(h, offs, used, i + 1); }
    SameIndex(offs, end, i, i + 1);
    SameIndex(offs, end, i + 1, |offs| - 1);
  }

  /** The lowest free block is never the upper one of two free neighbours, so the two places
      in `plug_holes` that would move `lfree` down have nothing to do. */
  lemma LowestNotAbsorbed(offs: seq<nat>, used: set<nat>, end: nat, lfree: nat, i: nat)
    requires Tiled(offs, end) && IsLowest(offs, used, lfree) && i + 1 < |offs| && offs[i] !in used
    ensures lfree != offs[i + 1]
  {
    SameIndex(offs, end, i, i + 1);
    assert offs[i] in offs;
  }

  lemma MergedUndisturbed(h: map<nat, Header>, offs: seq<nat>, used: set<nat>, end: nat, i: nat)
    requires UsedIn(offs, used) && Linked(h, offs, used, end) && i + 2 < |offs| && offs[i] !in used
    requires offs[i] in h && offs[i + 1] in h && h[offs[i + 1]].next in h
    ensures Undisturbed(h, Merged(h, offs[i], offs[i + 1]), used)
  {
    LiveHeaders(h, offs, used, end);
  }

  lemma AbsorbShape(h: map<nat, Header>, offs: seq<nat>, used: set<nat>, end: nat, lfree: nat, usedMem: int, i: nat)
    requires ShapeOf(h, offs, used, end, lfree, usedMem) && i + 2 < |offs| && offs[i] !in used && offs[i + 1] !in used
    requires offs[i] in h && offs[i + 1] in h && h[offs[i + 1]].next in h
    ensures ShapeOf(Merged(h, offs[i], offs[i + 1]), Cut(offs, i + 1), used, end, lfree, usedMem)
  {
    MergedLinked(h, offs, used, end, i);
    CutTiled(offs, end, i + 1);
    BlockSumCut(offs, used, i + 1, 0);
    LowestNotAbsorbed(offs, used, end, lfree, i);
  }

  /** All pairs of neighbours keep apart, except perhaps those that block `i` is in. */
  ghost predicate ApartBut(offs: seq<nat>, used: set<nat>, i: nat) {
    forall k :: 0 <= k < |offs| - 1 && k != i && k + 1 != i ==> HeapChain.Apart(offs, used, k)
  }

  /** Merging a free block `i` with its successor or its predecessor leaves one pair less. */
  lemma CutApart(offs: seq<nat>, used: set<nat>, i: nat, c: nat)
    requires ApartBut(offs, used, i) && i + 1 < |offs| && offs[i] !in used
    requires 0 < c < |offs| - 1 && offs[c] !in used && offs[c - 1] !in used
    requires c == i + 1 || (c == i && HeapChain.Apart(offs, used, i))
    ensures c == i + 1 ==> ApartBut(Cut(offs, c), used, i) && HeapChain.Apart(Cut(offs, c), used, i)
    ensures c == i ==> Coalesced(Cut(offs, c), used)
  {
    var r := Cut(offs, c);
    assert forall k :: 0 <= k < |r| ==> r[k] == offs[if k < c then k else k + 1];
    forall k | 0 <= k < |r| - 1 && (c == i || k + 1 != i) ensures HeapChain.Apart(r, used, k) {
      assert HeapChain.Apart(offs, used, if k + 1 < c then k else k + 1);
    }
  }

  /** Two live blocks lie inside the heap. */
  lemma RoomFor(h: map<nat, Header>, offs: seq<nat>, used: set<nat>, end: nat, a: nat, size: nat, b: nat, n: nat)
    requires Tiled(offs, end) && UsedIn(offs, used) && Linked(h, offs, used, end) && a in used && b in used
    requires a in h && size + a + HEADER == h[a].next && b in h && b + HEADER + n <= h[b].next
    ensures a + HEADER + size <= end && b + HEADER + n <= end
  {
    BlocksApart(h, offs, used, end, a, b);
    BlocksApart(h, offs, used, end, b, a);
  }

  /** Writing into a block that is not in `live` leaves the contents of those that are. */
  lemma CopyClear(
    g: map<nat, Header>, h: map<nat, Header>, offs: seq<nat>, live: set<nat>, end: nat, b: seq<int>,
    to: nat, from: nat, m: nat)
    requires to >= HEADER && to - HEADER !in live && end <= |b| && to + m <= |b| && from + m <= |b|
    requires var used := live + {to - HEADER};
      Tiled(offs, end) && UsedIn(offs, used) && Linked(h, offs, used, end)
    requires Undisturbed(g, h, live) && to - HEADER in h && to + m <= h[to - HEADER].next
    ensures forall x :: x in live ==> SameData(g, b, Copied(b, to, from, m), x)
  {
    var used := live + {to - HEADER};
    forall x | x in live ensures SameData(g, b, Copied(b, to, from, m), x) {
      BlocksApart(h, offs, used, end, to - HEADER, x);
      BlocksApart(h, offs, used, end, x, to - HEADER);
    }
  }

  /** When everything has been given back, the heap is as it was set up. */
  lemma FreeEverything(h: map<nat, Header>, offs: seq<nat>, used: set<nat>, end: nat, lfree: nat, usedMem: int)
    requires ShapeOf(h, offs, used, end, lfree, usedMem) && Coalesced(offs, used) && used == {}
    ensures offs == [0, end] && lfree == 0 && usedMem == 0
    ensures 0 in h && h[0] == Header(false, end, 0)
  {
    NothingUsed(offs, used, end);
    assert LinkOk(h, offs, used, 0);
    assert 0 in offs;
  }

  /** The headers that `rt_system_heap_init` writes. */
  function Initial(memSize: nat): map<nat, Header> {
    var end := memSize + HEADER;
    map[0 := Header(false, end, 0), end := Header(true, end, end)]
  }

  /** Where the search of `rt_malloc` stands after `k` rounds on a fresh heap. */
  function Visited(memSize: nat, k: nat): (ptr: nat)
    ensures ptr in Initial(memSize)
  {
    if k == 0 then 0 else Initial(memSize)[Visited(memSize, k - 1)].next
  }

  /** The search bound is an unsigned 32-bit difference. */
  function Minus32(a: nat, b: nat): nat {
    (a - b) % 0x1_0000_0000
  }

  /** On a fresh heap that is not empty but has no room for the smallest block, the search bound
      wraps around: round after round, the loop goes on and nothing fits.  `Heap.Find` shows that
      from `MIN_SIZE` on the search ends. */
  lemma {:induction false} TinyHeapSearchNeverEnds(memSize: nat, k: nat)
    requires 0 < memSize < MIN_SIZE
    ensures var ptr := Visited(memSize, k);
      && ptr < Minus32(memSize, MIN_SIZE)
      && (Initial(memSize)[ptr].used || Initial(memSize)[ptr].next - (ptr + HEADER) < MIN_SIZE)
  {
    assert Minus32(memSize, MIN_SIZE) == 0x1_0000_0000 + memSize - MIN_SIZE;
    if k > 0 { TinyHeapSearchNeverEnds(memSize, k - 1); }
  }

  class Heap {
    /** `mem_size_aligned` */
    const memSize: nat
    var headers: map<nat, Header>
    var lfree: nat
    var usedMem: int
    var maxMem: int
    /** What the blocks hold, by offset. */
    var bytes: seq<int>
    /** `used_mem` after each change of it so far */
    ghost var history: seq<int>
    ghost var offs: seq<nat>
    ghost var used: set<nat>

    /** Offset of the sentinel */
    function End(): nat {
      memSize + HEADER
    }

    ghost predicate Shape()
      reads this`headers, this`bytes, this`offs, this`used, this`lfree, this`usedMem
    {
      && memSize >= MIN_SIZE && memSize % 4 == 0 && |bytes| == End() + HEADER
      && ShapeOf(headers, offs, used, End(), lfree, usedMem)
    }

    ghost predicate Valid()
      reads this
    {
      Shape() && Coalesced(offs, used) && Recorded()
    }

    /** `max_mem` is the maximum over the whole history. */
    ghost predicate Recorded()
      reads this`history, this`usedMem, this`maxMem
    {
      history != [] && history[|history| - 1] == usedMem && maxMem == Peak(history)
    }

    /** `rt_system_heap_init`, for a region that has room for one smallest block */
    constructor (size: nat, contents: seq<int>)
      requires size >= MIN_SIZE && size % 4 == 0 && |contents| == size + 2 * HEADER
      ensures Valid() && memSize == size && used == {}
      ensures offs == [0, size + HEADER] && history == [0] && bytes == contents
    {
      memSize := size;
      headers := Initial(size);
      lfree, usedMem, maxMem, bytes, history := 0, 0, 0, contents, [0];
      offs, used := [0, size + HEADER], {};
    }

    /** Block `a` takes in the free block `b` behind it: one half of `plug_holes`. */
    method Absorb(a: nat, b: nat, ghost i: nat)
      requires Shape() && i + 2 < |offs| && offs[i] == a && offs[i + 1] == b && a !in used && b !in used
      modifies this`headers, this`offs
      ensures Shape() && offs == Cut(old(offs), i + 1) && Undisturbed(old(headers), headers, used)
    {
      ghost var h := headers;
      HeaderAt(h, offs, used, End(), i);
      HeaderAt(h, offs, used, End(), i + 1);
      AbsorbShape(h, offs, used, End(), lfree, usedMem, i);
      MergedUndisturbed(h, offs, used, End(), i);
      LowestNotAbsorbed(offs, used, End(), lfree, i);
      assert lfree != b;
      var next := headers[b].next;
      headers := headers[a := headers[a].(next := next)];
      headers := headers[next := headers[next].(prev := a)];
      offs := Cut(offs, i + 1);
    }

    /** "plug hole forward" */
    method PlugForward(mem: nat, ghost i: nat)
      requires Shape() && i + 1 < |offs| && offs[i] == mem && mem !in used && ApartBut(offs, used, i)
      modifies this`headers, this`offs
      ensures Shape() && i + 1 < |offs| && offs[i] == mem && ApartBut(offs, used, i) && HeapChain.Apart(offs, used, i)
      ensures Undisturbed(old(headers), headers, used)
    {
      HeaderAt(headers, offs, used, End(), i);
      LiveHeaders(headers, offs, used, End());
      var nmem := headers[mem].next;
      if mem != nmem && !headers[nmem].used && nmem != End() {
        CutApart(offs, used, i, i + 1);
        Absorb(mem, nmem, i);
      }
    }

    /** "plug hole backward" */
    method PlugBackward(mem: nat, ghost i: nat)
      requires Shape() && i + 1 < |offs| && offs[i] == mem && mem !in used
      requires ApartBut(offs, used, i) && HeapChain.Apart(offs, used, i)
      modifies this`headers, this`offs
      ensures Shape() && Coalesced(offs, used) && Undisturbed(old(headers), headers, used)
    {
      HeaderAt(headers, offs, used, End(), i);
      LiveHeaders(headers, offs, used, End());
      var pmem := headers[mem].prev;
      if i > 0 { HeaderAt(headers, offs, used, End(), i - 1); }
      if pmem != mem && !headers[pmem].used {
        CutApart(offs, used, i, i);
        Absorb(pmem, mem, i - 1);
      } else {
        forall k | 0 <= k < |offs| - 1 ensures HeapChain.Apart(offs, used, k) { }
      }
    }

    /** `plug_holes`: all blocks but block `i`, which is free, already keep apart. */
    method PlugHoles(mem: nat, ghost i: nat)
      requires Shape() && i + 1 < |offs| && offs[i] == mem && mem !in used && ApartBut(offs, used, i)
      modifies this`headers, this`offs
      ensures Shape() && Coalesced(offs, used) && Undisturbed(old(headers), headers, used)
    {
      PlugForward(mem, i);
      PlugBackward(mem, i);
    }

    /** `rt_free`; nothing but the freed block changes hands. */
    method Free(rmem: Option<nat>)
      requires Valid() && (rmem.Some? ==> rmem.value >= HEADER && rmem.value - HEADER in used)
      modifies this`headers, this`lfree, this`usedMem, this`offs, this`used, this`history
      ensures Valid() && Undisturbed(old(headers), headers, used)
      ensures history == if rmem.Some? then old(history) + [usedMem] else old(history)
      ensures used == if rmem.Some? then old(used) - {rmem.value - HEADER} else old(used)
      ensures rmem.None? ==> headers == old(headers) && lfree == old(lfree) && offs == old(offs)
    {
      LiveHeaders(headers, offs, used, End());
      if rmem.None? {
        return;
      }
      var mem := rmem.value - HEADER;
      ghost var i := IndexIn(offs, used, End(), mem);
      HeaderAt(headers, offs, used, End(), i);
      FreeShape(headers, offs, used, End(), lfree, usedMem, i);
      headers := headers[mem := headers[mem].(used := false)];
      used := used - {mem};
      if mem < lfree {
        lfree := mem;
      }
      usedMem := usedMem - (headers[mem].next - mem);
      PeakSnoc(history, usedMem);
      history := history + [usedMem];
      PlugHoles(mem, i);
    }

    /** The search loop of `rt_malloc`, from the lowest free block upwards */
    method Find(n: nat) returns (r: Option<nat>, ghost i: nat)
      requires Valid() && n <= memSize
      ensures r.None? <==> NoneFits(offs, used, memSize, n)
      ensures r.Some? ==> i + 1 < |offs| && offs[i] == r.value && Fits(offs, used, memSize, n, i)
      ensures r.Some? ==> forall k :: 0 <= k < i ==> !Fits(offs, used, memSize, n, k)
    {
      var ptr := lfree;
      i :| 0 <= i < |offs| && offs[i] == lfree;
      forall k | 0 <= k < i ensures !Fits(offs, used, memSize, n, k) {
        SameIndex(offs, End(), k, i);
        assert offs[k] in offs;
      }
      while ptr < memSize - n
        invariant 0 <= i < |offs| && offs[i] == ptr
        invariant forall k :: 0 <= k < i ==> !Fits(offs, used, memSize, n, k)
        decreases |offs| - i
      {
        SameIndex(offs, End(), i, |offs| - 1);
        HeaderAt(headers, offs, used, End(), i);
        if !headers[ptr].used && headers[ptr].next - (ptr + HEADER) >= n {
          assert Fits(offs, used, memSize, n, i);
          return Some(ptr), i;
        }
        ptr := headers[ptr].next;
        i := i + 1;
      }
      forall k | 0 <= k < |offs| - 1 ensures !Fits(offs, used, memSize, n, k) {
        SameIndex(offs, End(), k, i);
      }
      r := None;
    }

    /** A new free header at `ptr2` inside block `mem`, as `rt_malloc` and `rt_realloc` write it */
    method DivideBlock(mem: nat, ptr2: nat, ghost i: nat)
      requires ChainOf(headers, offs, used, End(), usedMem) && i + 1 < |offs| && offs[i] == mem
      requires ptr2 % 4 == 0 && mem + HEADER + 4 <= ptr2 && ptr2 + HEADER + 4 <= offs[i + 1]
      modifies this`headers, this`offs
      ensures offs == Split(old(offs), i, ptr2) && ptr2 !in old(offs) && ptr2 !in used
      ensures ChainOf(headers, offs, used, End(), usedMem - (if mem in used then old(offs)[i + 1] - ptr2 else 0))
      ensures forall x :: x in offs <==> x in old(offs) || x == ptr2
      ensures mem in headers && headers[mem].next == ptr2
      ensures Undisturbed(old(headers), headers, used - {mem})
    {
      ghost var h := headers;
      DividedChain(h, offs, used, End(), usedMem, i, ptr2);
      LiveHeaders(h, offs, used, End());
      DividedUndisturbed(h, mem, ptr2, End(), used);
      var next := headers[mem].next;
      headers := headers[ptr2 := Header(false, next, mem)];
      headers := headers[mem := headers[mem].(next := ptr2)];
      if next != End() {
        headers := headers[next := headers[next].(prev := ptr2)];
      }
      assert headers == Divided(h, mem, ptr2, End());
      offs := Split(offs, i, ptr2);
    }

    /** The rest of `rt_malloc`: split the block if the remainder can hold data, mark it used */
    method Take(mem: nat, n: nat, ghost i: nat)
      requires Valid() && n % 4 == 0 && n >= 4 && i + 1 < |offs| && offs[i] == mem && Fits(offs, used, memSize, n, i)
      modifies this`headers, this`usedMem, this`maxMem, this`offs, this`used, this`history
      ensures Recorded() && history == old(history) + [usedMem]
      ensures mem in headers && usedMem == old(usedMem) + headers[mem].next - mem
      ensures ChainOf(headers, offs, used, End(), usedMem) && Coalesced(offs, used)
      ensures used == old(used) + {mem} && Undisturbed(old(headers), headers, old(used)) && mem in headers
      ensures mem + HEADER + n <= headers[mem].next < mem + HEADER + n + HEADER + MIN_SIZE
      ensures forall x :: x in old(offs) ==> x in offs
      ensures forall x :: x in offs && x < mem ==> x in old(offs)
    {
      HeaderAt(headers, offs, used, End(), i);
      LiveHeaders(headers, offs, used, End());
      DividedApart(offs, used, i, mem + HEADER + n);
      assert Sound(offs, i);
      if headers[mem].next - (mem + HEADER) >= n + HEADER + MIN_SIZE {
        DivideBlock(mem, mem + HEADER + n, i);
        assert used - {mem} == used;
      }
      MarkUsed(mem, i);
      PeakSnoc(history, usedMem);
      if maxMem < usedMem {
        maxMem := usedMem;
      }
      history := history + [usedMem];
    }

    method MarkUsed(mem: nat, ghost i: nat)
      requires ChainOf(headers, offs, used, End(), usedMem) && i + 1 < |offs| && offs[i] == mem && mem !in used
      requires ApartBut(offs, used, i) && mem in headers
      modifies this`headers, this`usedMem, this`used
      ensures ChainOf(headers, offs, used, End(), usedMem) && Coalesced(offs, used) && used == old(used) + {mem}
      ensures headers == old(headers)[mem := old(headers)[mem].(used := true)]
      ensures usedMem == old(usedMem) + headers[mem].next - mem
    {
      TakeWhole(headers, offs, used, End(), usedMem, i);
      headers := headers[mem := headers[mem].(used := true)];
      usedMem := usedMem + headers[mem].next - mem;
      used := used + {mem};
    }

    /** The loop at the end of `rt_malloc` that moves `lfree` up to the next free block */
    method AdvanceLowest()
      requires ChainOf(headers, offs, used, End(), usedMem) && lfree in offs
      requires forall x :: x in offs && x < lfree ==> x in used
      modifies this`lfree
      ensures IsLowest(offs, used, lfree)
    {
      ghost var i :| 0 <= i < |offs| && offs[i] == lfree;
      if i + 1 < |offs| { HeaderAt(headers, offs, used, End(), i); }
      while headers[lfree].used && lfree != End()
        invariant 0 <= i < |offs| && offs[i] == lfree && lfree in headers
        invariant headers[lfree].used <==> lfree in used || lfree == End()
        invariant forall x :: x in offs && x < lfree ==> x in used
        decreases |offs| - i
      {
        SameIndex(offs, End(), i, |offs| - 1);
        HeaderAt(headers, offs, used, End(), i);
        forall x | x in offs && x < offs[i + 1] ensures x in used {
          var k :| 0 <= k < |offs| && offs[k] == x;
          SameIndex(offs, End(), k, i + 1);
          SameIndex(offs, End(), k, i);
        }
        lfree := headers[lfree].next;
        i := i + 1;
      }
    }

    /** `rt_malloc`: the lowest block that fits, in full knowledge of what the search skips. */
    method Malloc(size: nat) returns (r: Option<nat>)
      requires Valid()
      modifies this`headers, this`lfree, this`usedMem, this`maxMem, this`offs, this`used, this`history
      ensures Valid() && history == if r.Some? then old(history) + [usedMem] else old(history)
      ensures r.Some? ==> r.value - HEADER in headers
      ensures r.Some? ==> usedMem == old(usedMem) + headers[r.value - HEADER].next - (r.value - HEADER)
      ensures r.None? ==> used == old(used) && offs == old(offs) && headers == old(headers) && usedMem == old(usedMem)
      ensures r.None? <==> (size == 0 || Align(size) > memSize || NoneFits(old(offs), old(used), memSize, Need(size)))
      ensures r.Some? ==> r.value >= HEADER && Served(old(offs), old(used), memSize, Need(size), r.value - HEADER)
      ensures r.Some? ==> used == old(used) + {r.value - HEADER} && Undisturbed(old(headers), headers, old(used))
      ensures r.Some? ==> r.value - HEADER in headers && r.value + Need(size) <= headers[r.value - HEADER].next
      ensures r.Some? ==> headers[r.value - HEADER].next < r.value + Need(size) + HEADER + MIN_SIZE
    {
      if size == 0 || Align(size) > memSize {
        return None;
      }
      var n := Need(size);
      var found, i := Find(n);
      if found.None? {
        return None;
      }
      var mem := found.value;
      LowestBelow(offs, used, End(), lfree, i);
      Take(mem, n, i);
      if mem == lfree {
        AdvanceLowest();
      }
      r := Some(mem + HEADER);
    }

    /** The splitting branch of `rt_realloc`: the tail of a used block becomes free */
    method Shrink(mem: nat, n: nat, ghost i: nat)
      requires Valid() && i + 1 < |offs| && offs[i] == mem && mem in used && mem in headers
      requires n % 4 == 0 && n >= 4 && n + HEADER + MIN_SIZE < headers[mem].next - mem - HEADER
      modifies this`headers, this`lfree, this`usedMem, this`offs, this`history
      ensures Valid() && mem in headers && headers[mem].next == mem + HEADER + n
      ensures history == old(history) + [usedMem] && usedMem < old(usedMem)
      ensures Undisturbed(old(headers), headers, used - {mem})
    {
      CutTail(mem, n, i);
      PeakSnoc(history, usedMem);
      history := history + [usedMem];
      PlugHoles(mem + HEADER + n, i + 1);
    }

    /** Up to the merging: a new free block at the end of `mem` */
    method CutTail(mem: nat, n: nat, ghost i: nat)
      requires Shape() && Coalesced(offs, used) && i + 1 < |offs| && offs[i] == mem && mem in used && mem in headers
      requires n % 4 == 0 && n >= 4 && n + HEADER + MIN_SIZE < headers[mem].next - mem - HEADER
      modifies this`headers, this`lfree, this`usedMem, this`offs
      ensures Shape() && mem in headers && headers[mem].next == mem + HEADER + n && usedMem < old(usedMem)
      ensures i + 2 < |offs| && offs[i + 1] == mem + HEADER + n && offs[i + 1] !in used && ApartBut(offs, used, i + 1)
      ensures Undisturbed(old(headers), headers, used - {mem})
    {
      HeaderAt(headers, offs, used, End(), i);
      assert Sound(offs, i);
      var size := headers[mem].next - mem - HEADER;
      var ptr2 := mem + HEADER + n;
      DividedApart(offs, used, i, ptr2);
      DivideBlock(mem, ptr2, i);
      usedMem := usedMem - (size - n);
      if ptr2 < lfree {
        lfree := ptr2;
      }
    }

    /** `rt_memcpy` between two ranges that do not overlap */
    method Copy(to: nat, from: nat, count: nat)
      requires to + count <= |bytes| && from + count <= |bytes|
      modifies this`bytes
      ensures bytes == Copied(old(bytes), to, from, count)
    {
      bytes := Copied(bytes, to, from, count);
    }

    /** The moving branch of `rt_realloc`: allocate, copy, release */
    method Move(v: nat, size: nat, n: nat) returns (r: Option<int>)
      requires Valid() && v >= HEADER && v - HEADER in used
      requires v - HEADER in headers && n > 0 && n % 4 == 0 && n <= memSize
      requires size == headers[v - HEADER].next - v
      modifies this
      ensures Valid()
      ensures r.None? ==> used == old(used) && headers == old(headers) && bytes == old(bytes)
      ensures r.None? ==> history == old(history)
      ensures r.None? <==> NoneFits(old(offs), old(used), memSize, Need(n))
      ensures r.Some? ==> r.value >= HEADER && r.value != v
      ensures r.Some? ==> Served(old(offs), old(used), memSize, Need(n), r.value - HEADER)
      ensures r.Some? ==> MovedTo(old(headers), old(bytes), old(used), old(history), old(usedMem), v, r.value, n)
    {
      var nmem := Malloc(n);
      if nmem.None? {
        return None;
      }
      CopyAndFree(v, nmem.value, size, n, old(headers), old(used), old(history), old(usedMem));
      r := Some(nmem.value);
    }

    /** The copy of `rt_realloc` and the release that follows it */
    method CopyAndFree(
      v: nat, to: nat, size: nat, n: nat, ghost g: map<nat, Header>, ghost live: set<nat>,
      ghost past: seq<int>, ghost before: int)
      requires Valid() && v >= HEADER && to >= HEADER && v - HEADER in live
      requires used == live + {to - HEADER} && to - HEADER !in live && Undisturbed(g, headers, live)
      requires size == g[v - HEADER].next - v
      requires to - HEADER in headers && to + n <= headers[to - HEADER].next
      requires history == past + [before + headers[to - HEADER].next - (to - HEADER)]
      modifies this
      ensures Valid() && MovedTo(g, old(bytes), live, past, before, v, to, n)
    {
      CopyData(v, to, size, n, g, live);
      Free(Some(v));
    }

    /** The copy leaves all other blocks alone. */
    method CopyData(v: nat, to: nat, size: nat, n: nat, ghost g: map<nat, Header>, ghost live: set<nat>)
      requires Valid() && v >= HEADER && to >= HEADER && v - HEADER in live
      requires used == live + {to - HEADER} && to - HEADER !in live && Undisturbed(g, headers, live)
      requires size == g[v - HEADER].next - v
      requires to - HEADER in headers && to + n <= headers[to - HEADER].next
      modifies this`bytes
      ensures |bytes| == |old(bytes)| && Kept(g, old(bytes), live, v, to, n)
    {
      var m := if size < n then size else n;
      RoomFor(headers, offs, used, End(), v - HEADER, size, to - HEADER, n);
      CopyClear(g, headers, offs, live, End(), bytes, to, v, m);
      Copy(to, v, m);
    }

    /** Block `v` has moved to `to`, or stayed: it keeps its data as far as both sizes reach, and
        every other live block keeps all of it. */
    ghost predicate Kept(h: map<nat, Header>, b: seq<int>, live: set<nat>, v: nat, to: int, n: nat)
      requires v >= HEADER
      reads this`bytes
    {
      && to >= 0 && v - HEADER in h && v <= h[v - HEADER].next
      && (var size := h[v - HEADER].next - v;
          var m := if size < n then size else n;
          && to + m <= |bytes| == |b| && v + m <= |b| && bytes[to..to + m] == b[v..v + m])
      && forall x :: x in live && x != v - HEADER ==> SameData(h, b, bytes, x)
    }

    /** After a reallocation of `v`: one block has moved, grown or shrunk; it keeps its first
        bytes, and every other live block keeps its place, extent and contents. */
    ghost predicate MovedTo(
      h: map<nat, Header>, b: seq<int>, live: set<nat>, past: seq<int>, before: int, v: nat, to: int, n: nat)
      requires v >= HEADER
      reads this`headers, this`used, this`bytes, this`history, this`usedMem
    {
      && to >= HEADER && used == live - {v - HEADER} + {to - HEADER}
      && to - HEADER in headers && to + n <= headers[to - HEADER].next
      && Undisturbed(h, headers, live - {v - HEADER}) && Kept(h, b, live, v, to, n)
      && Peaked(past, before, v, to)
    }

    /** A block of `size` bytes is not moved for `n` bytes: it has that size, or is split. */
    predicate Stays(size: int, n: nat) {
      size == n || n + HEADER + MIN_SIZE < size
    }

    /** When a reallocation of `v` to `n` bytes stays, moves or fails: it stays where it is exactly if
        the size is right or the rest can be split off, and otherwise fails exactly if no block fits
        or moves to the lowest that does. */
    ghost predicate Decided(h: map<nat, Header>, o: seq<nat>, live: set<nat>, v: nat, n: nat, r: Option<int>) {
      && v >= HEADER && v - HEADER in h
      && (r == Some(v) <==> Stays(h[v - HEADER].next - v, n))
      && (r.None? <==> !Stays(h[v - HEADER].next - v, n) && NoneFits(o, live, memSize, Need(n)))
      && (r.Some? && r.value != v ==> r.value >= HEADER && Served(o, live, memSize, Need(n), r.value - HEADER))
    }

    /** The amounts in use that a reallocation passes through: none if the block stays as it is, the
        new one if it shrinks in place, and while a block moves also the one with both copies. */
    ghost predicate Peaked(past: seq<int>, before: int, v: int, to: int)
      reads this`headers, this`history, this`usedMem
    {
      && to >= HEADER && to - HEADER in headers
      && history == if v != to then past + [before + headers[to - HEADER].next - (to - HEADER), usedMem]
                    else if usedMem == before then past
                    else past + [usedMem]
    }

    /** `rt_realloc` */
    method Realloc(rmem: Option<int>, newsize: nat) returns (r: Option<int>)
      requires Valid()
      requires rmem.Some? && (0 <= rmem.value < End() || newsize == 0) ==>
        rmem.value >= HEADER && rmem.value - HEADER in used
      modifies this
      ensures Valid()
      ensures r.None? ==> history == if newsize == 0 && rmem.Some? then old(history) + [usedMem] else old(history)
      ensures r.Some? && rmem.None? ==> history == old(history) + [usedMem]
      ensures r.Some? && rmem.Some? && !(0 <= rmem.value < End()) ==> history == old(history)
      ensures Align(newsize) > memSize ==>
        r.None? && used == old(used) && headers == old(headers) && bytes == old(bytes)
      ensures newsize == 0 ==> r.None? && bytes == old(bytes) && Undisturbed(old(headers), headers, used)
      ensures newsize == 0 ==> used == if rmem.Some? then old(used) - {rmem.value - HEADER} else old(used)
      ensures rmem.None? && r.Some? ==> used == old(used) + {r.value - HEADER} && r.value - HEADER !in old(used)
      ensures rmem.None? ==> bytes == old(bytes) && Undisturbed(old(headers), headers, old(used))
      ensures rmem.Some? && 0 < Align(newsize) <= memSize && !(0 <= rmem.value < End()) ==>
        r == rmem && used == old(used) && headers == old(headers) && bytes == old(bytes)
      ensures rmem.Some? && 0 < Align(newsize) <= memSize && 0 <= rmem.value < End() && r.None? ==>
        used == old(used) && headers == old(headers) && bytes == old(bytes)
      ensures rmem.None? ==>
        (r.None? <==>
         newsize == 0 || Align(newsize) > memSize || NoneFits(old(offs), old(used), memSize, Need(newsize)))
      ensures rmem.None? && r.Some? ==>
        r.value >= HEADER && Served(old(offs), old(used), memSize, Need(newsize), r.value - HEADER)
      ensures rmem.Some? && 0 < Align(newsize) <= memSize && 0 <= rmem.value < End() ==>
        Decided(old(headers), old(offs), old(used), rmem.value, Align(newsize), r)
      ensures rmem.Some? && 0 < Align(newsize) <= memSize && 0 <= rmem.value < End() && r == rmem ==>
        rmem.value - HEADER in headers && headers[rmem.value - HEADER].next == rmem.value + Align(newsize)
      ensures rmem.Some? && 0 < Align(newsize) <= memSize && 0 <= rmem.value < End() && r.Some? ==>
        MovedTo(old(headers), old(bytes), old(used), old(history), old(usedMem), rmem.value, r.value, Align(newsize))
    {
      LiveHeaders(headers, offs, used, End());
      var n := Align(newsize);
      if n > memSize {
        return None;
      } else if n == 0 {
        Free(if rmem.Some? then Some(rmem.value) else None);
        return None;
      }
      if rmem.None? {
        r := Malloc(n);
        return;
      }
      if rmem.value < 0 || rmem.value >= End() {
        return rmem;
      }
      r := Resize(rmem.value, n);
    }

    /** `rt_realloc` for a live block and a size it has to have */
    method Resize(v: nat, n: nat) returns (r: Option<int>)
      requires Valid() && v >= HEADER && v - HEADER in used
      requires v - HEADER in headers && n > 0 && n % 4 == 0 && n <= memSize
      modifies this
      ensures Valid()
      ensures r.None? ==> history == old(history)
      ensures r.None? ==> used == old(used) && headers == old(headers) && bytes == old(bytes)
      ensures Decided(old(headers), old(offs), old(used), v, n, r)
      ensures r == Some(v) ==> v - HEADER in headers && headers[v - HEADER].next == v + n
      ensures r.Some? ==> MovedTo(old(headers), old(bytes), old(used), old(history), old(usedMem), v, r.value, n)
    {
      var mem := v - HEADER;
      ghost var i := IndexIn(offs, used, End(), mem);
      HeaderAt(headers, offs, used, End(), i);
      assert Sound(offs, i);
      var size := headers[mem].next - mem - HEADER;
      if size == n {
        LiveHeaders(headers, offs, used, End());
        SelfData(headers, offs, used, End(), bytes);
        assert used == used - {mem} + {mem};
        return Some(v);
      }
      if n + HEADER + MIN_SIZE < size {
        SelfData(headers, offs, used, End(), bytes);
        Shrink(mem, n, i);
        assert used == used - {mem} + {mem};
        return Some(v);
      }
      r := Move(v, size, n);
    }
  }

  /** The contents of block `x`, header to end, are the same in `b` and `c`. */
  ghost predicate SameData(h: map<nat, Header>, b: seq<int>, c: seq<int>, x: nat) {
    && x in h && x <= h[x].next <= |b| && |b| == |c|
    && forall k :: x <= k < h[x].next ==> c[k] == b[k]
  }

  /** Live blocks are aligned, inside the heap, and do not overlap; what a block holds is
      clear of every header. */
  lemma BlocksApart(h: map<nat, Header>, offs: seq<nat>, used: set<nat>, end: nat, x: nat, y: nat)
    requires Tiled(offs, end) && UsedIn(offs, used) && Linked(h, offs, used, end) && x in used && y in offs
    ensures x in h && x % 4 == 0 && x + HEADER < h[x].next <= end
    ensures y < x ==> y + HEADER <= x && (y in used ==> y in h && h[y].next <= x)
    ensures x < y ==> h[x].next <= y
  {
    var i := IndexIn(offs, used, end, x);
    var j :| 0 <= j < |offs| && offs[j] == y;
    HeaderAt(h, offs, used, end, i);
    assert Sound(offs, i);
    SameIndex(offs, end, i, j);
    if j < i {
      HeaderAt(h, offs, used, end, j);
      assert Sound(offs, j);
      SameIndex(offs, end, j + 1, i);
    } else if i < j {
      SameIndex(offs, end, i + 1, j);
    }
  }

  lemma SelfData(h: map<nat, Header>, offs: seq<nat>, used: set<nat>, end: nat, b: seq<int>)
    requires Tiled(offs, end) && UsedIn(offs, used) && Linked(h, offs, used, end) && end <= |b|
    ensures forall x :: x in used ==> SameData(h, b, b, x)
  {
    forall x | x in used ensures SameData(h, b, b, x) { BlocksApart(h, offs, used, end, x, x); }
  }

  /** First fit by address: `mem` is the lowest block that serves a request for `n` bytes. */
  ghost predicate Served(offs: seq<nat>, used: set<nat>, memSize: nat, n: nat, mem: nat) {
    exists i :: 0 <= i < |offs| - 1 && offs[i] == mem && Fits(offs, used, memSize, n, i)
      && forall k :: 0 <= k < i ==> !Fits(offs, used, memSize, n, k)
  }

  lemma LowestBelow(offs: seq<nat>, used: set<nat>, end: nat, lfree: nat, i: nat)
    requires IsLowest(offs, used, lfree) && i < |offs| && offs[i] !in used
    ensures lfree <= offs[i] && offs[i] in offs
  {
  }

  lemma IndexIn(offs: seq<nat>, used: set<nat>, end: nat, x: nat) returns (i: nat)
    requires Tiled(offs, end) && UsedIn(offs, used) && x in used
    ensures i + 1 < |offs| && offs[i] == x
  {
    i :| 0 <= i < |offs| && offs[i] == x;
  }

  /** Only block `i` differs between `u` and `v`, and its header is marked accordingly. */
  lemma ToggleLinked(h: map<nat, Header>, offs: seq<nat>, u: set<nat>, v: set<nat>, end: nat, i: nat)
    requires Tiled(offs, end) && Linked(h, offs, u, end) && i + 1 < |offs|
    requires forall x :: x != offs[i] ==> (x in u <==> x in v)
    ensures offs[i] in h && h[offs[i]].next == offs[i + 1]
    ensures Linked(h[offs[i] := h[offs[i]].(used := offs[i] in v)], offs, v, end)
  {
    assert LinkOk(h, offs, u, i);
    var r := h[offs[i] := h[offs[i]].(used := offs[i] in v)];
    forall k | 0 <= k < |offs| - 1 ensures LinkOk(r, offs, v, k) {
      assert LinkOk(h, offs, u, k);
      SameIndex(offs, end, k, i);
    }
    SameIndex(offs, end, i, |offs| - 1);
  }

  lemma ToggleSum(offs: seq<nat>, u: set<nat>, v: set<nat>, end: nat, i: nat)
    requires Tiled(offs, end) && i + 1 < |offs| && offs[i] !in u && v == u + {offs[i]}
    ensures BlockSum(offs, v, 0) == BlockSum(offs, u, 0) + offs[i + 1] - offs[i]
  {
    forall j | 0 <= j < |offs| - 1 && j != i ensures offs[j] in u <==> offs[j] in v { SameIndex(offs, end, j, i); }
    BlockSumToggle(offs, u, v, i, 0);
  }

  /** Turning block `i` free, before its neighbours are looked at. */
  lemma FreeShape(h: map<nat, Header>, offs: seq<nat>, used: set<nat>, end: nat, lfree: nat, usedMem: int, i: nat)
    requires ShapeOf(h, offs, used, end, lfree, usedMem) && Coalesced(offs, used) && i + 1 < |offs| && offs[i] in used
    ensures offs[i] in h && h[offs[i]].next == offs[i + 1]
    ensures ShapeOf(h[offs[i] := h[offs[i]].(used := false)], offs, used - {offs[i]}, end,
                    if offs[i] < lfree then offs[i] else lfree, usedMem - offs[i + 1] + offs[i])
    ensures ApartBut(offs, used - {offs[i]}, i)
  {
    var u := used - {offs[i]};
    ToggleLinked(h, offs, used, u, end, i);
    assert used == u + {offs[i]};
    ToggleSum(offs, u, used, end, i);
    assert offs[i] in offs;
    forall k | 0 <= k < |offs| - 1 && k != i && k + 1 != i ensures HeapChain.Apart(offs, u, k) {
      assert HeapChain.Apart(offs, used, k);
      SameIndex(offs, end, k, i);
      SameIndex(offs, end, k + 1, i);
    }
  }

  /** Block `i` taken whole. */
  lemma TakeWhole(h: map<nat, Header>, offs: seq<nat>, used: set<nat>, end: nat, usedMem: int, i: nat)
    requires ChainOf(h, offs, used, end, usedMem) && ApartBut(offs, used, i) && i + 1 < |offs| && offs[i] !in used
    ensures offs[i] in h && h[offs[i]].next == offs[i + 1]
    ensures ChainOf(h[offs[i] := h[offs[i]].(used := true)], offs, used + {offs[i]}, end,
                    usedMem + offs[i + 1] - offs[i])
    ensures Coalesced(offs, used + {offs[i]})
  {
    var u := used + {offs[i]};
    ToggleLinked(h, offs, used, u, end, i);
    ToggleSum(offs, used, u, end, i);
    SameIndex(offs, end, i, |offs| - 1);
    forall k | 0 <= k < |offs| - 1 ensures HeapChain.Apart(offs, u, k) {
      if k != i && k + 1 != i { assert HeapChain.Apart(offs, used, k); }
    }
  }

  /** Block `i`, used or not, gives up the part from `m` on as a free block. */
  lemma DividedChain(h: map<nat, Header>, offs: seq<nat>, used: set<nat>, end: nat, usedMem: int, i: nat, m: nat)
    requires ChainOf(h, offs, used, end, usedMem) && i + 1 < |offs|
    requires m % 4 == 0 && offs[i] + HEADER + 4 <= m && m + HEADER + 4 <= offs[i + 1]
    ensures offs[i] in h && h[offs[i]].next in h && m !in offs
    ensures ChainOf(Divided(h, offs[i], m, end), Split(offs, i, m), used, end,
                    usedMem - (if offs[i] in used then offs[i + 1] - m else 0))
    ensures forall x :: x in Split(offs, i, m) <==> x in offs || x == m
  {
    HeaderAt(h, offs, used, end, i);
    DividedLinked(h, offs, used, end, i, m);
    SplitTiled(offs, end, i, m);
    BlockSumSplit(offs, used, i, m, 0);
  }

  lemma DividedUndisturbed(h: map<nat, Header>, a: nat, m: nat, end: nat, used: set<nat>)
    requires a in h && h[a].next in h && m !in used && (forall x :: x in used ==> x in h)
    ensures a != m ==> a in Divided(h, a, m, end) && (h[a].next != a ==> Divided(h, a, m, end)[a].next == m)
    ensures Undisturbed(h, Divided(h, a, m, end), used - {a})
  {
  }

  /** After a division only the new pair may be two free neighbours. */
  lemma DividedApart(offs: seq<nat>, used: set<nat>, i: nat, m: nat)
    requires Coalesced(offs, used) && i + 1 < |offs|
    ensures offs[i] !in used ==> ApartBut(Split(offs, i, m), used, i)
    ensures offs[i] in used ==> ApartBut(Split(offs, i, m), used, i + 1)
  {
    var c := Split(offs, i, m);
    forall k | 0 <= k < |c| - 1 && k != i + 1 && k != i ensures HeapChain.Apart(c, used, k) {
      assert HeapChain.Apart(offs, used, if k < i then k else k - 1);
    }
    assert HeapChain.Apart(offs, used, i);
  }

  lemma LiveHeaders(h: map<nat, Header>, offs: seq<nat>, used: set<nat>, end: nat)
    requires UsedIn(offs, used) && Linked(h, offs, used, end)
    ensures forall x :: x in used ==> x in h
  {
    forall x | x in used ensures x in h {
      var k :| 0 <= k < |offs| && offs[k] == x;
      assert LinkOk(h, offs, used, k);
    }
  }
}
