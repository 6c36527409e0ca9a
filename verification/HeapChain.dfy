/** The block chain of a heap (mem.c and memheap.c), seen as the ascending offsets of its headers.
    The last offset is that of the block that ends the heap.  Block `i` runs from `offs[i]` up to
    `offs[i + 1]`.
 */
module HeapChain {

  /** The least extent of a block, which is a header and some data in either heap */
  const GAP: nat := 16

  /** Block `i` is aligned and not too small. */
  ghost predicate Sound(offs: seq<nat>, i: nat)
    requires i + 1 < |offs|
  {
    offs[i] % 4 == 0 && offs[i] + GAP <= offs[i + 1]
  }

  /** The headers tile the region from 0 to `end`: each block ends where the next begins. */
  ghost predicate Tiled(offs: seq<nat>, end: nat) {
    && |offs| >= 2 && offs[0] == 0 && offs[|offs| - 1] == end && end % 4 == 0
    && (forall i :: 0 <= i < |offs| - 1 ==> Sound(offs, i))
  }

  /** Headers come in ascending order, so an offset determines its index. */
  lemma {:induction false} SameIndex(offs: seq<nat>, end: nat, i: nat, j: nat)
    requires Tiled(offs, end) && i < |offs| && j < |offs|
    ensures offs[i] == offs[j] <==> i == j
    ensures offs[i] < offs[j] <==> i < j
    decreases if i < j then j - i else i - j
  {
    if i + 1 < j {
      SameIndex(offs, end, i + 1, j);
      assert Sound(offs, i);
    } else if j + 1 < i {
      SameIndex(offs, end, i, j + 1);
      assert Sound(offs, j);
    } else if i < j {
      assert Sound(offs, i);
    } else if j < i {
      assert Sound(offs, j);
    }
  }

  ghost predicate UsedIn(offs: seq<nat>, used: set<nat>) {
    && (forall x :: x in used ==> x in offs)
    && (offs != [] ==> offs[|offs| - 1] !in used)
  }

  /** Blocks `i` and `i + 1` are not both free; the sentinel does not count as free. */
  ghost predicate Apart(offs: seq<nat>, used: set<nat>, i: nat)
    requires i + 1 < |offs|
  {
    i + 2 < |offs| ==> offs[i] in used || offs[i + 1] in used
  }

  ghost predicate Coalesced(offs: seq<nat>, used: set<nat>) {
    forall i :: 0 <= i < |offs| - 1 ==> Apart(offs, used, i)
  }

  /** `lfree` is the lowest free block, or the sentinel when there is none. */
  ghost predicate IsLowest(offs: seq<nat>, used: set<nat>, lfree: nat) {
    lfree in offs && lfree !in used && forall x :: x in offs && x < lfree ==> x in used
  }

  /** The summed extent of the chosen blocks, less `h` bytes for each of them. */
  ghost function BlockSum(offs: seq<nat>, chosen: set<nat>, h: nat): int {
    if |offs| < 2 then 0
    else (if offs[0] in chosen then offs[1] - offs[0] - h else 0) + BlockSum(offs[1..], chosen, h)
  }

  lemma {:induction false} BlockSumFrom(offs: seq<nat>, used: set<nat>, i: nat, h: nat)
    requires i < |offs|
    ensures BlockSum(offs, used, h) == BlockSum(offs[..i + 1], used, h) + BlockSum(offs[i..], used, h)
  {
    if i == 0 {
      assert offs[..1][1..] == [];
    } else {
      BlockSumFrom(offs[1..], used, i - 1, h);
      assert offs[1..][..i] == offs[..i + 1][1..] && offs[1..][i - 1..] == offs[i..];
    }
  }

  lemma {:induction false} BlockSumAgrees(offs: seq<nat>, u: set<nat>, v: set<nat>, h: nat)
    requires forall i :: 0 <= i < |offs| - 1 ==> (offs[i] in u <==> offs[i] in v)
    ensures BlockSum(offs, u, h) == BlockSum(offs, v, h)
  {
    if |offs| >= 2 {
      assert offs[0] in u <==> offs[0] in v;
      forall i | 0 <= i < |offs[1..]| - 1 ensures offs[1..][i] in u <==> offs[1..][i] in v {
        assert offs[1..][i] == offs[i + 1];
      }
      BlockSumAgrees(offs[1..], u, v, h);
    }
  }

  /** Only block `i` differs between the two sets. */
  lemma BlockSumToggle(offs: seq<nat>, u: set<nat>, v: set<nat>, i: nat, h: nat)
    requires i + 1 < |offs| && offs[i] !in u && offs[i] in v
    requires forall j :: 0 <= j < |offs| - 1 && j != i ==> (offs[j] in u <==> offs[j] in v)
    ensures BlockSum(offs, v, h) == BlockSum(offs, u, h) + offs[i + 1] - offs[i] - h
  {
    BlockSumFrom(offs, u, i, h);
    BlockSumFrom(offs, v, i, h);
    BlockSumAgrees(offs[..i + 1], u, v, h);
    var tail := offs[i..];
    assert tail[0] == offs[i] && tail[1] == offs[i + 1];
    forall j | 0 <= j < |tail[1..]| - 1 ensures tail[1..][j] in u <==> tail[1..][j] in v {
      assert tail[1..][j] == offs[i + 1 + j];
    }
    BlockSumAgrees(tail[1..], u, v, h);
  }

  /** A header put into a block that is free, or taken out between two free parts, changes
      nothing; put into a used block it takes the rest of the block off the sum. */
  lemma BlockSumSplit(offs: seq<nat>, used: set<nat>, i: nat, m: nat, h: nat)
    requires i + 1 < |offs| && m !in used
    ensures BlockSum(Split(offs, i, m), used, h) ==
      BlockSum(offs, used, h) - (if offs[i] in used then offs[i + 1] - m else 0)
  {
    var r := Split(offs, i, m);
    BlockSumFrom(offs, used, i, h);
    BlockSumFrom(r, used, i, h);
    assert r[..i + 1] == offs[..i + 1];
    var a, b := offs[i..], r[i..];
    assert b[0] == a[0] == offs[i] && b[1] == m && b[2] == a[1] && b[1..][1..] == a[1..];
    assert BlockSum(b, used, h) == (if b[0] in used then b[1] - b[0] - h else 0) + BlockSum(b[1..], used, h);
    assert BlockSum(b[1..], used, h) == BlockSum(a[1..], used, h);
  }

  /** The chain without header `i`. */
  function Cut(offs: seq<nat>, i: nat): seq<nat>
    requires i < |offs|
  {
    offs[..i] + offs[i + 1..]
  }

  lemma BlockSumCut(offs: seq<nat>, used: set<nat>, i: nat, h: nat)
    requires 0 < i < |offs| - 1 && offs[i] !in used && offs[i - 1] !in used
    ensures BlockSum(Cut(offs, i), used, h) == BlockSum(offs, used, h)
  {
    var c := Cut(offs, i);
    BlockSumSplit(c, used, i - 1, offs[i], h);
    assert Split(c, i - 1, offs[i]) == offs;
  }

  lemma CutTiled(offs: seq<nat>, end: nat, i: nat)
    requires Tiled(offs, end) && 0 < i < |offs| - 1
    ensures Tiled(Cut(offs, i), end)
    ensures forall x :: x in Cut(offs, i) <==> x in offs && x != offs[i]
  {
    var c := Cut(offs, i);
    forall k | 0 <= k < |c| - 1 ensures Sound(c, k) {
      assert Sound(offs, if k < i then k else k + 1) && Sound(offs, i);
    }
    assert offs == offs[..i] + [offs[i]] + offs[i + 1..];
    if k :| 0 <= k < |c| && c[k] == offs[i] {
      SameIndex(offs, end, if k < i then k else k + 1, i);
      assert false;
    }
  }

  /** The chain with a header put into block `i`. */
  function Split(offs: seq<nat>, i: nat, m: nat): seq<nat>
    requires i < |offs|
  {
    offs[..i + 1] + [m] + offs[i + 1..]
  }

  /** No header lies inside a block. */
  lemma InsideIsNew(offs: seq<nat>, end: nat, i: nat, m: nat)
    requires Tiled(offs, end) && i + 1 < |offs| && offs[i] < m < offs[i + 1]
    ensures m !in offs
  {
    forall k | 0 <= k < |offs| ensures offs[k] != m {
      SameIndex(offs, end, k, i);
      SameIndex(offs, end, k, i + 1);
    }
  }

  lemma SplitTiled(offs: seq<nat>, end: nat, i: nat, m: nat)
    requires Tiled(offs, end) && i + 1 < |offs| && m % 4 == 0
    requires offs[i] + GAP <= m && m + GAP <= offs[i + 1]
    ensures Tiled(Split(offs, i, m), end)
    ensures forall x :: x in Split(offs, i, m) <==> x in offs || x == m
  {
    var r := Split(offs, i, m);
    assert offs == offs[..i + 1] + offs[i + 1..];
    forall k | 0 <= k < |r| - 1 ensures Sound(r, k) {
      assert Sound(offs, if k <= i then k else k - 1);
    }
  }

  /** With nothing used, a coalesced chain is the initial single free block. */
  lemma NothingUsed(offs: seq<nat>, used: set<nat>, end: nat)
    requires Tiled(offs, end) && UsedIn(offs, used) && Coalesced(offs, used) && used == {}
    ensures offs == [0, end] && IsLowest(offs, used, 0) && BlockSum(offs, used, 0) == 0
  {
    assert Apart(offs, used, 0);
    assert offs[1..][1..] == [];
  }

  /** `rt_memcpy` between two ranges that do not overlap */
  function Copied(b: seq<int>, to: nat, from: nat, count: nat): (r: seq<int>)
    requires to + count <= |b| && from + count <= |b|
    ensures |r| == |b| && r[to..to + count] == b[from..from + count]
    ensures forall k :: 0 <= k < |b| && !(to <= k < to + count) ==> r[k] == b[k]
  {
    b[..to] + b[from..from + count] + b[to + count..]
  }

  // --------------------------------------------------------------------------------
  // The maximum of a history
  // --------------------------------------------------------------------------------

  /** The largest amount in use that there has been. */
  ghost function Peak(history: seq<int>): int
    requires history != []
  {
    var n := |history| - 1;
    if n == 0 || Peak(history[..n]) < history[n] then history[n] else Peak(history[..n])
  }

  lemma PeakSnoc(history: seq<int>, a: int)
    requires history != []
    ensures Peak(history + [a]) == if Peak(history) < a then a else Peak(history)
    ensures a <= history[|history| - 1] ==> Peak(history + [a]) == Peak(history)
  {
    assert (history + [a])[..|history|] == history;
  }

  /** It is the maximum: reached once, and never exceeded. */
  lemma {:induction false} PeakIsMaximum(history: seq<int>)
    requires history != []
    ensures Peak(history) in history && forall a :: a in history ==> a <= Peak(history)
    decreases |history|
  {
    var n := |history| - 1;
    if n > 0 { PeakIsMaximum(history[..n]); }
    assert history == history[..n] + [history[n]];
  }
}
