/** The memory pool of mempool.c: equal blocks whose first word links the free ones and names
    the pool in the others, and threads waiting for a block.
 */
module MemPoolSpec {
  import opened Lists
  import opened Gates

  datatype State = State(total: nat, free: seq<nat>, live: set<nat>, waiting: Gate)

  datatype Step = Alloc(t: nat, mayWait: bool) | Free(block: nat) | Timeout(t: nat)

  ghost predicate Allowed(s: State, step: Step) {
    match step
    case Alloc(t, mayWait) => t !in s.waiting.waiters
    case Free(b) => b in s.live
    case Timeout(t) => true
  }

  /** Every block is either free, once, or handed out. */
  ghost predicate Inv(s: State) {
    && Distinct(s.free) && (forall b :: b in s.free ==> b !in s.live)
    && (forall b: nat :: b < s.total <==> b in s.free || b in s.live)
    && Good(s.waiting, |s.free|)
  }

  function Do(s: State, step: Step): State
    requires Allowed(s, step)
  {
    match step
    case Alloc(t, mayWait) =>
      if s.free != [] then
        s.(free := s.free[1..], live := s.live + {s.free[0]}, waiting := Leave(s.waiting, t))
      else if mayWait then s.(waiting := Join(s.waiting, t, 0))
      else s.(waiting := Leave(s.waiting, t))
    case Free(b) => s.(free := [b] + s.free, live := s.live - {b}, waiting := WakeFirst(s.waiting))
    case Timeout(t) => s.(waiting := Expire(s.waiting, t))
  }

  lemma StepInv(s: State, step: Step)
    requires Inv(s) && Allowed(s, step)
    ensures Inv(Do(s, step))
  {
    match step
    case Alloc(t, mayWait) => AllocInv(s, t, mayWait);
    case Free(b) => FreeInv(s, b);
    case Timeout(t) => ExpireKeeps(s.waiting, |s.free|, t);
  }

  lemma AllocInv(s: State, t: nat, mayWait: bool)
    requires Inv(s) && Allowed(s, Alloc(t, mayWait))
    ensures Inv(Do(s, Alloc(t, mayWait)))
  {
    if s.free != [] {
      TakeKeeps(s.waiting, |s.free|, t);
      assert s.free == [s.free[0]] + s.free[1..];
    } else {
      GiveUpKeeps(s.waiting, t);
      JoinKeeps(s.waiting, t, 0);
    }
  }

  lemma FreeInv(s: State, b: nat)
    requires Inv(s) && Allowed(s, Free(b))
    ensures Inv(Do(s, Free(b)))
  {
    GiveKeeps(s.waiting, |s.free|);
    assert ([b] + s.free)[1..] == s.free;
  }

  ghost predicate AllowedRun(s: State, steps: seq<Step>)
    decreases |steps|
  {
    steps == [] || (Allowed(s, steps[0]) && AllowedRun(Do(s, steps[0]), steps[1..]))
  }

  ghost function Run(s: State, steps: seq<Step>): State
    requires AllowedRun(s, steps)
    decreases |steps|
  {
    if steps == [] then s else Run(Do(s, steps[0]), steps[1..])
  }

  /** Over any run from a fresh pool, no wake-up is lost and a block is never handed out twice. */
  lemma {:induction false} ReachableState(s: State, steps: seq<Step>)
    requires Inv(s) && AllowedRun(s, steps)
    ensures Inv(Run(s, steps)) && NoLostWakeup(Run(s, steps).waiting, |Run(s, steps).free|)
    decreases |steps|
  {
    if steps != [] {
      StepInv(s, steps[0]);
      ReachableState(Do(s, steps[0]), steps[1..]);
    }
  }

  /** One block, three threads: thread 0 has the block, 2 and 1 wait, and the block comes back.
      Thread 2 is woken for it, and if it is deleted before it runs, thread 1 waits in front of a
      free block and nobody is on the way to it. */
  lemma DeletedWaiterStrandsBlock()
    ensures var s := State(1, [0], {}, Gate([], {}));
      var steps := [Alloc(0, true), Alloc(1, true), Alloc(2, true), Free(0)];
      && Inv(s) && AllowedRun(s, steps)
      && var r := Run(s, steps);
        r.free == [0] && r.waiting == Gate([1], {2}) && !NoLostWakeup(Leave(r.waiting, 2), |r.free|)
  {
    var s0 := State(1, [0], {}, Gate([], {}));
    assert Distinct(s0.free);
    var s1 := Do(s0, Alloc(0, true));
    assert s1 == State(1, [], {0}, Gate([], {}));
    var s2 := Do(s1, Alloc(1, true));
    assert s2 == State(1, [], {0}, Gate([1], {}));
    var s3 := Do(s2, Alloc(2, true));
    assert s3 == State(1, [], {0}, Gate([2, 1], {}));
    var s4 := Do(s3, Free(0));
    assert s4 == State(1, [0], {}, Gate([1], {2}));
    assert Run(s4, []) == s4;
    assert Run(s3, [Free(0)]) == s4;
    assert Run(s2, [Alloc(2, true), Free(0)]) == s4;
    assert Run(s1, [Alloc(1, true), Alloc(2, true), Free(0)]) == s4;
  }

  // --------------------------------------------------------------------------------
  // What each step does
  // --------------------------------------------------------------------------------

  /** If a block is free, an allocation hands out just one, and the others stay free; otherwise the
      thread waits in front of the others, or has left. */
  lemma AllocDoes(s: State, t: nat, mayWait: bool)
    requires Inv(s) && Allowed(s, Alloc(t, mayWait))
    ensures var r := Do(s, Alloc(t, mayWait));
      && r.total == s.total
      && (s.free != [] ==>
          && s.free == [s.free[0]] + r.free && s.free[0] !in s.live && r.live == s.live + {s.free[0]}
          && WentThrough(s.waiting, r.waiting, t))
      && (s.free == [] ==>
          && r.free == [] && r.live == s.live
          && if mayWait then NowWaits(s.waiting, r.waiting, t, 0) else WentThrough(s.waiting, r.waiting, t))
  {
    StepsDo(s.waiting, t, 0);
    assert s.free != [] ==> s.free[0] in s.free;
  }

  /** A block that comes back is the next to be handed out, and the first waiter is woken. */
  lemma FreeDoes(s: State, b: nat)
    requires Inv(s) && Allowed(s, Free(b))
    ensures var r := Do(s, Free(b));
      && r.total == s.total && r.free != [] && r.free[0] == b && r.free[1..] == s.free
      && r.live == s.live - {b} && FirstWoken(s.waiting, r.waiting)
  {
    StepsDo(s.waiting, 0, 0);
  }

  lemma TimeoutDoes(s: State, t: nat)
    requires Inv(s)
    ensures var r := Do(s, Timeout(t)); r == s.(waiting := r.waiting) && TakenOff(s.waiting, r.waiting, t)
  {
    StepsDo(s.waiting, t, 0);
  }
}

module MemPool {
  import opened Wrappers
  import opened Lists
  import opened Gates
  import M = MemPoolSpec

  /** `sizeof(rt_uint8_t *)` */
  const LINK_SIZE: nat := 4

  /** What the first word of a block says. */
  datatype Word = Link(next: Option<nat>) | Pool

  ghost predicate Chain(words: seq<Word>, from: Option<nat>, list: seq<nat>)
    decreases |list|
  {
    if list == [] then from.None?
    else
      && from == Some(list[0]) && list[0] < |words| && words[list[0]].Link?
      && Chain(words, words[list[0]].next, list[1..])
  }

  lemma {:induction false} ChainFrame(words: seq<Word>, from: Option<nat>, list: seq<nat>, b: nat, w: Word)
    requires Chain(words, from, list) && b < |words| && b !in list
    ensures Chain(words[b := w], from, list)
    decreases |list|
  {
    if list != [] { ChainFrame(words, words[list[0]].next, list[1..], b, w); }
  }

  /** The numbers from `k` up to `n`. */
  function Up(k: nat, n: nat): (r: seq<nat>)
    requires k <= n
    ensures |r| == n - k && Distinct(r) && forall x: nat :: x in r <==> k <= x < n
    decreases n - k
  {
    if k == n then [] else [k] + Up(k + 1, n)
  }

  /** Blocks linked in ascending order from `k` on. */
  lemma {:induction false} ChainUp(words: seq<Word>, k: nat)
    requires k <= |words|
    requires forall i :: k <= i < |words| ==> words[i] == Link(if i + 1 < |words| then Some(i + 1) else None)
    ensures Chain(words, if k < |words| then Some(k) else None, Up(k, |words|))
    decreases |words| - k
  {
    if k < |words| {
      ChainUp(words, k + 1);
      assert Up(k, |words|)[1..] == Up(k + 1, |words|);
    }
  }

  datatype Answer = Block(index: nat) | Refused | Suspended

  /** Where the user's part of a block begins. */
  function DataAt(blockSize: nat, index: nat): nat {
    index * (blockSize + LINK_SIZE) + LINK_SIZE
  }

  /** The user's parts of two blocks do not overlap, and keep clear of all first words. */
  lemma BlocksApart(blockSize: nat, size: nat, total: nat, i: nat, j: nat)
    requires total == size / (blockSize + LINK_SIZE) && i < j < total
    ensures DataAt(blockSize, i) + blockSize + LINK_SIZE <= DataAt(blockSize, j)
    ensures DataAt(blockSize, j) + blockSize <= size
  {
    var w := blockSize + LINK_SIZE;
    assert j * w == i * w + (j - i) * w && (j - i) * w >= w by { Scale(j, i, w); }
    assert total * w == j * w + (total - j) * w && (total - j) * w >= w by { Scale(total, j, w); }
    assert size == total * w + size % w;
  }

  lemma Scale(a: nat, b: nat, w: nat)
    requires b < a
    ensures a * w == b * w + (a - b) * w && (a - b) * w >= w
  {
    assert (a - b) * w == (a - b - 1) * w + w;
  }

  /** The link that ends the free list is written to block `total - 1`.  That is in the pool exactly
      when the pool has room for a block; otherwise it lies one block before the pool. */
  lemma LastLink(blockSize: nat, size: nat, total: nat)
    requires total == size / (blockSize + LINK_SIZE)
    ensures var w := blockSize + LINK_SIZE;
      && (0 <= (total - 1) * w && (total - 1) * w + LINK_SIZE <= size <==> size >= w)
      && (size < w ==> (total - 1) * w == -w)
  {
    var w := blockSize + LINK_SIZE;
    assert size == total * w + size % w;
    if total > 0 { Scale(total, 0, w); }
    assert (total - 1) * w == total * w - w;
  }

  /** Eight bytes for blocks of eight: no block fits, and the link goes twelve bytes before them. */
  lemma LastLinkBeforePool()
    ensures 8 / (8 + LINK_SIZE) == 0 && (8 / (8 + LINK_SIZE) - 1) * (8 + LINK_SIZE) == -12
  {
  }

  class MemoryPool {
    var words: seq<Word>
    var blockList: Option<nat>
    var freeCount: nat
    var suspended: seq<nat>
    ghost var model: M.State

    ghost predicate Valid()
      reads this
    {
      && M.Inv(model) && |words| == model.total && freeCount == |model.free|
      && (words != [] ==> Chain(words, blockList, model.free)) && suspended == model.waiting.waiters
      && forall b :: b in model.live ==> b < |words| && words[b] == Pool
    }

    /** `rt_mp_init` for a region with room for `total` blocks.  In a region without room for any,
        the last write is not one to a block, see `LastLink`. */
    constructor (total: nat)
      ensures Valid() && model == M.State(total, Up(0, total), {}, Gate([], {}))
    {
      words := seq(total, _ => Link(None));
      freeCount, suspended, blockList := total, [], Some(0);
      model := M.State(total, Up(0, total), {}, Gate([], {}));
      new;
      for offset := 0 to total
        invariant |words| == total && freeCount == total && suspended == [] && blockList == Some(0)
        invariant model == M.State(total, Up(0, total), {}, Gate([], {}))
        invariant forall i :: 0 <= i < offset ==> words[i] == Link(Some(i + 1))
      {
        words := words[offset := Link(Some(offset + 1))];
      }
      if total > 0 {
        words := words[total - 1 := Link(None)];
        ChainUp(words, 0);
      }
    }

    /** One round of the wait loop of `rt_mp_alloc` and what follows it */
    method Alloc(t: nat, mayWait: bool) returns (r: Answer)
      requires Valid() && M.Allowed(model, M.Alloc(t, mayWait))
      modifies this
      ensures Valid() && model == M.Do(old(model), M.Alloc(t, mayWait))
      ensures r.Block? <==> old(model).free != []
      ensures r.Block? ==> r.index !in old(model).live && r.index in model.live
      ensures r.Suspended? <==> old(model).free == [] && mayWait
    {
      ghost var step := M.Alloc(t, mayWait);
      M.StepInv(model, step);
      if freeCount == 0 {
        if !mayWait {
          model := M.Do(model, step);
          return Refused;
        }
        suspended := [t] + suspended;
        assert suspended == Join(model.waiting, t, 0).waiters;
        model := M.Do(model, step);
        return Suspended;
      }
      freeCount := freeCount - 1;
      var block := blockList.value;
      assert block in model.free;
      blockList := words[block].next;
      ChainFrame(words, blockList, model.free[1..], block, Pool);
      words := words[block := Pool];
      model := M.Do(model, step);
      r := Block(block);
    }

    /** `rt_thread_timeout` of a thread that waits here */
    method Timeout(t: nat)
      requires Valid()
      modifies this
      ensures Valid() && model == M.Do(old(model), M.Timeout(t))
    {
      M.StepInv(model, M.Timeout(t));
      suspended := Without(suspended, t);
      model := M.Do(model, M.Timeout(t));
    }

    /** `rt_mp_free` of a block that this pool handed out */
    method Free(block: nat)
      requires Valid() && M.Allowed(model, M.Free(block))
      modifies this
      ensures Valid() && model == M.Do(old(model), M.Free(block))
    {
      M.StepInv(model, M.Free(block));
      freeCount := freeCount + 1;
      ChainFrame(words, blockList, model.free, block, Link(blockList));
      words := words[block := Link(blockList)];
      blockList := Some(block);
      assert ([block] + model.free)[1..] == model.free;
      if suspended != [] {
        suspended := suspended[1..];
      }
      model := M.Do(model, M.Free(block));
    }
  }
}
