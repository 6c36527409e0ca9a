/** The ready table of systems with more than 32 priorities: a 32-bit group word whose bit
    `n` says that byte `n` of the table is not zero, and a byte per group of eight lists.
 */
module TwoLevelTable {
  import opened Bits
  import opened Lists
  import SchedulerSpec

  class ReadyTable {
    /** `rt_thread_priority_table` */
    var lists: seq<seq<nat>>
    /** `rt_thread_ready_priority_group` */
    var group: nat
    /** `rt_thread_ready_table` */
    var table: seq<nat>

    /** Byte `n` indexes lists `8n` to `8n+7`. */
    ghost predicate ByteAgrees(n: nat)
      requires |lists| == 256 && |table| == 32 && n < 32
      reads this
    {
      && table[n] < 0x100
      && (Bit(group, n) <==> table[n] != 0)
      && forall m :: 0 <= m < 8 ==> (Bit(table[n], m) <==> lists[8 * n + m] != [])
    }

    ghost predicate Valid()
      reads this
    {
      && |lists| == 256 && |table| == 32 && group < 0x1_0000_0000
      && forall n :: 0 <= n < 32 ==> ByteAgrees(n)
    }

    constructor ()
      ensures Valid() && forall p :: 0 <= p < 256 ==> lists[p] == []
    {
      lists, group, table := seq(256, _ => []), 0, seq(32, _ => 0);
      new;
      forall p: nat ensures !Bit(0, p) { ZeroHasNoBits(p); }
    }

    /** `rt_schedule_insert_thread`, the queue and its index */
    method Insert(t: nat, prio: nat)
      requires Valid() && prio < 256
      modifies this
      ensures Valid() && lists == old(lists)[prio := old(lists)[prio] + [t]]
    {
      var number, low := prio / 8, prio % 8;
      assert ByteAgrees(number);
      var byte := Or(table[number], Mask(low));
      Mask32();
      MaskBelow(low, 8);
      OrBelow(table[number], Mask(low), 8);
      forall m | 0 <= m < 8 ensures Bit(byte, m) <==> Bit(table[number], m) || m == low {
        OrBit(table[number], Mask(low), m);
        MaskBit(low, m);
      }
      if byte == 0 { ZeroHasNoBits(low); }
      MaskBelow(number, 32);
      OrBelow(group, Mask(number), 32);
      forall n | 0 <= n < 32 ensures Bit(Or(group, Mask(number)), n) <==> Bit(group, n) || n == number {
        OrBit(group, Mask(number), n);
        MaskBit(number, n);
      }
      lists := lists[prio := lists[prio] + [t]];
      table := table[number := byte];
      group := Or(group, Mask(number));
      forall n | 0 <= n < 32 ensures ByteAgrees(n) {
        assert old(ByteAgrees(n));
      }
    }

    /** `rt_schedule_remove_thread`, the queue and its index */
    method Remove(t: nat, prio: nat)
      requires Valid() && prio < 256
      modifies this
      ensures Valid() && lists == old(lists)[prio := Without(old(lists)[prio], t)]
    {
      var number, low := prio / 8, prio % 8;
      assert ByteAgrees(number);
      lists := lists[prio := Without(lists[prio], t)];
      if lists[prio] == [] {
        var byte := AndNot(table[number], Mask(low));
        AndNotBelow(table[number], Mask(low));
        forall m | 0 <= m < 8 ensures Bit(byte, m) <==> Bit(table[number], m) && m != low {
          AndNotBit(table[number], Mask(low), m);
          MaskBit(low, m);
        }
        table := table[number := byte];
        if byte == 0 {
          AndNotBelow(group, Mask(number));
          forall n | 0 <= n < 32 ensures Bit(AndNot(group, Mask(number)), n) <==> Bit(group, n) && n != number {
            AndNotBit(group, Mask(number), n);
            MaskBit(number, n);
          }
          group := AndNot(group, Mask(number));
        }
      }
      forall n | 0 <= n < 32 ensures ByteAgrees(n) {
        assert old(ByteAgrees(n));
      }
    }

    /** `_scheduler_get_highest_priority_thread`: two lookups find the most urgent list. */
    method Highest() returns (h: nat)
      requires Valid() && group != 0
      ensures h < 256 && lists[h] != [] && h == SchedulerSpec.Top(lists)
    {
      FfsIsLowest(group);
      var number := Ffs(group) - 1;
      assert ByteAgrees(number);
      FfsIsLowest(table[number]);
      Mask32();
      var low := Ffs(table[number]) - 1;
      BitBelow(table[number], 8, low);
      h := number * 8 + low;
      forall p | 0 <= p < h ensures lists[p] == [] {
        var n := p / 8;
        assert ByteAgrees(n);
        assert p == 8 * n + p % 8;
        if n < number {
          assert !Bit(group, n);
          ZeroHasNoBits(p % 8);
        } else {
          assert n == number && !Bit(table[number], p % 8);
        }
      }
    }

    /** The group word is zero exactly when no list has a thread. */
    lemma GroupZero()
      requires Valid()
      ensures group == 0 <==> forall p :: 0 <= p < 256 ==> lists[p] == []
    {
      if group == 0 {
        forall p | 0 <= p < 256 ensures lists[p] == [] {
          assert ByteAgrees(p / 8);
          ZeroHasNoBits(p / 8);
          ZeroHasNoBits(p % 8);
          assert lists[8 * (p / 8) + p % 8] == lists[p];
        }
      } else {
        FfsIsLowest(group);
        var n := Ffs(group) - 1;
        assert ByteAgrees(n);
        FfsIsLowest(table[n]);
        Mask32();
        BitBelow(table[n], 8, Ffs(table[n]) - 1);
        assert lists[8 * n + (Ffs(table[n]) - 1)] != [];
      }
    }
  }
}
