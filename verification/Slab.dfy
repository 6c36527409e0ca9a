/** `rt_malloc` and `rt_free` of slab.c as they change the zone lists, the page table and the
    page list.
 */
module Slab {
  import opened Wrappers
  import opened Lists
  import opened SlabZones
  import P = Pages
  import S = SlabSpec

  /** The lookup loop of `rt_free` that finds a zone's place in the list of its class. */
  method PositionOf(list: seq<nat>, h: nat) returns (i: nat)
    requires h in list
    ensures i < |list| && list[i] == h && h !in list[..i]
  {
    i := 0;
    while list[i] != h
      invariant i < |list| && h !in list[..i] && h in list[i..]
      decreases |list| - i
    {
      assert list[i..] == [list[i]] + list[i + 1..];
      assert list[..i + 1] == list[..i] + [list[i]];
      i := i + 1;
      assert list[i..] != [];
    }
  }

  /** The next chunk of a zone: one never used, or the head of its free list, which is then not
      empty. */
  method Pick(zone: Zone, ghost live: set<nat>) returns (c: nat, z: Zone)
    requires ZoneOk(zone, live) && zone.nfree > 0
    ensures (c, z) == TakeChunk(zone) && c !in live
  {
    TakeChunkOk(zone, live);
    z := zone.(nfree := zone.nfree - 1);
    if z.uindex + 1 != z.nmax {
      z := z.(uindex := z.uindex + 1);
      c := z.base + z.uindex * z.size;
    } else {
      c := z.freechunk[0];
      z := z.(freechunk := z.freechunk[1..]);
    }
  }

  class Allocator {
    const zonePages: nat
    const pageList: P.PageAllocator
    /** `memusage`, `zone_array`, `zone_free`, and the zone headers by page */
    var kup: map<nat, S.Usage>
    var lists: seq<seq<nat>>
    var spare: seq<nat>
    var zones: map<nat, Zone>
    ghost var live: map<nat, set<nat>>
    ghost var large: map<nat, nat>
    ghost var owner: map<nat, nat>

    ghost function Abs(): S.State
      reads this, pageList
    {
      S.State(zonePages, pageList.list, kup, zones, lists, spare, live, large, owner)
    }

    ghost predicate Valid()
      reads this, pageList
    {
      S.Inv(Abs())
    }

    /** `zone_limit` */
    function Limit(): nat {
      if zonePages * PAGE / 4 > LIMIT then LIMIT else zonePages * PAGE / 4
    }

    /** `rt_system_heap_init` for a heap of `npages` pages, the page table taken from them */
    constructor (npages: nat)
      requires npages > 0
      ensures Valid() && fresh(pageList) && S.Initial(Abs(), npages)
    {
      pageList := new P.PageAllocator(0, npages);
      var n := 8;
      while n < 32 && 2 * n * PAGE < npages * PAGE / 1024
        invariant n == 8 || n == 16 || n == 32
        invariant n > 8 ==> 16 * PAGE < npages * PAGE / 1024
        invariant n > 16 ==> 32 * PAGE < npages * PAGE / 1024
        decreases 32 - n
      {
        n := 2 * n;
      }
      zonePages := n;
      kup, zones, spare, live, large, owner := map[], map[], [], map[], map[], map[];
      lists := seq(72, _ => []);
      new;
      var table := pageList.Alloc((npages * 4 + PAGE - 1) / PAGE);
      S.InitialInv(Abs(), npages);
    }

    /** `rt_malloc` */
    method Malloc(bytes: nat) returns (r: Option<nat>)
      requires Valid()
      modifies this, pageList
      ensures Valid() && (r, Abs()) == S.Malloc(old(Abs()), bytes)
    {
      S.MallocInv(Abs(), bytes);
      if bytes == 0 {
        return None;
      }
      if bytes >= Limit() {
        r := MallocLarge(bytes);
        return;
      }
      r := MallocSmall(bytes);
    }

    /** The branches for requests below the limit */
    method MallocSmall(bytes: nat) returns (r: Option<nat>)
      requires Valid() && 0 < bytes < S.Limit(Abs())
      modifies this, pageList
      ensures (r, Abs()) == S.MallocSmall(old(Abs()), bytes)
    {
      S.SmallFits(Abs(), bytes);
      var (zi, size) := ZoneIndex(bytes);
      if lists[zi] != [] {
        var c := TakeFromList(zi);
        return Some(c);
      }
      if spare != [] {
        S.RecycleInv(Abs(), zi);
        var z := spare[0];
        spare := spare[1..];
        var c := Install(z, zi, size);
        return Some(c);
      }
      r := MallocNewZone(zi, size);
    }

    /** The branch that needs pages for a new zone */
    method MallocNewZone(zi: nat, size: nat) returns (r: Option<nat>)
      requires Valid() && S.FitsZone(Abs(), zi) && size == ChunkSize(zi) && lists[zi] == []
      modifies this, pageList
      ensures var (b, rest) := P.Take(old(pageList.list), zonePages);
        if b.None? then r.None? && Abs() == old(Abs())
        else Offset(ChunkSize(zi)) <= S.ZoneSize(old(Abs())) && r.Some? &&
             (r.value, Abs()) == S.Install(S.NewPages(old(Abs()), b.value, rest), b.value, zi)
    {
      if P.Take(pageList.list, zonePages).0.Some? { S.NewZoneInv(Abs(), zi); }
      var z := TakeZonePages();
      if z.None? {
        return None;
      }
      var c := Install(z.value, zi, size);
      r := Some(c);
    }

    /** The branch for large requests */
    method MallocLarge(bytes: nat) returns (r: Option<nat>)
      requires Valid() && bytes > 0
      modifies this`kup, this`large, this`owner, pageList
      ensures (r, Abs()) == S.MallocLarge(old(Abs()), bytes)
    {
      var n := (bytes + PAGE - 1) / PAGE;
      var b := pageList.Alloc(n);
      if b.None? {
        P.TakeKeeps(old(pageList.list), n);
        return None;
      }
      kup := kup[b.value := S.Usage(S.Large, n)];
      large := large[b.value := n];
      owner := S.Claim(owner, b.value, n);
      r := Some(b.value * PAGE);
    }

    /** The branch that finds a zone with a free chunk */
    method TakeFromList(zi: nat) returns (c: nat)
      requires Valid() && zi < 72 && lists[zi] != []
      modifies this`zones, this`lists, this`live
      ensures (c, Abs()) == S.FromList(old(Abs()), zi)
    {
      ghost var s := Abs();
      assert S.ListOk(s, zi) && lists[zi][0] in lists[zi];
      var h := lists[zi][0];
      assert S.ZoneAt(s, h);
      var z;
      c, z := Pick(zones[h], live[h]);
      if z.nfree == 0 {
        lists := lists[zi := lists[zi][1..]];
      }
      zones := zones[h := z];
      live := live[h := live[h] + {c}];
    }

    /** Writes the header of a new zone and links it to its list. */
    method Install(h: nat, zi: nat, size: nat) returns (c: nat)
      requires |lists| == 72 && zi < 72 && size == ChunkSize(zi) && size > 0 && Offset(size) <= zonePages * PAGE
      modifies this`zones, this`lists, this`live
      ensures (c, Abs()) == S.Install(old(Abs()), h, zi)
    {
      var z := FreshZone(zi, h * PAGE, size, zonePages * PAGE);
      c := z.base;
      zones := zones[h := z];
      lists := lists[zi := [h] + lists[zi]];
      live := live[h := {c}];
    }

    /** Pages for a new zone, entered into the page table */
    method TakeZonePages() returns (r: Option<nat>)
      requires Valid()
      modifies this`kup, this`owner, pageList
      ensures var (b, rest) := P.Take(old(pageList.list), zonePages);
        r == b && Abs() == if b.None? then old(Abs()) else S.NewPages(old(Abs()), b.value, rest)
    {
      r := pageList.Alloc(zonePages);
      if r.None? {
        P.TakeKeeps(old(pageList.list), zonePages);
        return;
      }
      EnterPages(r.value);
      owner := S.Claim(owner, r.value, zonePages);
    }

    method EnterPages(h: nat)
      modifies this`kup
      ensures kup == S.Entered(old(kup), h, zonePages)
    {
      for off := 0 to zonePages
        invariant kup == S.Entered(old(kup), h, off)
      {
        kup := kup[h + off := S.Usage(S.Small, off)];
      }
    }

    method ClearPages(h: nat)
      modifies this`kup
      ensures kup == S.Cleared(old(kup), h, zonePages)
    {
      for i := 0 to zonePages
        invariant kup == S.Cleared(old(kup), h, i)
      {
        kup := kup[h + i := S.Usage(S.Unused, 0)];
      }
    }

    /** `rt_free` */
    method Free(ptr: Option<nat>)
      requires Valid() && (ptr.Some? ==> S.Freeable(Abs(), ptr.value))
      modifies this, pageList
      ensures Valid() && Abs() == if ptr.Some? then S.Free(old(Abs()), ptr.value) else old(Abs())
    {
      if ptr.None? {
        return;
      }
      ghost var s := Abs();
      ghost var g := S.FreeCases(s, ptr.value);
      var page := ptr.value / PAGE;
      if kup[page].kind == S.Large {
        FreeLarge(page);
        return;
      }
      var h := page - kup[page].size;
      assert h == g;
      FreeSmall(h, ptr.value);
      assert Abs() == S.FreeSmall(s, g, ptr.value);
    }

    /** A large area goes back to the page list. */
    method FreeLarge(page: nat)
      requires Valid() && page in large && page in kup && kup[page].size == large[page]
      modifies this`kup, this`large, this`owner, pageList
      ensures Abs() == S.FreeLarge(old(Abs()), page)
    {
      ghost var s := Abs();
      assert S.IsHead(s, page);
      S.OwnedApart(s, page);
      var size := kup[page].size;
      kup := kup[page := kup[page].(size := 0)];
      pageList.Free(page, size);
      large, owner := large - {page}, S.Unclaim(owner, page, size);
    }

    /** A chunk goes back to its zone; a zone that is wholly free may go too. */
    method FreeSmall(h: nat, ptr: nat)
      requires Valid() && h in zones && h in live && ptr in live[h]
      modifies this`kup, this`zones, this`lists, this`spare, this`live, this`owner, pageList
      ensures Abs() == S.FreeSmall(old(Abs()), h, ptr)
    {
      S.FreeChunkInv(Abs(), h, ptr);
      var zi := zones[h].zi;
      GiveChunkBack(h, ptr);
      if zones[h].nfree == zones[h].nmax && lists[zi] != [h] {
        S.RetireInv(Abs(), h);
        RetireZone(h);
        if |spare| > 2 {
          DiscardZone();
        }
      }
    }

    method GiveChunkBack(h: nat, ptr: nat)
      requires h in zones && h in live && |lists| == 72 && zones[h].zi < 72
      modifies this`zones, this`lists, this`live
      ensures Abs() == S.FreeChunk(old(Abs()), h, ptr)
    {
      var z := zones[h];
      z := z.(freechunk := [ptr] + z.freechunk);
      if z.nfree == 0 {
        lists := lists[z.zi := [h] + lists[z.zi]];
      }
      z := z.(nfree := z.nfree + 1);
      zones := zones[h := z];
      live := live[h := live[h] - {ptr}];
    }

    /** Unlinks the zone from the list of its class and puts it with the spare ones. */
    method RetireZone(h: nat)
      requires Valid() && h in zones && zones[h].zi < 72 && h in lists[zones[h].zi]
      modifies this`zones, this`lists, this`spare, this`live
      ensures Abs() == S.Retire(old(Abs()), h)
    {
      var zi := zones[h].zi;
      assert S.ListOk(Abs(), zi);
      var i := PositionOf(lists[zi], h);
      WithoutAt(lists[zi], i);
      lists := lists[zi := lists[zi][..i] + lists[zi][i + 1..]];
      spare := [h] + spare;
      zones := zones - {h};
      live := live - {h};
    }

    /** The first spare zone leaves the page table and goes back to the page list. */
    method DiscardZone()
      requires Valid() && spare != []
      modifies this`kup, this`spare, this`owner, pageList
      ensures Abs() == S.Discard(old(Abs()))
    {
      ghost var s := Abs();
      var h := spare[0];
      assert h in spare && S.IsHead(s, h) && S.OneRole(s, h);
      S.OwnedApart(s, h);
      spare := spare[1..];
      ClearPages(h);
      pageList.Free(h, zonePages);
      owner := S.Unclaim(owner, h, zonePages);
    }
  }
}
