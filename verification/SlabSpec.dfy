/** The slab allocator of slab.c as a whole: zones on page runs, large areas, and the page table
    that leads from an address back to its zone.  Page numbers and addresses count from the
    start of the heap.
 */
module SlabSpec {
  import opened Wrappers
  import opened Lists
  import opened SlabZones
  import P = Pages

  datatype Kind = Unused | Small | Large

  /** An entry of the page table, `struct memusage` */
  datatype Usage = Usage(kind: Kind, size: nat)

  /** `zonePages` is the number of pages of a zone.  `zones` are the zones in service by their
      first page, `lists` the lists of those with free chunks, `spare` the list of wholly free
      zones.  `live`, `large` and `owner` record the chunks in use of each zone, the large areas
      with their lengths, and to which zone or area a page belongs. */
  datatype State = State(
    zonePages: nat, pages: seq<P.Run>, kup: map<nat, Usage>, zones: map<nat, Zone>, lists: seq<seq<nat>>,
    spare: seq<nat>,
    live: map<nat, set<nat>>, large: map<nat, nat>, owner: map<nat, nat>)

  function ZoneSize(s: State): nat {
    s.zonePages * PAGE
  }

  // --------------------------------------------------------------------------------
  // Invariant
  // --------------------------------------------------------------------------------

  ghost predicate IsHead(s: State, h: nat) {
    h in s.zones || h in s.spare || h in s.large
  }

  /** One page can head only one of a zone in service, a spare zone and a large area. */
  ghost predicate OneRole(s: State, h: nat) {
    (h in s.zones ==> h !in s.spare && h !in s.large) && (h in s.spare ==> h !in s.large) && Length(s, h) > 0
  }

  function Length(s: State, h: nat): nat {
    if h in s.large then s.large[h] else s.zonePages
  }

  /** All pages of the zone or area are its own. */
  ghost predicate Owns(s: State, h: nat) {
    forall p :: h <= p < h + Length(s, h) ==> p in s.owner && s.owner[p] == h
  }

  /** A page is not both free and owned; the table entry of a zone's page says how far it is from
      the first, and that of a large area's first page how long the area is. */
  ghost predicate PageOk(s: State, p: nat) {
    && (P.In(s.pages, p) ==> p !in s.owner)
    && (p in s.owner ==>
        var h := s.owner[p];
        && IsHead(s, h) && h <= p < h + Length(s, h)
        && (h !in s.large ==> p in s.kup && s.kup[p] == Usage(Small, p - h))
        && (h in s.large && p == h ==> p in s.kup && s.kup[p] == Usage(Large, s.large[h])))
  }

  /** A zone in service keeps its chunks, lies within its pages, and is on the list of its class
      exactly when it has a free chunk. */
  ghost predicate ZoneAt(s: State, h: nat)
    requires h in s.zones && |s.lists| == 72
  {
    var z := s.zones[h];
    && h in s.live && ZoneOk(z, s.live[h]) && Within(z, h * PAGE, (h + s.zonePages) * PAGE)
    && z.base == h * PAGE + Offset(z.size)
    && z.zi < 72 && z.size == ChunkSize(z.zi) && (z.nfree > 0 <==> h in s.lists[z.zi])
  }

  ghost predicate ListOk(s: State, zi: nat)
    requires zi < |s.lists|
  {
    && Distinct(s.lists[zi])
    && forall h :: h in s.lists[zi] ==> h in s.zones && s.zones[h].zi == zi && s.zones[h].nfree > 0
  }

  ghost predicate Inv(s: State) {
    && s.zonePages >= 8 && |s.lists| == 72 && P.Canonical(s.pages) && Distinct(s.spare)
    && (forall h :: IsHead(s, h) ==> OneRole(s, h) && Owns(s, h))
    && (forall p: nat :: PageOk(s, p))
    && (forall h :: h in s.zones ==> ZoneAt(s, h))
    && (forall zi :: 0 <= zi < 72 ==> ListOk(s, zi))
  }

  // --------------------------------------------------------------------------------
  // From an address back to its zone
  // --------------------------------------------------------------------------------

  /** The page-table lookup of `rt_free` */
  function ZoneOf(s: State, ptr: nat): (h: int)
    requires ptr / PAGE in s.kup
  {
    ptr / PAGE - s.kup[ptr / PAGE].size
  }

  /** The table leads from any chunk in use back to its own zone. */
  lemma LookupFindsZone(s: State, h: nat, c: nat)
    requires Inv(s) && h in s.zones && h in s.live && c in s.live[h]
    ensures c / PAGE in s.kup && s.kup[c / PAGE].kind == Small && ZoneOf(s, c) == h
  {
    assert ZoneAt(s, h);
    var z := s.zones[h];
    LiveApart(z, s.live[h], h * PAGE, (h + s.zonePages) * PAGE, c, c);
    var p := c / PAGE;
    assert h <= p < h + s.zonePages by { PageOfAddress(h, s.zonePages, c); }
    assert IsHead(s, h) && OneRole(s, h) && Owns(s, h);
    assert PageOk(s, p);
  }

  lemma PageOfAddress(h: nat, n: nat, c: nat)
    requires h * PAGE <= c < (h + n) * PAGE
    ensures h <= c / PAGE < h + n
  {
  }

  /** Chunks in use never overlap, whichever zones they are in, nor do they touch the headers. */
  lemma LiveChunksApart(s: State, g: nat, c: nat, h: nat, d: nat)
    requires Inv(s) && g in s.zones && h in s.zones && g in s.live
    requires h in s.live && c in s.live[g] && d in s.live[h] && c < d
    ensures c + s.zones[g].size <= d
    ensures g * PAGE + ZONE_HEADER <= c && c + s.zones[g].size <= (g + s.zonePages) * PAGE
  {
    assert ZoneAt(s, g) && ZoneAt(s, h);
    LiveApart(s.zones[g], s.live[g], g * PAGE, (g + s.zonePages) * PAGE, c, if g == h then d else c);
    LiveApart(s.zones[h], s.live[h], h * PAGE, (h + s.zonePages) * PAGE, d, d);
    if g != h { ZonesApart(s, g, h); }
  }

  lemma ZonesApart(s: State, g: nat, h: nat)
    requires Inv(s) && g in s.zones && h in s.zones && g != h
    ensures g + s.zonePages <= h || h + s.zonePages <= g
  {
    assert IsHead(s, g) && IsHead(s, h) && OneRole(s, g) && OneRole(s, h) && Owns(s, g) && Owns(s, h);
    assert s.owner[g] == g && s.owner[h] == h;
  }

  // --------------------------------------------------------------------------------
  // Allocation
  // --------------------------------------------------------------------------------

  /** Pages `h` to `h + n` become those of the zone or area at `h`. */
  function Claim(owner: map<nat, nat>, h: nat, n: nat): (r: map<nat, nat>)
    ensures forall p :: p in r <==> p in owner || h <= p < h + n
    ensures forall p :: p in r ==> r[p] == if h <= p < h + n then h else owner[p]
  {
    if n == 0 then owner else Claim(owner, h, n - 1)[h + n - 1 := h]
  }

  function Unclaim(owner: map<nat, nat>, h: nat, n: nat): map<nat, nat> {
    map p: nat | p in owner && !(h <= p < h + n) :: owner[p]
  }

  /** The loop that enters a new zone into the page table */
  function Entered(kup: map<nat, Usage>, h: nat, n: nat): (r: map<nat, Usage>)
    ensures forall p :: p in r <==> p in kup || h <= p < h + n
    ensures forall p :: p in r ==> r[p] == if h <= p < h + n then Usage(Small, p - h) else kup[p]
  {
    if n == 0 then kup else Entered(kup, h, n - 1)[h + n - 1 := Usage(Small, n - 1)]
  }

  /** The loop that takes a released zone out of the page table */
  function Cleared(kup: map<nat, Usage>, h: nat, n: nat): (r: map<nat, Usage>)
    ensures forall p :: p in r <==> p in kup || h <= p < h + n
    ensures forall p :: p in r ==> r[p] == if h <= p < h + n then Usage(Unused, 0) else kup[p]
  {
    if n == 0 then kup else Cleared(kup, h, n - 1)[h + n - 1 := Usage(Unused, 0)]
  }

  /** `rt_malloc` from the zone at the head of its list */
  function FromList(s: State, zi: nat): (nat, State)
    requires Inv(s) && zi < 72 && s.lists[zi] != []
  {
    assert ListOk(s, zi) && s.lists[zi][0] in s.lists[zi];
    var h := s.lists[zi][0];
    assert ZoneAt(s, h);
    var (c, z) := TakeChunk(s.zones[h]);
    (c, s.(zones := s.zones[h := z], live := s.live[h := s.live[h] + {c}],
           lists := if z.nfree == 0 then s.lists[zi := s.lists[zi][1..]] else s.lists))
  }

  /** A new zone of class `zi` on pages that are its own already */
  function Install(s: State, h: nat, zi: nat): (nat, State)
    requires |s.lists| == 72 && zi < 72 && ChunkSize(zi) > 0 && Offset(ChunkSize(zi)) <= ZoneSize(s)
  {
    var z := FreshZone(zi, h * PAGE, ChunkSize(zi), ZoneSize(s));
    (z.base, s.(zones := s.zones[h := z], live := s.live[h := {z.base}], lists := s.lists[zi := [h] + s.lists[zi]]))
  }

  /** Pages taken for a new zone */
  function NewPages(s: State, h: nat, rest: seq<P.Run>): State {
    s.(pages := rest, kup := Entered(s.kup, h, s.zonePages), owner := Claim(s.owner, h, s.zonePages))
  }

  lemma FromListInv(s: State, zi: nat)
    requires Inv(s) && zi < 72 && s.lists[zi] != []
    ensures var (c, r) := FromList(s, zi);
      var h := s.lists[zi][0];
      Inv(r) && h in s.live && c !in s.live[h] && r.live == s.live[h := s.live[h] + {c}] && r.large == s.large
  {
    assert ListOk(s, zi) && s.lists[zi][0] in s.lists[zi];
    var h := s.lists[zi][0];
    assert ZoneAt(s, h);
    TakeChunkOk(s.zones[h], s.live[h]);
    var (c, r) := FromList(s, zi);
    forall g | IsHead(r, g) ensures OneRole(r, g) && Owns(r, g) { assert IsHead(s, g) && OneRole(s, g) && Owns(s, g); }
    forall p: nat ensures PageOk(r, p) { assert PageOk(s, p); }
    forall g | g in r.zones ensures ZoneAt(r, g) { assert ZoneAt(s, g); assert ListOk(s, s.zones[g].zi); }
    forall k | 0 <= k < 72 ensures ListOk(r, k) { assert ListOk(s, k); }
  }

  /** Classes that requests below the limit fall into have chunks that fit a zone. */
  ghost predicate FitsZone(s: State, zi: nat) {
    zi < 72 && ChunkSize(zi) > 0 && 4 * ChunkSize(zi) <= ZoneSize(s)
  }

  lemma InstallOk(s: State, h: nat, zi: nat)
    requires s.zonePages >= 8 && |s.lists| == 72 && FitsZone(s, zi) && (forall k :: 0 <= k < 72 ==> ListOk(s, k))
    requires (forall g :: g in s.zones ==> ZoneAt(s, g)) && h !in s.zones
    ensures Offset(ChunkSize(zi)) <= ZoneSize(s)
    ensures var (c, r) := Install(s, h, zi);
      (forall g :: g in r.zones ==> ZoneAt(r, g)) && (forall k :: 0 <= k < 72 ==> ListOk(r, k))
  {
    FreshZoneOk(zi, h * PAGE, ChunkSize(zi), ZoneSize(s));
    var (c, r) := Install(s, h, zi);
    assert h * PAGE + ZoneSize(s) == (h + s.zonePages) * PAGE;
    assert r.lists[zi][1..] == s.lists[zi];
    assert ListOk(s, zi);
    forall g | g in r.zones ensures ZoneAt(r, g) { assert g != h ==> ZoneAt(s, g); }
    forall k | 0 <= k < 72 ensures ListOk(r, k) { assert ListOk(s, k); }
  }

  /** A zone set up again on the pages of a spare one */
  lemma RecycleInv(s: State, zi: nat)
    requires Inv(s) && FitsZone(s, zi) && s.lists[zi] == [] && s.spare != []
    ensures Offset(ChunkSize(zi)) <= ZoneSize(s)
    ensures var (c, r) := Install(s.(spare := s.spare[1..]), s.spare[0], zi);
      Inv(r) && s.spare[0] !in s.zones && r.live == s.live[s.spare[0] := {c}] && r.large == s.large
  {
    var h, s1 := s.spare[0], s.(spare := s.spare[1..]);
    assert h in s.spare && IsHead(s, h) && OneRole(s, h);
    assert forall x :: x in s.spare <==> x == h || x in s1.spare;
    forall g | g in s1.zones ensures ZoneAt(s1, g) { assert ZoneAt(s, g); }
    forall k | 0 <= k < 72 ensures ListOk(s1, k) { assert ListOk(s, k); }
    InstallOk(s1, h, zi);
    var (c, r) := Install(s1, h, zi);
    forall g | IsHead(r, g) ensures OneRole(r, g) && Owns(r, g) { assert IsHead(s, g) && OneRole(s, g) && Owns(s, g); }
    forall p: nat ensures PageOk(r, p) { assert PageOk(s, p); }
  }

  /** Pages that are neither free nor part of a zone or area: somebody has taken them from the page
      list, or is about to put them back. */
  ghost predicate Unclaimed(s: State, b: nat, n: nat) {
    forall p :: b <= p < b + n ==> !P.In(s.pages, p) && p !in s.owner
  }

  /** Such pages are clear of every zone and area. */
  lemma UnclaimedApart(s: State, b: nat, n: nat)
    requires Inv(s) && n > 0 && Unclaimed(s, b, n)
    ensures !IsHead(s, b) && forall h: nat :: IsHead(s, h) ==> h + Length(s, h) <= b || b + n <= h
  {
    forall h: nat | IsHead(s, h) ensures h + Length(s, h) <= b || b + n <= h {
      assert Owns(s, h) && OneRole(s, h);
      assert h <= b < h + Length(s, h) ==> b in s.owner;
      assert b <= h < b + n ==> h in s.owner;
    }
  }

  /** `rt_page_alloc` of `n` pages */
  lemma TakePagesInv(s: State, n: nat)
    requires Inv(s) && n > 0 && P.Take(s.pages, n).0.Some?
    ensures var (b, rest) := P.Take(s.pages, n);
      var r := s.(pages := rest);
      && Inv(r) && Unclaimed(r, b.value, n) && P.FreeAt(s.pages, b.value, n)
      && forall p: nat :: P.In(rest, p) ==> P.In(s.pages, p)
  {
    var (b, rest) := P.Take(s.pages, n);
    P.TakeKeeps(s.pages, n);
    P.TakenIsFree(s.pages, n);
    var r := s.(pages := rest);
    forall p | b.value <= p < b.value + n ensures !P.In(rest, p) && p !in s.owner {
      assert P.In(s.pages, p) && PageOk(s, p);
    }
    forall p: nat | P.In(rest, p) ensures p !in s.owner { assert P.In(s.pages, p) && PageOk(s, p); }
    PagesInv(s, r);
  }

  /** Nothing but the list of free pages has changed, and it has no page of a zone or area. */
  lemma PagesInv(s: State, r: State)
    requires Inv(s) && r == s.(pages := r.pages) && P.Canonical(r.pages)
    requires forall p: nat :: P.In(r.pages, p) ==> p !in s.owner
    ensures Inv(r)
  {
    forall g | g in r.zones ensures ZoneAt(r, g) { assert ZoneAt(s, g); }
    forall k | 0 <= k < 72 ensures ListOk(r, k) { assert ListOk(s, k); }
    forall g | IsHead(r, g) ensures OneRole(r, g) && Owns(r, g) { assert IsHead(s, g) && OneRole(s, g) && Owns(s, g); }
    forall p: nat ensures PageOk(r, p) { assert PageOk(s, p); }
  }

  /** `rt_page_free` */
  lemma GivePagesInv(s: State, b: nat, n: nat)
    requires Inv(s) && n > 0 && Unclaimed(s, b, n)
    ensures Inv(s.(pages := P.Give(s.pages, b, n)))
    ensures forall p: nat :: P.In(P.Give(s.pages, b, n), p) <==> P.In(s.pages, p) || b <= p < b + n
  {
    P.GiveKeeps(s.pages, b, n);
    forall p: nat | P.In(s.pages, p) ensures p !in s.owner { assert PageOk(s, p); }
    PagesInv(s, s.(pages := P.Give(s.pages, b, n)));
  }

  /** A zone set up on pages that nobody claims, whatever has happened since they were taken */
  lemma AdoptZoneInv(s: State, h: nat, zi: nat)
    requires Inv(s) && FitsZone(s, zi) && Unclaimed(s, h, s.zonePages)
    ensures Offset(ChunkSize(zi)) <= ZoneSize(s)
    ensures var (c, r) := Install(NewPages(s, h, s.pages), h, zi);
      Inv(r) && h !in s.zones && r.live == s.live[h := {c}] && r.large == s.large
  {
    var s1 := NewPages(s, h, s.pages);
    UnclaimedApart(s, h, s.zonePages);
    forall g | g in s1.zones ensures ZoneAt(s1, g) { assert ZoneAt(s, g); }
    forall k | 0 <= k < 72 ensures ListOk(s1, k) { assert ListOk(s, k); }
    InstallOk(s1, h, zi);
    AdoptZonePages(s, h, zi);
  }

  lemma AdoptZonePages(s: State, h: nat, zi: nat)
    requires Inv(s) && FitsZone(s, zi) && Offset(ChunkSize(zi)) <= ZoneSize(s) && !IsHead(s, h)
    requires Unclaimed(s, h, s.zonePages)
    requires forall g: nat :: IsHead(s, g) ==> g + Length(s, g) <= h || h + s.zonePages <= g
    ensures var r := Install(NewPages(s, h, s.pages), h, zi).1;
      (forall g :: IsHead(r, g) ==> OneRole(r, g) && Owns(r, g)) && forall p: nat :: PageOk(r, p)
  {
    var r := Install(NewPages(s, h, s.pages), h, zi).1;
    forall g | IsHead(r, g) ensures OneRole(r, g) && Owns(r, g) {
      assert g != h ==> IsHead(s, g) && OneRole(s, g) && Owns(s, g);
    }
    forall p: nat ensures PageOk(r, p) { assert PageOk(s, p); }
  }

  /** A zone set up on pages just taken */
  lemma NewZoneInv(s: State, zi: nat)
    requires Inv(s) && FitsZone(s, zi) && s.lists[zi] == [] && P.Take(s.pages, s.zonePages).0.Some?
    ensures Offset(ChunkSize(zi)) <= ZoneSize(s)
    ensures var (b, rest) := P.Take(s.pages, s.zonePages);
      var (c, r) := Install(NewPages(s, b.value, rest), b.value, zi);
      Inv(r) && b.value !in s.zones && r.live == s.live[b.value := {c}] && r.large == s.large
  {
    var (b, rest) := P.Take(s.pages, s.zonePages);
    TakePagesInv(s, s.zonePages);
    var s1 := s.(pages := rest);
    AdoptZoneInv(s1, b.value, zi);
    assert NewPages(s1, b.value, rest) == NewPages(s, b.value, rest);
  }

  /** `rt_malloc` of `n` whole pages that were found at `b` */
  function LargeArea(s: State, b: nat, rest: seq<P.Run>, n: nat): State {
    s.(pages := rest, kup := s.kup[b := Usage(Large, n)], large := s.large[b := n], owner := Claim(s.owner, b, n))
  }

  lemma AdoptAreaInv(s: State, h: nat, n: nat)
    requires Inv(s) && n > 0 && Unclaimed(s, h, n)
    ensures Inv(LargeArea(s, h, s.pages, n)) && !IsHead(s, h)
  {
    var r := LargeArea(s, h, s.pages, n);
    UnclaimedApart(s, h, n);
    forall g | g in r.zones ensures ZoneAt(r, g) { assert ZoneAt(s, g); }
    forall k | 0 <= k < 72 ensures ListOk(r, k) { assert ListOk(s, k); }
    forall g | IsHead(r, g) ensures OneRole(r, g) && Owns(r, g) {
      assert g != h ==> IsHead(s, g) && OneRole(s, g) && Owns(s, g);
    }
    forall p: nat ensures PageOk(r, p) { assert PageOk(s, p); }
  }

  lemma LargeInv(s: State, n: nat)
    requires Inv(s) && n > 0 && P.Take(s.pages, n).0.Some?
    ensures var (b, rest) := P.Take(s.pages, n); Inv(LargeArea(s, b.value, rest, n)) && !IsHead(s, b.value)
  {
    var (b, rest) := P.Take(s.pages, n);
    TakePagesInv(s, n);
    var s1 := s.(pages := rest);
    AdoptAreaInv(s1, b.value, n);
    assert LargeArea(s1, b.value, rest, n) == LargeArea(s, b.value, rest, n);
    assert IsHead(s1, b.value) <==> IsHead(s, b.value);
  }

  // --------------------------------------------------------------------------------
  // Release
  // --------------------------------------------------------------------------------

  /** `rt_free` of a large area */
  function FreeLarge(s: State, h: nat): State
    requires h in s.large && h in s.kup
  {
    s.(pages := P.Give(s.pages, h, s.large[h]), kup := s.kup[h := s.kup[h].(size := 0)],
       large := s.large - {h}, owner := Unclaim(s.owner, h, s.large[h]))
  }

  /** The pages of a zone or area are taken, and those of others lie elsewhere. */
  lemma OwnedApart(s: State, h: nat)
    requires Inv(s) && IsHead(s, h)
    ensures P.Taken(s.pages, h, Length(s, h)) && Length(s, h) > 0
    ensures forall g: nat :: IsHead(s, g) && g != h ==> g + Length(s, g) <= h || h + Length(s, h) <= g
  {
    assert Owns(s, h) && OneRole(s, h);
    forall p | h <= p < h + Length(s, h) ensures !P.In(s.pages, p) { assert PageOk(s, p); }
    forall g: nat | IsHead(s, g) && g != h ensures g + Length(s, g) <= h || h + Length(s, h) <= g {
      assert Owns(s, g) && OneRole(s, g);
      assert s.owner[g] == g && s.owner[h] == h;
    }
  }

  /** The critical section of that call, before the pages are put back */
  function DropArea(s: State, h: nat): State
    requires h in s.large && h in s.kup
  {
    s.(kup := s.kup[h := s.kup[h].(size := 0)], large := s.large - {h}, owner := Unclaim(s.owner, h, s.large[h]))
  }

  lemma DropAreaInv(s: State, h: nat)
    requires Inv(s) && h in s.large
    ensures h in s.kup && s.kup[h] == Usage(Large, s.large[h]) && s.large[h] > 0
    ensures Inv(DropArea(s, h)) && Unclaimed(DropArea(s, h), h, s.large[h])
  {
    assert IsHead(s, h) && Owns(s, h) && OneRole(s, h);
    assert h in s.owner && PageOk(s, h);
    OwnedApart(s, h);
    var r := DropArea(s, h);
    forall g | g in r.zones ensures ZoneAt(r, g) { assert ZoneAt(s, g); }
    forall k | 0 <= k < 72 ensures ListOk(r, k) { assert ListOk(s, k); }
    forall g | IsHead(r, g) ensures OneRole(r, g) && Owns(r, g) { assert IsHead(s, g) && OneRole(s, g) && Owns(s, g); }
    forall p: nat ensures PageOk(r, p) { assert PageOk(s, p); }
  }

  lemma FreeLargeInv(s: State, h: nat)
    requires Inv(s) && h in s.large
    ensures h in s.kup && s.kup[h] == Usage(Large, s.large[h]) && Inv(FreeLarge(s, h))
  {
    DropAreaInv(s, h);
    GivePagesInv(DropArea(s, h), h, s.large[h]);
  }

  /** `rt_free` of a chunk, up to the question whether its zone is wholly free */
  function FreeChunk(s: State, h: nat, c: nat): State
    requires h in s.zones && h in s.live && |s.lists| == 72 && s.zones[h].zi < 72
  {
    var z := s.zones[h];
    s.(zones := s.zones[h := GiveChunk(z, c)], live := s.live[h := s.live[h] - {c}],
       lists := if z.nfree == 0 then s.lists[z.zi := [h] + s.lists[z.zi]] else s.lists)
  }

  lemma FreeChunkInv(s: State, h: nat, c: nat)
    requires Inv(s) && h in s.zones && h in s.live && c in s.live[h]
    ensures s.zones[h].zi < 72 && Inv(FreeChunk(s, h, c)) && h in FreeChunk(s, h, c).lists[s.zones[h].zi]
  {
    assert ZoneAt(s, h);
    GiveChunkOk(s.zones[h], s.live[h], c);
    var r, zi := FreeChunk(s, h, c), s.zones[h].zi;
    assert ListOk(s, zi);
    assert s.zones[h].nfree == 0 ==> r.lists[zi][1..] == s.lists[zi];
    forall g | g in r.zones ensures ZoneAt(r, g) { assert ZoneAt(s, g); }
    forall k | 0 <= k < 72 ensures ListOk(r, k) { assert ListOk(s, k); }
    forall g | IsHead(r, g) ensures OneRole(r, g) && Owns(r, g) { assert IsHead(s, g) && OneRole(s, g) && Owns(s, g); }
    forall p: nat ensures PageOk(r, p) { assert PageOk(s, p); }
  }

  /** A wholly free zone goes to the spare ones. */
  function Retire(s: State, h: nat): State
    requires h in s.zones && |s.lists| == 72 && s.zones[h].zi < 72
  {
    var zi := s.zones[h].zi;
    s.(zones := s.zones - {h}, live := s.live - {h}, spare := [h] + s.spare,
       lists := s.lists[zi := Without(s.lists[zi], h)])
  }

  lemma RetireInv(s: State, h: nat)
    requires Inv(s) && h in s.zones
    ensures s.zones[h].zi < 72 && Inv(Retire(s, h))
  {
    assert ZoneAt(s, h) && IsHead(s, h) && OneRole(s, h);
    var r := Retire(s, h);
    assert r.spare[1..] == s.spare;
    forall g | g in r.zones ensures ZoneAt(r, g) { assert ZoneAt(s, g); }
    forall k | 0 <= k < 72 ensures ListOk(r, k) { assert ListOk(s, k); }
    forall g | IsHead(r, g) ensures OneRole(r, g) && Owns(r, g) { assert IsHead(s, g) && OneRole(s, g) && Owns(s, g); }
    forall p: nat ensures PageOk(r, p) { assert PageOk(s, p); }
  }

  /** The pages of the first spare zone go back to the page allocator. */
  function Discard(s: State): State
    requires s.spare != []
  {
    var h := s.spare[0];
    s.(spare := s.spare[1..], kup := Cleared(s.kup, h, s.zonePages), pages := P.Give(s.pages, h, s.zonePages),
       owner := Unclaim(s.owner, h, s.zonePages))
  }

  /** Up to where the lock is given up: the zone leaves the spare list and the page table. */
  function Withdraw(s: State): State
    requires s.spare != []
  {
    var h := s.spare[0];
    s.(spare := s.spare[1..], kup := Cleared(s.kup, h, s.zonePages), owner := Unclaim(s.owner, h, s.zonePages))
  }

  lemma WithdrawInv(s: State)
    requires Inv(s) && s.spare != []
    ensures Inv(Withdraw(s)) && Unclaimed(Withdraw(s), s.spare[0], s.zonePages)
  {
    var h, r := s.spare[0], Withdraw(s);
    assert h in s.spare && IsHead(s, h) && OneRole(s, h);
    OwnedApart(s, h);
    assert forall x :: x in s.spare <==> x == h || x in r.spare;
    forall g | g in r.zones ensures ZoneAt(r, g) { assert ZoneAt(s, g); }
    forall k | 0 <= k < 72 ensures ListOk(r, k) { assert ListOk(s, k); }
    forall g | IsHead(r, g) ensures OneRole(r, g) && Owns(r, g) { assert IsHead(s, g) && OneRole(s, g) && Owns(s, g); }
    forall p: nat ensures PageOk(r, p) { assert PageOk(s, p); }
  }

  lemma DiscardInv(s: State)
    requires Inv(s) && s.spare != []
    ensures Inv(Discard(s))
  {
    WithdrawInv(s);
    GivePagesInv(Withdraw(s), s.spare[0], s.zonePages);
  }

  // --------------------------------------------------------------------------------
  // Calls
  // --------------------------------------------------------------------------------

  /** `zone_limit` */
  function Limit(s: State): nat {
    if ZoneSize(s) / 4 > LIMIT then LIMIT else ZoneSize(s) / 4
  }

  function PagesFor(bytes: nat): nat {
    (bytes + PAGE - 1) / PAGE
  }

  /** A chunk in use in some zone */
  ghost predicate Live(s: State, c: nat) {
    exists h :: h in s.zones && h in s.live && c in s.live[h]
  }

  /** An address can be in use in one zone only. */
  lemma OneZone(s: State, g: nat, h: nat, c: nat)
    requires Inv(s) && g in s.zones && h in s.zones && g in s.live && h in s.live && c in s.live[g] && c in s.live[h]
    ensures g == h
  {
    LookupFindsZone(s, g, c);
    LookupFindsZone(s, h, c);
  }

  lemma SmallFits(s: State, bytes: nat)
    requires Inv(s) && 0 < bytes < Limit(s)
    ensures bytes < LIMIT && FitsZone(s, ZoneIndex(bytes).0) && bytes <= ChunkSize(ZoneIndex(bytes).0)
    ensures ZoneIndex(bytes).1 == ChunkSize(ZoneIndex(bytes).0)
  {
    ZoneIndexIsClass(bytes);
    var c := ZoneIndex(bytes).1;
    assert ZoneSize(s) >= 32768;
    if bytes >= 8192 {
      assert ZoneSize(s) > 32768;
    }
  }

  /** `rt_malloc` of less than the limit */
  function MallocSmall(s: State, bytes: nat): (Option<nat>, State)
    requires Inv(s) && 0 < bytes < Limit(s)
  {
    SmallFits(s, bytes);
    var zi := ZoneIndex(bytes).0;
    if s.lists[zi] != [] then
      var (c, r) := FromList(s, zi); (Some(c), r)
    else if s.spare != [] then
      RecycleInv(s, zi);
      var (c, r) := Install(s.(spare := s.spare[1..]), s.spare[0], zi); (Some(c), r)
    else
      var (b, rest) := P.Take(s.pages, s.zonePages);
      if b.None? then (None, s)
      else
        NewZoneInv(s, zi);
        var (c, r) := Install(NewPages(s, b.value, rest), b.value, zi); (Some(c), r)
  }

  /** `rt_malloc` of whole pages */
  function MallocLarge(s: State, bytes: nat): (Option<nat>, State) {
    var (b, rest) := P.Take(s.pages, PagesFor(bytes));
    if b.None? then (None, s) else (Some(b.value * PAGE), LargeArea(s, b.value, rest, PagesFor(bytes)))
  }

  /** `rt_malloc` */
  function Malloc(s: State, bytes: nat): (Option<nat>, State)
    requires Inv(s)
  {
    if bytes == 0 then (None, s) else if bytes >= Limit(s) then MallocLarge(s, bytes) else MallocSmall(s, bytes)
  }

  /** The chunk now in use in zone `h` was not in use before, in any zone, and no other has changed. */
  lemma OneMoreLive(s: State, r: State, h: nat, c: nat, before: set<nat>)
    requires Inv(s) && Inv(r) && h in r.zones && c !in before && r.live == s.live[h := before + {c}]
    requires forall g :: g in r.zones <==> g in s.zones || g == h
    requires before == if h in s.zones && h in s.live then s.live[h] else {}
    ensures !Live(s, c) && forall d :: Live(r, d) <==> Live(s, d) || d == c
  {
    if Live(s, c) {
      var g :| g in s.zones && g in s.live && c in s.live[g];
      OneZone(r, g, h, c);
    }
    forall d ensures Live(r, d) <==> Live(s, d) || d == c {
      if g :| g in s.zones && g in s.live && d in s.live[g] {
        assert g in r.zones && d in r.live[g];
      }
      if g :| g in r.zones && g in r.live && d in r.live[g] {
        assert g != h ==> g in s.zones && g in s.live && d in s.live[g];
        assert ZoneAt(r, h);
      }
      assert h in r.live && c in r.live[h];
    }
  }

  /** `c` is a chunk in use, of the class of a request of `bytes`, large enough for it, and aligned
      to eight bytes. */
  ghost predicate Serves(s: State, c: nat, bytes: nat)
    requires 0 < bytes < LIMIT
  {
    && c / PAGE in s.kup && c % 8 == 0
    && var h := ZoneOf(s, c);
      && h >= 0 && h in s.zones && h in s.live && c in s.live[h]
      && s.zones[h].size == ZoneIndex(bytes).1 && bytes <= s.zones[h].size < bytes + Unit(bytes)
  }

  lemma InZoneServes(s: State, h: nat, c: nat, bytes: nat)
    requires Inv(s) && h in s.zones && h in s.live && c in s.live[h] && 0 < bytes < LIMIT
    requires s.zones[h].zi == ZoneIndex(bytes).0
    ensures Serves(s, c, bytes)
  {
    LookupFindsZone(s, h, c);
    assert ZoneAt(s, h);
    ZoneIndexIsClass(bytes);
    LiveChunkAligned(s, h, c);
  }

  lemma LiveChunkAligned(s: State, h: nat, c: nat)
    requires Inv(s) && h in s.zones && h in s.live && c in s.live[h]
    ensures c % 8 == 0
  {
    assert ZoneAt(s, h);
    ChunkSizeAligned(s.zones[h].zi);
    EightTimes(h, PAGE);
    assert c in s.zones[h].freechunk || c in s.live[h];
    ChunkAligned(s.zones[h], h * PAGE, c);
  }

  /** A small request gets a chunk that was not in use, is large enough and aligned, or finds no
      zone with room, no spare zone and no run of free pages for a new one. */
  lemma MallocSmallInv(s: State, bytes: nat)
    requires Inv(s) && 0 < bytes < Limit(s)
    ensures var (c, r) := MallocSmall(s, bytes);
      && Inv(r) && (c.None? ==> r == s) && r.large == s.large
      && (c.Some? ==> Serves(r, c.value, bytes))
      && (c.Some? ==> !Live(s, c.value) && forall d :: Live(r, d) <==> Live(s, d) || d == c.value)
      && (c.None? <==> s.lists[ZoneIndex(bytes).0] == [] && s.spare == [] &&
                       forall p: nat :: !P.FreeAt(s.pages, p, s.zonePages))
  {
    SmallFits(s, bytes);
    var zi := ZoneIndex(bytes).0;
    P.TakeIsLowest(s.pages, s.zonePages);
    if s.lists[zi] != [] {
      FromListLive(s, zi);
      InZoneServes(FromList(s, zi).1, s.lists[zi][0], FromList(s, zi).0, bytes);
    } else if s.spare != [] {
      RecycleLive(s, zi);
      var (c, r) := Install(s.(spare := s.spare[1..]), s.spare[0], zi);
      InZoneServes(r, s.spare[0], c, bytes);
    } else if P.Take(s.pages, s.zonePages).0.Some? {
      NewZoneLive(s, zi);
      var (b, rest) := P.Take(s.pages, s.zonePages);
      var (c, r) := Install(NewPages(s, b.value, rest), b.value, zi);
      InZoneServes(r, b.value, c, bytes);
    }
  }

  lemma FromListLive(s: State, zi: nat)
    requires Inv(s) && zi < 72 && s.lists[zi] != []
    ensures var (c, r) := FromList(s, zi);
      Inv(r) && r.large == s.large && !Live(s, c) && forall d :: Live(r, d) <==> Live(s, d) || d == c
    ensures var (c, r) := FromList(s, zi);
      var h := s.lists[zi][0];
      h in r.zones && h in r.live && c in r.live[h] && r.zones[h].zi == zi
  {
    FromListInv(s, zi);
    var (c, r) := FromList(s, zi);
    var h := s.lists[zi][0];
    assert ListOk(s, zi) && h in s.lists[zi];
    OneMoreLive(s, r, h, c, s.live[h]);
  }

  lemma RecycleLive(s: State, zi: nat)
    requires Inv(s) && FitsZone(s, zi) && s.lists[zi] == [] && s.spare != []
    ensures Offset(ChunkSize(zi)) <= ZoneSize(s)
    ensures var (c, r) := Install(s.(spare := s.spare[1..]), s.spare[0], zi);
      Inv(r) && r.large == s.large && !Live(s, c) && forall d :: Live(r, d) <==> Live(s, d) || d == c
  {
    RecycleInv(s, zi);
    var (c, r) := Install(s.(spare := s.spare[1..]), s.spare[0], zi);
    OneMoreLive(s, r, s.spare[0], c, {});
  }

  lemma NewZoneLive(s: State, zi: nat)
    requires Inv(s) && FitsZone(s, zi) && s.lists[zi] == [] && P.Take(s.pages, s.zonePages).0.Some?
    ensures Offset(ChunkSize(zi)) <= ZoneSize(s)
    ensures var (b, rest) := P.Take(s.pages, s.zonePages);
      var (c, r) := Install(NewPages(s, b.value, rest), b.value, zi);
      Inv(r) && r.large == s.large && !Live(s, c) && forall d :: Live(r, d) <==> Live(s, d) || d == c
  {
    NewZoneInv(s, zi);
    var (b, rest) := P.Take(s.pages, s.zonePages);
    var (c, r) := Install(NewPages(s, b.value, rest), b.value, zi);
    OneMoreLive(s, r, b.value, c, {});
  }

  /** The conditions under which `rt_free` may be called with `ptr`. */
  ghost predicate Freeable(s: State, ptr: nat) {
    Live(s, ptr) || (ptr % PAGE == 0 && ptr / PAGE in s.large)
  }

  /** `rt_free` of a chunk that the page table traces to zone `h` */
  function FreeSmall(s: State, h: nat, ptr: nat): State
    requires Inv(s) && h in s.zones && h in s.live && ptr in s.live[h]
  {
    FreeChunkInv(s, h, ptr);
    var s1, zi := FreeChunk(s, h, ptr), s.zones[h].zi;
    if s1.zones[h].nfree == s1.zones[h].nmax && s1.lists[zi] != [h] then
      RetireInv(s1, h);
      var s2 := Retire(s1, h);
      if |s2.spare| > 2 then Discard(s2) else s2
    else s1
  }

  /** Only the chunk that was freed goes out of use, even when its zone is retired or its pages
      are released. */
  lemma FreeSmallInv(s: State, h: nat, ptr: nat)
    requires Inv(s) && h in s.zones && h in s.live && ptr in s.live[h]
    ensures Inv(FreeSmall(s, h, ptr)) && FreeSmall(s, h, ptr).large == s.large
    ensures forall d :: Live(FreeSmall(s, h, ptr), d) <==> Live(s, d) && d != ptr
  {
    FreeChunkInv(s, h, ptr);
    var s1 := FreeChunk(s, h, ptr);
    OneLessLive(s, s1, h, ptr);
    if s1.zones[h].nfree == s1.zones[h].nmax && s1.lists[s.zones[h].zi] != [h] {
      RetireInv(s1, h);
      var s2 := Retire(s1, h);
      assert ZoneAt(s1, h);
      AllFree(s1.zones[h], s1.live[h]);
      SameLive(s1, s2, h);
      if |s2.spare| > 2 {
        DiscardInv(s2);
        SameLive(s2, Discard(s2), h);
      }
    }
  }

  /** Another zone of the class of `h` has a free chunk. */
  ghost predicate Spared(s: State, h: nat)
    requires h in s.zones
  {
    exists g :: g in s.zones && g != h && s.zones[g].zi == s.zones[h].zi && s.zones[g].nfree > 0
  }

  /** When the last chunk of a zone comes back and another zone can serve its class, the zone goes out of
      service: to the spare ones, or, if there are two already, its pages become free.  Otherwise it stays
      in service with one more free chunk. */
  lemma FreeSmallRetires(s: State, h: nat, ptr: nat)
    requires Inv(s) && h in s.zones && h in s.live && ptr in s.live[h]
    ensures var r := FreeSmall(s, h, ptr);
      && (s.live[h] == {ptr} && Spared(s, h) ==>
          && h !in r.zones
          && (|s.spare| < 2 ==> r.spare == [h] + s.spare && r.pages == s.pages)
          && (|s.spare| >= 2 ==> r.spare == s.spare && forall p: nat ::
                P.In(r.pages, p) <==> P.In(s.pages, p) || h <= p < h + s.zonePages))
      && (!(s.live[h] == {ptr} && Spared(s, h)) ==>
          && h in r.zones && r.zones[h].nfree == s.zones[h].nfree + 1
          && r.zones[h].freechunk == [ptr] + s.zones[h].freechunk
          && r.spare == s.spare && r.pages == s.pages)
  {
    FreeChunkInv(s, h, ptr);
    FreedWhole(s, h, ptr);
    var s1 := FreeChunk(s, h, ptr);
    if s1.zones[h].nfree == s1.zones[h].nmax && s1.lists[s.zones[h].zi] != [h] {
      RetireInv(s1, h);
      var s2 := Retire(s1, h);
      if |s2.spare| > 2 {
        WithdrawInv(s2);
        GivePagesInv(Withdraw(s2), h, s.zonePages);
      }
    }
  }

  /** The test that the code makes is whether that is so. */
  lemma FreedWhole(s: State, h: nat, ptr: nat)
    requires Inv(s) && h in s.zones && h in s.live && ptr in s.live[h]
    ensures s.zones[h].zi < 72
    ensures var s1 := FreeChunk(s, h, ptr);
      && h in s1.zones && |s1.lists| == 72
      && (s1.zones[h].nfree == s1.zones[h].nmax <==> s.live[h] == {ptr})
      && (s1.lists[s.zones[h].zi] != [h] <==> Spared(s, h))
  {
    FreeChunkInv(s, h, ptr);
    var s1, zi := FreeChunk(s, h, ptr), s.zones[h].zi;
    assert ZoneAt(s1, h) && ZoneAt(s, h);
    AllFree(s1.zones[h], s1.live[h]);
    assert s1.live[h] == {} <==> s.live[h] == {ptr} by { assert s.live[h] == s1.live[h] + {ptr}; }
    assert ListOk(s1, zi);
    if s1.lists[zi] != [h] { OtherInList(s1.lists[zi], h); }
    forall g | g in s.zones && g != h ensures s.zones[g].zi == zi && s.zones[g].nfree > 0 <==> g in s1.lists[zi] {
      assert ZoneAt(s1, g) && s1.zones[g] == s.zones[g];
    }
  }

  lemma OtherInList(list: seq<nat>, h: nat)
    requires Distinct(list) && h in list && list != [h]
    ensures exists g :: g in list && g != h
  {
    if list[0] == h { assert list[1] in list; } else { assert list[0] in list; }
  }

  /** Freeing a large area makes its pages free, and no others. */
  lemma FreeLargeGives(s: State, h: nat)
    requires Inv(s) && h in s.large
    ensures h in s.kup
    ensures forall p: nat :: P.In(FreeLarge(s, h).pages, p) <==> P.In(s.pages, p) || h <= p < h + s.large[h]
  {
    DropAreaInv(s, h);
    GivePagesInv(DropArea(s, h), h, s.large[h]);
  }

  lemma OneLessLive(s: State, r: State, h: nat, c: nat)
    requires Inv(s) && h in s.zones && h in s.live && c in s.live[h] && r.zones.Keys == s.zones.Keys
    requires r.live == s.live[h := s.live[h] - {c}]
    ensures forall d :: Live(r, d) <==> Live(s, d) && d != c
  {
    forall d ensures Live(r, d) <==> Live(s, d) && d != c {
      if g :| g in s.zones && g in s.live && d in s.live[g] && d != c { assert g in r.zones && d in r.live[g]; }
      if g :| g in r.zones && g in r.live && d in r.live[g] {
        assert g in s.zones && d in s.live[g];
        if d == c { OneZone(s, g, h, c); }
      }
    }
  }

  /** A zone without chunks in use may come or go. */
  lemma SameLive(s: State, r: State, h: nat)
    requires h in s.zones && h in s.live ==> s.live[h] == {}
    requires r.zones.Keys == s.zones.Keys - {h}
    requires forall g :: g in r.zones ==> (g in r.live <==> g in s.live) && (g in s.live ==> r.live[g] == s.live[g])
    ensures forall d :: Live(r, d) <==> Live(s, d)
  {
    forall d ensures Live(r, d) <==> Live(s, d) {
      if g :| g in s.zones && g in s.live && d in s.live[g] { assert g in r.zones && g in r.live && d in r.live[g]; }
      if g :| g in r.zones && g in r.live && d in r.live[g] { assert g in s.zones && d in s.live[g]; }
    }
  }

  /** What the page table says about an address that may be freed. */
  lemma FreeableLookup(s: State, ptr: nat)
    requires Inv(s) && Freeable(s, ptr)
    ensures ptr / PAGE in s.kup && s.kup[ptr / PAGE].kind != Unused
    ensures s.kup[ptr / PAGE].kind == Large <==> ptr / PAGE in s.large
    ensures s.kup[ptr / PAGE].kind == Large ==> s.kup[ptr / PAGE].size == s.large[ptr / PAGE] && !Live(s, ptr)
    ensures s.kup[ptr / PAGE].kind == Small ==>
      var h := ZoneOf(s, ptr); h >= 0 && h in s.zones && h in s.live && ptr in s.live[h]
  {
    var p := ptr / PAGE;
    if p in s.large {
      assert IsHead(s, p) && OneRole(s, p) && Owns(s, p) && PageOk(s, p);
    }
    if Live(s, ptr) {
      var h :| h in s.zones && h in s.live && ptr in s.live[h];
      LookupFindsZone(s, h, ptr);
    }
  }

  /** `rt_free` */
  function Free(s: State, ptr: nat): State
    requires Inv(s) && Freeable(s, ptr)
  {
    FreeableLookup(s, ptr);
    if s.kup[ptr / PAGE].kind == Large then FreeLarge(s, ptr / PAGE) else FreeSmall(s, ZoneOf(s, ptr), ptr)
  }

  lemma FreeInv(s: State, ptr: nat)
    requires Inv(s) && Freeable(s, ptr)
    ensures Inv(Free(s, ptr))
    ensures forall d :: Live(Free(s, ptr), d) <==> Live(s, d) && d != ptr
  {
    FreeableLookup(s, ptr);
    var p := ptr / PAGE;
    if s.kup[p].kind == Large {
      FreeLargeLive(s, p);
    } else {
      FreeSmallInv(s, ZoneOf(s, ptr), ptr);
    }
  }

  /** How `rt_free` decides between the two kinds, and finds the zone. */
  lemma FreeCases(s: State, ptr: nat) returns (h: nat)
    requires Inv(s) && Freeable(s, ptr)
    ensures Inv(Free(s, ptr)) && ptr / PAGE in s.kup
    ensures s.kup[ptr / PAGE].kind == Large ==> h == ptr / PAGE && h in s.large && s.kup[h].size == s.large[h]
    ensures s.kup[ptr / PAGE].kind == Large ==> Free(s, ptr) == FreeLarge(s, h)
    ensures s.kup[ptr / PAGE].kind != Large ==>
      h == ptr / PAGE - s.kup[ptr / PAGE].size && h in s.zones && h in s.live && ptr in s.live[h]
    ensures s.kup[ptr / PAGE].kind != Large ==> Free(s, ptr) == FreeSmall(s, h, ptr)
  {
    FreeableLookup(s, ptr);
    FreeInv(s, ptr);
    h := if s.kup[ptr / PAGE].kind == Large then ptr / PAGE else ZoneOf(s, ptr);
  }

  /** Freeing a chunk leaves the large areas alone, and freeing an area takes away just that one. */
  lemma FreeAreas(s: State, ptr: nat)
    requires Inv(s) && Freeable(s, ptr)
    ensures Free(s, ptr).large == if Live(s, ptr) then s.large else s.large - {ptr / PAGE}
  {
    FreeableLookup(s, ptr);
    if s.kup[ptr / PAGE].kind == Small { FreeSmallInv(s, ZoneOf(s, ptr), ptr); }
  }

  lemma FreeLargeLive(s: State, h: nat)
    requires Inv(s) && h in s.large
    ensures h in s.kup && Inv(FreeLarge(s, h)) && forall d :: Live(FreeLarge(s, h), d) <==> Live(s, d)
  {
    FreeLargeInv(s, h);
    assert IsHead(s, h) && OneRole(s, h);
    assert s.zones.Keys == s.zones.Keys - {h};
    SameLive(s, FreeLarge(s, h), h);
  }

  /** A large area does not overlap a chunk in use, a zone header or another large area. */
  lemma LargeAreaApart(s: State, h: nat)
    requires Inv(s) && h in s.large
    ensures forall g: nat :: g in s.large && g != h ==> g + s.large[g] <= h || h + s.large[h] <= g
    ensures forall g: nat :: g in s.zones ==>
      (g + s.zonePages) * PAGE <= h * PAGE || (h + s.large[h]) * PAGE <= g * PAGE
    ensures forall g: nat, c: nat :: g in s.zones && g in s.live && c in s.live[g] ==>
      c + s.zones[g].size <= h * PAGE || (h + s.large[h]) * PAGE <= c
  {
    assert IsHead(s, h);
    OwnedApart(s, h);
    forall g: nat | g in s.large && g != h ensures g + s.large[g] <= h || h + s.large[h] <= g { assert IsHead(s, g); }
    forall g: nat | g in s.zones
      ensures (g + s.zonePages) * PAGE <= h * PAGE || (h + s.large[h]) * PAGE <= g * PAGE
    {
      assert IsHead(s, g) && OneRole(s, g) && OneRole(s, h);
    }
    forall g: nat, c: nat | g in s.zones && g in s.live && c in s.live[g]
      ensures c + s.zones[g].size <= h * PAGE || (h + s.large[h]) * PAGE <= c
    {
      assert ZoneAt(s, g);
      LiveApart(s.zones[g], s.live[g], g * PAGE, (g + s.zonePages) * PAGE, c, c);
    }
  }

  /** `n` pages hold the request and no page is wasted; the area was neither free nor in use by
      anything else, and no chunk and no other area is touched. */
  lemma MallocLargeInv(s: State, bytes: nat)
    requires Inv(s) && bytes > 0
    ensures var (c, r) := MallocLarge(s, bytes);
      && Inv(r) && (c.None? ==> r == s)
      && (c.None? <==> forall p: nat :: !P.FreeAt(s.pages, p, PagesFor(bytes)))
      && (c.Some? ==>
        var p := c.value / PAGE;
        && c.value == p * PAGE && p !in s.large && r.large == s.large[p := PagesFor(bytes)]
        && bytes <= PagesFor(bytes) * PAGE < bytes + PAGE && P.FreeAt(s.pages, p, PagesFor(bytes))
        && forall d :: Live(r, d) <==> Live(s, d))
  {
    var n := PagesFor(bytes);
    assert n > 0;
    P.TakeIsLowest(s.pages, n);
    var (b, rest) := P.Take(s.pages, n);
    if b.Some? {
      LargeInv(s, n);
      var r := LargeArea(s, b.value, rest, n);
      assert s.zones.Keys == s.zones.Keys - {b.value};
      assert b.value * PAGE / PAGE == b.value;
      SameLive(s, r, b.value);
    }
  }

  /** A request of any size keeps the invariant; what it returns was not in use, may be freed, and
      is all that is new. */
  lemma MallocInv(s: State, bytes: nat)
    requires Inv(s)
    ensures var (c, r) := Malloc(s, bytes);
      && Inv(r) && (c.None? ==> r == s)
      && (c.Some? ==> Freeable(r, c.value) && !Freeable(s, c.value))
      && (c.Some? ==> forall d: nat :: Freeable(r, d) <==> Freeable(s, d) || d == c.value)
  {
    if bytes >= Limit(s) && bytes > 0 {
      MallocLargeInv(s, bytes);
      var (c, r) := MallocLarge(s, bytes);
      if c.Some? {
        LargeAreaApart(r, c.value / PAGE);
        NotLive(r, c.value / PAGE);
      }
    } else if bytes > 0 {
      MallocSmallInv(s, bytes);
      var (c, r) := MallocSmall(s, bytes);
      if c.Some? && c.value % PAGE == 0 && c.value / PAGE in r.large { NotLive(r, c.value / PAGE); }
    }
  }

  /** The address of a large area is not that of a chunk in use. */
  lemma NotLive(s: State, h: nat)
    requires Inv(s) && h in s.large
    ensures !Live(s, h * PAGE)
  {
    LargeAreaApart(s, h);
    assert IsHead(s, h) && OneRole(s, h);
    if g :| g in s.zones && g in s.live && h * PAGE in s.live[g] {
      assert false;
    }
  }

  datatype Call = MallocCall(bytes: nat) | FreeCall(ptr: nat)

  ghost predicate AllowedRun(s: State, calls: seq<Call>)
    requires Inv(s)
    decreases |calls|
  {
    calls == [] ||
    match calls[0]
    case MallocCall(n) => MallocInv(s, n); AllowedRun(Malloc(s, n).1, calls[1..])
    case FreeCall(p) => Freeable(s, p) && (FreeInv(s, p); AllowedRun(Free(s, p), calls[1..]))
  }

  ghost function Run(s: State, calls: seq<Call>): (r: State)
    requires Inv(s) && AllowedRun(s, calls)
    ensures Inv(r)
    decreases |calls|
  {
    if calls == [] then s
    else match calls[0]
      case MallocCall(n) => MallocInv(s, n); Run(Malloc(s, n).1, calls[1..])
      case FreeCall(p) => FreeInv(s, p); Run(Free(s, p), calls[1..])
  }

  /** In every reachable state: the free count of a zone is its never-used chunks plus its free
      list; chunks in use do not overlap one another or a header; and the page table leads back
      from each of them to its zone. */
  lemma ReachableZones(s: State, calls: seq<Call>, g: nat, c: nat, h: nat, d: nat)
    requires Inv(s) && AllowedRun(s, calls)
    requires var r := Run(s, calls);
      g in r.zones && h in r.zones && g in r.live && h in r.live && c in r.live[g] && d in r.live[h] && c < d
    ensures var r := Run(s, calls);
      && r.zones[g].nfree == r.zones[g].nmax - 1 - r.zones[g].uindex + |r.zones[g].freechunk|
      && c + r.zones[g].size <= d && g * PAGE + ZONE_HEADER <= c
      && c / PAGE in r.kup && ZoneOf(r, c) == g
  {
    var r := Run(s, calls);
    assert ZoneAt(r, g);
    LiveChunksApart(r, g, c, h, d);
    LookupFindsZone(r, g, c);
  }

  // --------------------------------------------------------------------------------
  // A new heap
  // --------------------------------------------------------------------------------

  /** The loop of `rt_system_heap_init` over zone sizes, in pages: twice as large while the next size
      is below a thousandth of the heap. */
  function ZonePages(npages: nat): nat {
    if 2 * 8 * PAGE >= npages * PAGE / 1024 then 8 else if 2 * 16 * PAGE >= npages * PAGE / 1024 then 16 else 32
  }

  /** The pages of the page table, four bytes for each page */
  function TablePages(npages: nat): nat {
    (npages * 4 + PAGE - 1) / PAGE
  }

  /** The free pages behind the table */
  function FreshPages(npages: nat): seq<P.Run>
    requires npages > 0
  {
    if npages > TablePages(npages) then [P.Run(TablePages(npages), npages - TablePages(npages))] else []
  }

  /** `rt_system_heap_init` for a heap of `npages` pages: nothing allocated but the table itself */
  ghost predicate Initial(s: State, npages: nat)
    requires npages > 0
  {
    && s.zonePages == ZonePages(npages) && s.pages == FreshPages(npages) && s.zones == map[] && s.spare == []
    && s.live == map[] && s.large == map[] && s.owner == map[] && |s.lists| == 72
    && forall k :: 0 <= k < 72 ==> s.lists[k] == []
  }

  /** Heaps of up to 64 MB have zones of 32 kB, and serve requests from 8 kB on with whole pages. */
  lemma InitialInv(s: State, npages: nat)
    requires npages > 0 && Initial(s, npages)
    ensures Inv(s)
    ensures Limit(s) == if npages <= 16384 then 8192 else 16384
  {
    forall k | 0 <= k < 72 ensures ListOk(s, k) { }
    forall p: nat ensures PageOk(s, p) { }
  }

  // --------------------------------------------------------------------------------
  // When a request fails, and where it is served
  // --------------------------------------------------------------------------------

  /** `rt_malloc` returns null exactly for a request of zero bytes, for a small one without a zone
      with room, a spare zone or pages for a new one, and for a large one without pages. */
  lemma MallocFails(s: State, bytes: nat)
    requires Inv(s)
    ensures Malloc(s, bytes).0.None? <==>
      || bytes == 0
      || (0 < bytes < Limit(s) && s.lists[ZoneIndex(bytes).0] == [] && s.spare == [] &&
          forall p: nat :: !P.FreeAt(s.pages, p, s.zonePages))
      || (bytes >= Limit(s) && forall p: nat :: !P.FreeAt(s.pages, p, PagesFor(bytes)))
  {
    if bytes >= Limit(s) { MallocLargeInv(s, bytes); } else if bytes > 0 { MallocSmallInv(s, bytes); }
  }

  /** The first page of the zone or area that a request will be served from: that of the first zone
      with room, else of the first spare zone, else the first of the lowest pages that are enough. */
  function FirstPage(s: State, bytes: nat): Option<nat>
    requires Inv(s) && bytes > 0
  {
    if bytes >= Limit(s) then P.Take(s.pages, PagesFor(bytes)).0
    else if s.lists[ZoneIndex(bytes).0] != [] then Some(s.lists[ZoneIndex(bytes).0][0])
    else if s.spare != [] then Some(s.spare[0])
    else P.Take(s.pages, s.zonePages).0
  }

  /** In a heap at `start`, a power of two is aligned to itself exactly when it is at most a page or
      the page that is first to be used is aligned to it. */
  lemma PowerOf2Aligned(s: State, bytes: nat, start: nat)
    requires Inv(s) && bytes > 0 && PowerOf2(bytes) && start % PAGE == 0
    ensures Malloc(s, bytes).0.Some? <==> FirstPage(s, bytes).Some?
    ensures Malloc(s, bytes).0.Some? ==>
      ((start + Malloc(s, bytes).0.value) % bytes == 0 <==>
       bytes <= PAGE || (start + FirstPage(s, bytes).value * PAGE) % bytes == 0)
  {
    if bytes < Limit(s) {
      MallocSmallAligned(s, bytes, start);
    }
  }

  lemma MallocSmallAligned(s: State, bytes: nat, start: nat)
    requires Inv(s) && 0 < bytes < Limit(s) && PowerOf2(bytes) && start % PAGE == 0
    ensures MallocSmall(s, bytes).0.Some? <==> FirstPage(s, bytes).Some?
    ensures MallocSmall(s, bytes).0.Some? ==>
      var c, h := MallocSmall(s, bytes).0.value, FirstPage(s, bytes).value;
      && (bytes <= PAGE ==> (start + c) % bytes == 0)
      && ((start + c) % bytes == 0 <==> (start + h * PAGE) % bytes == 0)
  {
    MallocSmallPlace(s, bytes);
    SmallFits(s, bytes);
    var (c, r) := MallocSmall(s, bytes);
    if c.Some? { ChunkAlignedIff(r, FirstPage(s, bytes).value, c.value, bytes, start); }
  }

  /** The chunk is in the zone at the first page. */
  lemma MallocSmallPlace(s: State, bytes: nat)
    requires Inv(s) && 0 < bytes < Limit(s)
    ensures MallocSmall(s, bytes).0.Some? <==> FirstPage(s, bytes).Some?
    ensures MallocSmall(s, bytes).0.Some? ==>
      var (c, r) := MallocSmall(s, bytes);
      Inv(r) && bytes < LIMIT && InZone(r, FirstPage(s, bytes).value, c.value, ZoneIndex(bytes).0)
  {
    SmallFits(s, bytes);
    var zi := ZoneIndex(bytes).0;
    if s.lists[zi] != [] {
      FromListLive(s, zi);
    } else if s.spare != [] {
      RecycleInv(s, zi);
    } else if P.Take(s.pages, s.zonePages).0.Some? {
      NewZoneInv(s, zi);
    }
  }

  /** `c` is a chunk in use in zone `h` of class `zi`. */
  ghost predicate InZone(s: State, h: nat, c: nat, zi: nat) {
    h in s.zones && h in s.live && c in s.live[h] && s.zones[h].zi == zi
  }

  lemma ChunkAlignedIff(s: State, h: nat, c: nat, bytes: nat, start: nat)
    requires Inv(s) && 0 < bytes < LIMIT && PowerOf2(bytes) && start % PAGE == 0 && InZone(s, h, c, ZoneIndex(bytes).0)
    ensures bytes <= PAGE ==> (start + c) % bytes == 0
    ensures (start + c) % bytes == 0 <==> (start + h * PAGE) % bytes == 0
  {
    if bytes >= 8 { ChunkAsZone(s, h, c, bytes, start); }
    assert start + h * PAGE == (start / PAGE + h) * PAGE;
    if bytes <= PAGE { PageAligned(start / PAGE + h, bytes); }
    if bytes < 8 {
      LiveChunkAligned(s, h, c);
      SmallPower(start, c, bytes);
    }
  }

  lemma ChunkAsZone(s: State, h: nat, c: nat, bytes: nat, start: nat)
    requires Inv(s) && 8 <= bytes < LIMIT && PowerOf2(bytes) && InZone(s, h, c, ZoneIndex(bytes).0)
    ensures (start + c) % bytes == (start + h * PAGE) % bytes
  {
    assert ZoneAt(s, h);
    ZoneIndexPower(bytes);
    ZoneIndexIsClass(bytes);
    ChunkSizeAligned(s.zones[h].zi);
    PowerChunk(s.zones[h], h * PAGE, c, start);
  }

  lemma PageAligned(pages: nat, n: nat)
    requires 0 < n <= PAGE && PowerOf2(n)
    ensures pages * PAGE % n == 0
  {
    PagePower();
    PowerDivides(n, PAGE);
    MultipleAligned(pages, PAGE, n);
  }

  lemma MultipleAligned(k: nat, m: nat, n: nat)
    requires n > 0 && m % n == 0
    ensures k * m % n == 0
  {
    var q := m / n;
    assert k * m == 0 + k * q * n;
    Shift(0, k * q, n);
  }

  lemma SmallPower(start: nat, c: nat, n: nat)
    requires start % PAGE == 0 && c % 8 == 0 && 0 < n < 8 && PowerOf2(n)
    ensures (start + c) % n == 0
  {
    PagePower();
    PowerDivides(n, 8);
    var k := 512 * (start / PAGE) + c / 8;
    assert start + c == k * 8;
    MultipleAligned(k, 8, n);
  }

  /** A heap of 16 pages: 8 kB and 16 kB are both served from the first free page, at 4096. */
  lemma UnalignedLarge(s: State)
    requires Initial(s, 16)
    ensures Inv(s) && PowerOf2(8192) && PowerOf2(16384)
    ensures Malloc(s, 8192).0 == Some(4096) && 4096 % 8192 != 0
    ensures Malloc(s, 16384).0 == Some(4096) && 4096 % 16384 != 0
  {
    InitialInv(s, 16);
    LargePowers();
  }

  /** A heap just above 64 MB: its first zone begins at page 17, and 8 kB are served from its second
      8 kB. */
  lemma UnalignedSmall(s: State)
    requires Initial(s, 16385)
    ensures Inv(s) && PowerOf2(8192)
    ensures Malloc(s, 8192).0 == Some(77824) && 77824 % 8192 != 0
  {
    InitialInv(s, 16385);
    LargePowers();
    assert ZoneIndex(8192) == (63, 8192) && ChunkSize(63) == 8192;
    assert s.lists[63] == [];
    assert P.Take(s.pages, 16).0 == Some(17);
    assert Offset(8192) == 8192;
  }

  lemma LargePowers()
    ensures PowerOf2(8192) && PowerOf2(16384)
  {
    PagePower();
    assert PowerOf2(8192);
  }
}
