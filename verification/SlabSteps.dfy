/** The slab allocator between its critical sections.  A call that needs pages gives up the heap's
    lock before it takes them from the page list, or before it puts them back, and other threads
    may allocate and free in between.
 */
module SlabSteps {
  import opened Wrappers
  import opened SlabZones
  import P = Pages
  import S = SlabSpec

  /** `moving` has, for each thread in the middle of a call, the pages that it has taken from the page
      list or will put back. */
  datatype State = State(slab: S.State, moving: map<nat, P.Run>)

  /** One critical section of thread `t`. */
  datatype Step =
    | Serve(zi: nat)
    | TakePages(t: nat, n: nat)
    | NewZone(t: nat, zi: nat)
    | NewArea(t: nat)
    | FreeChunk(t: nat, ptr: nat)
    | FreeArea(t: nat, h: nat)
    | GivePages(t: nat)

  ghost predicate Disjoint(a: P.Run, b: P.Run) {
    P.End(a) <= b.start || P.End(b) <= a.start
  }

  /** The pages of thread `t` belong to it alone. */
  ghost predicate Holds(s: State, t: nat)
    requires t in s.moving
  {
    && s.moving[t].len > 0 && S.Unclaimed(s.slab, s.moving[t].start, s.moving[t].len)
    && forall u :: u in s.moving && u != t ==> Disjoint(s.moving[t], s.moving[u])
  }

  ghost predicate Inv(s: State) {
    S.Inv(s.slab) && forall t :: t in s.moving ==> Holds(s, t)
  }

  /** A thread makes one call at a time, enters what it has taken, and frees what is in use. */
  ghost predicate Allowed(s: State, step: Step) {
    match step
    case Serve(zi) =>
      S.FitsZone(s.slab, zi) && |s.slab.lists| == 72 && (s.slab.lists[zi] != [] || s.slab.spare != [])
    case TakePages(t, n) => t !in s.moving && n > 0
    case NewZone(t, zi) => t in s.moving && s.moving[t].len == s.slab.zonePages && S.FitsZone(s.slab, zi)
    case NewArea(t) => t in s.moving
    case FreeChunk(t, ptr) => t !in s.moving && S.Live(s.slab, ptr)
    case FreeArea(t, h) => t !in s.moving && h in s.slab.large
    case GivePages(t) => t in s.moving
  }

  /** `rt_malloc` from a zone with room, or from a spare zone */
  function ServeFrom(s: S.State, zi: nat): (nat, S.State)
    requires S.Inv(s) && S.FitsZone(s, zi) && (s.lists[zi] != [] || s.spare != [])
  {
    if s.lists[zi] != [] then S.FromList(s, zi)
    else
      S.RecycleInv(s, zi);
      S.Install(s.(spare := s.spare[1..]), s.spare[0], zi)
  }

  /** `rt_free` of a chunk of zone `h` up to where the lock is given up, and the pages to put back */
  function FreeSection(s: S.State, h: nat, ptr: nat): (S.State, Option<P.Run>)
    requires S.Inv(s) && h in s.zones && h in s.live && ptr in s.live[h]
  {
    S.FreeChunkInv(s, h, ptr);
    var s1, zi := S.FreeChunk(s, h, ptr), s.zones[h].zi;
    if s1.zones[h].nfree == s1.zones[h].nmax && s1.lists[zi] != [h] then
      S.RetireInv(s1, h);
      var s2 := S.Retire(s1, h);
      if |s2.spare| > 2 then (S.Withdraw(s2), Some(P.Run(s2.spare[0], s2.zonePages))) else (s2, None)
    else (s1, None)
  }

  /** The zone in which a chunk is in use */
  ghost function ZoneWith(s: S.State, ptr: nat): (h: nat)
    requires S.Live(s, ptr)
    ensures h in s.zones && h in s.live && ptr in s.live[h]
  {
    var h :| h in s.zones && h in s.live && ptr in s.live[h];
    h
  }

  ghost function Do(s: State, step: Step): State
    requires Inv(s) && Allowed(s, step)
  {
    match step
    case Serve(zi) => s.(slab := ServeFrom(s.slab, zi).1)
    case TakePages(t, n) =>
      var (b, rest) := P.Take(s.slab.pages, n);
      if b.None? then s else State(s.slab.(pages := rest), s.moving[t := P.Run(b.value, n)])
    case NewZone(t, zi) =>
      assert Holds(s, t);
      S.AdoptZoneInv(s.slab, s.moving[t].start, zi);
      State(ZoneFor(s.slab, s.moving[t].start, zi).1, s.moving - {t})
    case NewArea(t) =>
      State(S.LargeArea(s.slab, s.moving[t].start, s.slab.pages, s.moving[t].len), s.moving - {t})
    case FreeChunk(t, ptr) =>
      var (r, back) := FreeSection(s.slab, ZoneWith(s.slab, ptr), ptr);
      State(r, if back.Some? then s.moving[t := back.value] else s.moving)
    case FreeArea(t, h) =>
      S.DropAreaInv(s.slab, h);
      State(S.DropArea(s.slab, h), s.moving[t := P.Run(h, s.slab.large[h])])
    case GivePages(t) =>
      State(s.slab.(pages := P.Give(s.slab.pages, s.moving[t].start, s.moving[t].len)), s.moving - {t})
  }

  function ZoneFor(s: S.State, h: nat, zi: nat): (nat, S.State)
    requires |s.lists| == 72 && zi < 72 && ChunkSize(zi) > 0 && Offset(ChunkSize(zi)) <= S.ZoneSize(s)
  {
    S.Install(S.NewPages(s, h, s.pages), h, zi)
  }

  /** The chunk that a step puts in use */
  ghost function Gets(s: State, step: Step): Option<nat>
    requires Inv(s) && Allowed(s, step)
  {
    match step
    case Serve(zi) => Some(ServeFrom(s.slab, zi).0)
    case NewZone(t, zi) =>
      assert Holds(s, t);
      S.AdoptZoneInv(s.slab, s.moving[t].start, zi);
      Some(ZoneFor(s.slab, s.moving[t].start, zi).0)
    case _ => None
  }

  // --------------------------------------------------------------------------------
  // Every step keeps the invariant
  // --------------------------------------------------------------------------------

  /** Free and owned pages are only those that were so before, or were those of `t`. */
  ghost predicate Within(s: State, r: S.State, t: nat) {
    forall p: nat :: P.In(r.pages, p) || p in r.owner ==>
      P.In(s.slab.pages, p) || p in s.slab.owner || (t in s.moving && s.moving[t].start <= p < P.End(s.moving[t]))
  }

  /** So other threads keep what they hold. */
  lemma OthersHold(s: State, r: S.State, t: nat)
    requires Inv(s) && S.Inv(r) && Within(s, r, t)
    ensures Inv(State(r, s.moving - {t}))
  {
    var e := State(r, s.moving - {t});
    forall u | u in e.moving ensures Holds(e, u) {
      assert Holds(s, u);
      assert t in s.moving ==> Disjoint(s.moving[u], s.moving[t]);
    }
  }

  /** And `t` may hold pages that were free or owned before, and are neither now. */
  lemma NowHolds(s: State, r: S.State, t: nat, run: P.Run)
    requires Inv(s) && S.Inv(r) && t !in s.moving && Within(s, r, t)
    requires run.len > 0 && S.Unclaimed(r, run.start, run.len)
    requires forall p :: run.start <= p < P.End(run) ==> P.In(s.slab.pages, p) || p in s.slab.owner
    ensures Inv(State(r, s.moving[t := run]))
  {
    var e := State(r, s.moving[t := run]);
    forall u | u in s.moving ensures Disjoint(run, s.moving[u]) && S.Unclaimed(r, s.moving[u].start, s.moving[u].len) {
      assert Holds(s, u);
      var p := if run.start >= s.moving[u].start then run.start else s.moving[u].start;
      assert run.start <= p < P.End(run) ==> P.In(s.slab.pages, p) || p in s.slab.owner;
    }
    forall u | u in e.moving ensures Holds(e, u) {
      if u != t { assert Holds(s, u); }
    }
  }

  lemma ServeInv(s: S.State, zi: nat)
    requires S.Inv(s) && S.FitsZone(s, zi) && (s.lists[zi] != [] || s.spare != [])
    ensures var (c, r) := ServeFrom(s, zi);
      && S.Inv(r) && r.pages == s.pages && r.owner == s.owner && r.large == s.large
      && !S.Live(s, c) && forall d :: S.Live(r, d) <==> S.Live(s, d) || d == c
  {
    if s.lists[zi] != [] { S.FromListLive(s, zi); } else { S.RecycleLive(s, zi); }
  }

  lemma NewZoneLive(s: S.State, h: nat, zi: nat)
    requires S.Inv(s) && S.FitsZone(s, zi) && S.Unclaimed(s, h, s.zonePages)
    ensures Offset(ChunkSize(zi)) <= S.ZoneSize(s)
    ensures var (c, r) := ZoneFor(s, h, zi);
      S.Inv(r) && r.large == s.large && !S.Live(s, c) && forall d :: S.Live(r, d) <==> S.Live(s, d) || d == c
  {
    S.AdoptZoneInv(s, h, zi);
    var (c, r) := ZoneFor(s, h, zi);
    S.OneMoreLive(s, r, h, c, {});
  }

  lemma FreeSectionInv(s: S.State, h: nat, ptr: nat)
    requires S.Inv(s) && h in s.zones && h in s.live && ptr in s.live[h]
    ensures var (r, back) := FreeSection(s, h, ptr);
      && S.Inv(r) && r.pages == s.pages && r.large == s.large && r.zonePages == s.zonePages
      && (forall p :: p in r.owner ==> p in s.owner)
      && (back.Some? ==> back.value.len > 0 && S.Unclaimed(r, back.value.start, back.value.len))
      && (back.Some? ==> forall p :: back.value.start <= p < P.End(back.value) ==> p in s.owner)
      && forall d :: S.Live(r, d) <==> S.Live(s, d) && d != ptr
  {
    S.FreeChunkInv(s, h, ptr);
    var s1 := S.FreeChunk(s, h, ptr);
    S.OneLessLive(s, s1, h, ptr);
    if s1.zones[h].nfree == s1.zones[h].nmax && s1.lists[s.zones[h].zi] != [h] {
      S.RetireInv(s1, h);
      var s2 := S.Retire(s1, h);
      assert S.ZoneAt(s1, h);
      AllFree(s1.zones[h], s1.live[h]);
      S.SameLive(s1, s2, h);
      if |s2.spare| > 2 { WithdrawnLive(s2); }
    }
  }

  lemma WithdrawnLive(s: S.State)
    requires S.Inv(s) && s.spare != []
    ensures S.Inv(S.Withdraw(s)) && S.Unclaimed(S.Withdraw(s), s.spare[0], s.zonePages) && s.zonePages > 0
    ensures forall p :: s.spare[0] <= p < s.spare[0] + s.zonePages ==> p in s.owner
    ensures forall d :: S.Live(S.Withdraw(s), d) <==> S.Live(s, d)
  {
    var h := s.spare[0];
    S.WithdrawInv(s);
    assert h in s.spare && S.IsHead(s, h) && S.OneRole(s, h) && S.Owns(s, h);
    assert s.zones.Keys == s.zones.Keys - {h};
    S.SameLive(s, S.Withdraw(s), h);
  }

  /** Whatever happens between the sections of a call: the invariant holds, the pages of each thread
      stay its own, and the chunks in use change by just the one that is returned or freed. */
  lemma StepInv(s: State, step: Step)
    requires Inv(s) && Allowed(s, step)
    ensures Inv(Do(s, step))
    ensures Gets(s, step).Some? ==> !S.Live(s.slab, Gets(s, step).value)
    ensures forall d :: S.Live(Do(s, step).slab, d) <==>
      (S.Live(s.slab, d) && !(step.FreeChunk? && d == step.ptr)) || Gets(s, step) == Some(d)
  {
    match step
    case Serve(zi) => ServeStep(s, zi);
    case TakePages(t, n) => TakePagesStep(s, t, n);
    case NewZone(t, zi) => NewZoneStep(s, t, zi);
    case NewArea(t) => NewAreaStep(s, t);
    case FreeChunk(t, ptr) => FreeChunkStep(s, t, ptr);
    case FreeArea(t, h) => FreeAreaStep(s, t, h);
    case GivePages(t) => GivePagesStep(s, t);
  }

  lemma ServeStep(s: State, zi: nat)
    requires Inv(s) && Allowed(s, Serve(zi))
    ensures Inv(Do(s, Serve(zi))) && !S.Live(s.slab, ServeFrom(s.slab, zi).0)
    ensures forall d :: S.Live(Do(s, Serve(zi)).slab, d) <==> S.Live(s.slab, d) || d == ServeFrom(s.slab, zi).0
  {
    ServeInv(s.slab, zi);
    var r := Do(s, Serve(zi));
    forall u | u in r.moving ensures Holds(r, u) { assert Holds(s, u); }
  }

  lemma TakePagesStep(s: State, t: nat, n: nat)
    requires Inv(s) && Allowed(s, TakePages(t, n))
    ensures Inv(Do(s, TakePages(t, n)))
    ensures forall d :: S.Live(Do(s, TakePages(t, n)).slab, d) <==> S.Live(s.slab, d)
  {
    var (b, rest) := P.Take(s.slab.pages, n);
    if b.Some? {
      S.TakePagesInv(s.slab, n);
      NowHolds(s, s.slab.(pages := rest), t, P.Run(b.value, n));
    }
  }

  lemma NewZoneStep(s: State, t: nat, zi: nat)
    requires Inv(s) && Allowed(s, NewZone(t, zi))
    ensures Inv(Do(s, NewZone(t, zi))) && Gets(s, NewZone(t, zi)).Some?
    ensures !S.Live(s.slab, Gets(s, NewZone(t, zi)).value)
    ensures forall d :: S.Live(Do(s, NewZone(t, zi)).slab, d) <==>
      S.Live(s.slab, d) || d == Gets(s, NewZone(t, zi)).value
  {
    assert Holds(s, t);
    NewZoneLive(s.slab, s.moving[t].start, zi);
    OthersHold(s, Do(s, NewZone(t, zi)).slab, t);
  }

  lemma NewAreaStep(s: State, t: nat)
    requires Inv(s) && Allowed(s, NewArea(t))
    ensures Inv(Do(s, NewArea(t)))
    ensures forall d :: S.Live(Do(s, NewArea(t)).slab, d) <==> S.Live(s.slab, d)
  {
    assert Holds(s, t);
    var r := Do(s, NewArea(t)).slab;
    S.AdoptAreaInv(s.slab, s.moving[t].start, s.moving[t].len);
    OthersHold(s, r, t);
    assert s.slab.zones.Keys == s.slab.zones.Keys - {s.moving[t].start};
    S.SameLive(s.slab, r, s.moving[t].start);
  }

  lemma FreeChunkStep(s: State, t: nat, ptr: nat)
    requires Inv(s) && Allowed(s, FreeChunk(t, ptr))
    ensures Inv(Do(s, FreeChunk(t, ptr)))
    ensures forall d :: S.Live(Do(s, FreeChunk(t, ptr)).slab, d) <==> S.Live(s.slab, d) && d != ptr
  {
    var h := ZoneWith(s.slab, ptr);
    FreeSectionInv(s.slab, h, ptr);
    var (r, back) := FreeSection(s.slab, h, ptr);
    if back.Some? {
      NowHolds(s, r, t, back.value);
    } else {
      OthersHold(s, r, t);
      assert s.moving - {t} == s.moving;
    }
  }

  lemma FreeAreaStep(s: State, t: nat, h: nat)
    requires Inv(s) && Allowed(s, FreeArea(t, h))
    ensures Inv(Do(s, FreeArea(t, h)))
    ensures forall d :: S.Live(Do(s, FreeArea(t, h)).slab, d) <==> S.Live(s.slab, d)
  {
    S.DropAreaInv(s.slab, h);
    var r := S.DropArea(s.slab, h);
    assert S.IsHead(s.slab, h) && S.OneRole(s.slab, h) && S.Owns(s.slab, h);
    NowHolds(s, r, t, P.Run(h, s.slab.large[h]));
    assert s.slab.zones.Keys == s.slab.zones.Keys - {h};
    S.SameLive(s.slab, r, h);
  }

  lemma GivePagesStep(s: State, t: nat)
    requires Inv(s) && Allowed(s, GivePages(t))
    ensures Inv(Do(s, GivePages(t)))
    ensures forall d :: S.Live(Do(s, GivePages(t)).slab, d) <==> S.Live(s.slab, d)
  {
    assert Holds(s, t);
    S.GivePagesInv(s.slab, s.moving[t].start, s.moving[t].len);
    OthersHold(s, Do(s, GivePages(t)).slab, t);
  }

  // --------------------------------------------------------------------------------
  // Calls and runs
  // --------------------------------------------------------------------------------

  /** With nothing in between, the sections make up the whole calls. */
  lemma SectionsMakeMalloc(s: S.State, bytes: nat, t: nat)
    requires S.Inv(s) && bytes > 0
    requires bytes < S.Limit(s) ==> s.lists[ZoneIndex(bytes).0] == [] && s.spare == []
    ensures var n := if bytes < S.Limit(s) then s.zonePages else S.PagesFor(bytes);
      var m := Do(State(s, map[]), TakePages(t, n));
      && Inv(State(s, map[])) && Inv(m)
      && (S.Malloc(s, bytes).0.None? ==> m == State(s, map[]))
      && (S.Malloc(s, bytes).0.Some? ==>
          var step := if bytes < S.Limit(s) then NewZone(t, ZoneIndex(bytes).0) else NewArea(t);
          Allowed(m, step) && Do(m, step) == State(S.Malloc(s, bytes).1, map[]))
  {
    var e := State(s, map[]);
    var n := if bytes < S.Limit(s) then s.zonePages else S.PagesFor(bytes);
    if bytes < S.Limit(s) { S.SmallFits(s, bytes); }
    TakePagesStep(e, t, n);
    var (b, rest) := P.Take(s.pages, n);
    var m := Do(e, TakePages(t, n));
    if b.Some? {
      assert m == State(s.(pages := rest), map[t := P.Run(b.value, n)]);
      assert map[t := P.Run(b.value, n)] - {t} == map[];
    }
  }

  lemma SectionsMakeFree(s: S.State, ptr: nat, t: nat)
    requires S.Inv(s) && S.Live(s, ptr)
    ensures var m := Do(State(s, map[]), FreeChunk(t, ptr));
      && Inv(State(s, map[])) && Inv(m) && S.Freeable(s, ptr)
      && (if t in m.moving then Do(m, GivePages(t)) else m) == State(S.Free(s, ptr), map[])
  {
    FreeChunkStep(State(s, map[]), t, ptr);
    FreeIsFreeSmall(s, ptr);
    FreeSectionIsFree(s, ZoneWith(s, ptr), ptr);
    var back := FreeSection(s, ZoneWith(s, ptr), ptr).1;
    if back.Some? { GiveBack(Do(State(s, map[]), FreeChunk(t, ptr)), t, back.value); }
  }

  lemma GiveBack(m: State, t: nat, run: P.Run)
    requires Inv(m) && m.moving == map[t := run]
    ensures Do(m, GivePages(t)) == State(m.slab.(pages := P.Give(m.slab.pages, run.start, run.len)), map[])
  {
    assert m.moving - {t} == map[];
  }

  lemma SectionsMakeFreeArea(s: S.State, h: nat, t: nat)
    requires S.Inv(s) && h in s.large
    ensures var m := Do(State(s, map[]), FreeArea(t, h));
      && Inv(State(s, map[])) && Inv(m) && S.Freeable(s, h * PAGE) && t in m.moving
      && Do(m, GivePages(t)) == State(S.Free(s, h * PAGE), map[])
  {
    FreeAreaStep(State(s, map[]), t, h);
    S.DropAreaInv(s, h);
    assert h * PAGE / PAGE == h;
    var g := S.FreeCases(s, h * PAGE);
    GiveBack(Do(State(s, map[]), FreeArea(t, h)), t, P.Run(h, s.large[h]));
  }

  lemma FreeIsFreeSmall(s: S.State, ptr: nat)
    requires S.Inv(s) && S.Live(s, ptr)
    ensures S.Freeable(s, ptr) && S.Free(s, ptr) == S.FreeSmall(s, ZoneWith(s, ptr), ptr)
  {
    S.LookupFindsZone(s, ZoneWith(s, ptr), ptr);
    var g := S.FreeCases(s, ptr);
  }

  lemma FreeSectionIsFree(s: S.State, h: nat, ptr: nat)
    requires S.Inv(s) && h in s.zones && h in s.live && ptr in s.live[h]
    ensures var (r, back) := FreeSection(s, h, ptr);
      S.FreeSmall(s, h, ptr) ==
        if back.Some? then r.(pages := P.Give(r.pages, back.value.start, back.value.len)) else r
  {
  }

  ghost predicate AllowedRun(s: State, steps: seq<Step>)
    requires Inv(s)
    decreases |steps|
  {
    steps == [] || (Allowed(s, steps[0]) && (StepInv(s, steps[0]); AllowedRun(Do(s, steps[0]), steps[1..])))
  }

  ghost function Run(s: State, steps: seq<Step>): (r: State)
    requires Inv(s) && AllowedRun(s, steps)
    ensures Inv(r)
    decreases |steps|
  {
    if steps == [] then s
    else
      StepInv(s, steps[0]);
      Run(Do(s, steps[0]), steps[1..])
  }

  /** Over any interleaving from a new heap: chunks in use do not overlap one another, a header or a
      page that is on the move, and the page table leads back from each of them to its zone. */
  lemma ReachableChunks(s: S.State, npages: nat, steps: seq<Step>, g: nat, c: nat, h: nat, d: nat, t: nat)
    requires npages > 0 && S.Initial(s, npages) && S.Inv(s) && AllowedRun(State(s, map[]), steps)
    requires var r := Run(State(s, map[]), steps);
      && c < d
      && g in r.slab.zones && g in r.slab.live && c in r.slab.live[g]
      && h in r.slab.zones && h in r.slab.live && d in r.slab.live[h]
    ensures var r := Run(State(s, map[]), steps);
      && c + r.slab.zones[g].size <= d && g * PAGE + ZONE_HEADER <= c
      && c / PAGE in r.slab.kup && S.ZoneOf(r.slab, c) == g
      && (t in r.moving ==>
          c + r.slab.zones[g].size <= r.moving[t].start * PAGE || P.End(r.moving[t]) * PAGE <= c)
  {
    var r := Run(State(s, map[]), steps);
    S.LiveChunksApart(r.slab, g, c, h, d);
    S.LookupFindsZone(r.slab, g, c);
    if t in r.moving {
      assert Holds(r, t);
      S.UnclaimedApart(r.slab, r.moving[t].start, r.moving[t].len);
      assert S.IsHead(r.slab, g) && S.OneRole(r.slab, g);
    }
  }
}
