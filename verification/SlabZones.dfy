/** Zones of the slab allocator in slab.c: size classes, and how one zone hands out its chunks. */
module SlabZones {
  import opened Lists

  /** `sizeof(slab_zone)` and `RT_MM_PAGE_SIZE` on a 32-bit machine, and `ZALLOC_ZONE_LIMIT` */
  const ZONE_HEADER: nat := 36
  const PAGE: nat := 4096
  const LIMIT: nat := 16384

  // --------------------------------------------------------------------------------
  // Size classes
  // --------------------------------------------------------------------------------

  /** `zoneindex`: the class of a request, and the chunk size of that class */
  function ZoneIndex(n: nat): (nat, nat)
    requires 0 < n < LIMIT
  {
    if n < 128 then var c := (n + 7) / 8 * 8; (c / 8 - 1, c)
    else if n < 256 then var c := (n + 15) / 16 * 16; (c / 16 + 7, c)
    else if n < 512 then var c := (n + 31) / 32 * 32; (c / 32 + 15, c)
    else if n < 1024 then var c := (n + 63) / 64 * 64; (c / 64 + 23, c)
    else if n < 2048 then var c := (n + 127) / 128 * 128; (c / 128 + 31, c)
    else if n < 4096 then var c := (n + 255) / 256 * 256; (c / 256 + 39, c)
    else if n < 8192 then var c := (n + 511) / 512 * 512; (c / 512 + 47, c)
    else var c := (n + 1023) / 1024 * 1024; (c / 1024 + 55, c)
  }

  /** The unit to which a request of `n` bytes is rounded. */
  function Unit(n: nat): nat {
    if n < 128 then 8 else if n < 256 then 16 else if n < 512 then 32 else if n < 1024 then 64
    else if n < 2048 then 128 else if n < 4096 then 256 else if n < 8192 then 512 else 1024
  }

  /** The chunk size that belongs to a class, in closed form. */
  function ChunkSize(zi: nat): nat {
    if zi < 16 then 8 * (zi + 1) else if zi < 24 then 16 * (zi - 7) else if zi < 32 then 32 * (zi - 15)
    else if zi < 40 then 64 * (zi - 23) else if zi < 48 then 128 * (zi - 31) else if zi < 56 then 256 * (zi - 39)
    else if zi < 64 then 512 * (zi - 47) else 1024 * (zi - 55)
  }

  /** The class determines the chunk size, so all zones on one list have chunks of the same size;
      the size holds the request and wastes less than one unit. */
  lemma ZoneIndexIsClass(n: nat)
    requires 0 < n < LIMIT
    ensures var (zi, c) := ZoneIndex(n);
      zi < 72 && c == ChunkSize(zi) && n <= c < n + Unit(n) && c % 8 == 0 && c <= LIMIT && (n < 8192 ==> c <= 8192)
  {
    if n < 128 { Round8(n); } else if n < 256 { Round16(n); } else if n < 512 { Round32(n); }
    else if n < 1024 { Round64(n); } else if n < 2048 { Round128(n); } else if n < 4096 { Round256(n); }
    else if n < 8192 { Round512(n); } else { Round1024(n); }
  }

  lemma Round8(n: nat)
    ensures var c := (n + 7) / 8 * 8; c / 8 == (n + 7) / 8 && n <= c < n + 8 && c % 8 == 0
  {
    var q := (n + 7) / 8;
    assert q * 8 == 8 * (1 * q);
  }

  lemma Round16(n: nat)
    ensures var c := (n + 15) / 16 * 16; c / 16 == (n + 15) / 16 && n <= c < n + 16 && c % 8 == 0
  {
    var q := (n + 15) / 16;
    assert q * 16 == 8 * (2 * q);
  }

  lemma Round32(n: nat)
    ensures var c := (n + 31) / 32 * 32; c / 32 == (n + 31) / 32 && n <= c < n + 32 && c % 8 == 0
  {
    var q := (n + 31) / 32;
    assert q * 32 == 8 * (4 * q);
  }

  lemma Round64(n: nat)
    ensures var c := (n + 63) / 64 * 64; c / 64 == (n + 63) / 64 && n <= c < n + 64 && c % 8 == 0
  {
    var q := (n + 63) / 64;
    assert q * 64 == 8 * (8 * q);
  }

  lemma Round128(n: nat)
    ensures var c := (n + 127) / 128 * 128; c / 128 == (n + 127) / 128 && n <= c < n + 128 && c % 8 == 0
  {
    var q := (n + 127) / 128;
    assert q * 128 == 8 * (16 * q);
  }

  lemma Round256(n: nat)
    ensures var c := (n + 255) / 256 * 256; c / 256 == (n + 255) / 256 && n <= c < n + 256 && c % 8 == 0
  {
    var q := (n + 255) / 256;
    assert q * 256 == 8 * (32 * q);
  }

  lemma Round512(n: nat)
    ensures var c := (n + 511) / 512 * 512; c / 512 == (n + 511) / 512 && n <= c < n + 512 && c % 8 == 0
  {
    var q := (n + 511) / 512;
    assert q * 512 == 8 * (64 * q);
  }

  lemma Round1024(n: nat)
    ensures var c := (n + 1023) / 1024 * 1024; c / 1024 == (n + 1023) / 1024 && n <= c < n + 1024 && c % 8 == 0
  {
    var q := (n + 1023) / 1024;
    assert q * 1024 == 8 * (128 * q);
  }

  // --------------------------------------------------------------------------------
  // One zone
  // --------------------------------------------------------------------------------

  /** A zone header.  Chunks up to `uindex` have been handed out before; `freechunk` lists, by
      address, those that came back. */
  datatype Zone = Zone(zi: nat, base: nat, size: nat, nmax: nat, nfree: nat, uindex: nat, freechunk: seq<nat>)

  function Chunk(z: Zone, k: nat): nat {
    z.base + k * z.size
  }

  ghost predicate Carved(z: Zone, c: nat) {
    exists k :: 0 <= k <= z.uindex && c == Chunk(z, k)
  }

  /** `live` are the chunks in use.  The free count is what was never used plus what came back,
      and every chunk ever handed out is either live or in the free list, once. */
  ghost predicate ZoneOk(z: Zone, live: set<nat>) {
    && z.size > 0 && z.uindex < z.nmax
    && Distinct(z.freechunk) && (forall c :: c in z.freechunk ==> c !in live)
    && (forall c :: c in z.freechunk || c in live <==> Carved(z, c))
    && |live| + |z.freechunk| == z.uindex + 1
    && z.nfree == z.nmax - 1 - z.uindex + |z.freechunk|
  }

  /** The zone lies between the two addresses, behind its own header. */
  ghost predicate Within(z: Zone, lo: nat, hi: nat) {
    lo + ZONE_HEADER <= z.base && z.base + z.nmax * z.size <= hi
  }

  /** Different chunks do not overlap. */
  lemma ChunksApart(z: Zone, j: nat, k: nat)
    requires j < k
    ensures Chunk(z, j) + z.size <= Chunk(z, k)
  {
    assert k * z.size == j * z.size + (k - j) * z.size;
    assert (k - j) * z.size >= z.size by { Multiple(k - j, z.size); }
  }

  lemma Multiple(n: nat, s: nat)
    requires n > 0
    ensures n * s >= s
  {
    assert n * s == (n - 1) * s + s;
  }

  lemma NeverCarved(z: Zone, k: nat)
    requires z.size > 0 && z.uindex < k
    ensures !Carved(z, Chunk(z, k))
  {
    forall j | 0 <= j <= z.uindex ensures Chunk(z, j) != Chunk(z, k) { ChunksApart(z, j, k); }
  }

  /** The part of `rt_malloc` that serves a request from a zone with free chunks: the next chunk
      never used, or else the head of the free list. */
  function TakeChunk(z: Zone): (nat, Zone)
    requires z.nfree > 0
  {
    if z.uindex + 1 != z.nmax then
      (Chunk(z, z.uindex + 1), z.(nfree := z.nfree - 1, uindex := z.uindex + 1))
    else if z.freechunk != [] then
      (z.freechunk[0], z.(nfree := z.nfree - 1, freechunk := z.freechunk[1..]))
    else (0, z)
  }

  /** The free list is never empty when it is popped, and the chunk was not in use. */
  lemma TakeChunkOk(z: Zone, live: set<nat>)
    requires ZoneOk(z, live) && z.nfree > 0
    ensures z.uindex + 1 == z.nmax ==> z.freechunk != []
    ensures var (c, r) := TakeChunk(z); c !in live && ZoneOk(r, live + {c}) && SameZone(z, r) && Carved(r, c)
  {
    var (c, r) := TakeChunk(z);
    if z.uindex + 1 != z.nmax {
      NeverCarved(z, z.uindex + 1);
      assert c !in live && c !in z.freechunk;
      forall x ensures Carved(r, x) <==> Carved(z, x) || x == c { CarvedMore(z, r, x); }
      assert live + {c} - {c} == live;
    } else {
      assert c in z.freechunk;
      forall x ensures Carved(r, x) <==> Carved(z, x) { CarvedSame(z, r, x); }
      assert z.freechunk == [c] + r.freechunk;
    }
  }

  /** A chunk that was never used goes first, and the free list is left alone as long as there is one;
      then the chunk that came back last. */
  lemma TakeChunkOrder(z: Zone, live: set<nat>)
    requires ZoneOk(z, live) && z.nfree > 0
    ensures var (c, r) := TakeChunk(z);
      && r.nfree == z.nfree - 1
      && (z.uindex + 1 < z.nmax ==> c == Chunk(z, z.uindex + 1) && r.freechunk == z.freechunk)
      && (z.uindex + 1 == z.nmax ==> z.freechunk == [c] + r.freechunk)
  {
  }

  /** Everything but the counters is as it was. */
  ghost predicate SameZone(z: Zone, r: Zone) {
    r.zi == z.zi && r.base == z.base && r.size == z.size && r.nmax == z.nmax
  }

  lemma CarvedSame(z: Zone, r: Zone, x: nat)
    requires SameZone(z, r) && r.uindex == z.uindex
    ensures Carved(r, x) <==> Carved(z, x)
  {
    if k :| 0 <= k <= z.uindex && x == Chunk(z, k) { assert x == Chunk(r, k); }
    if k :| 0 <= k <= r.uindex && x == Chunk(r, k) { assert x == Chunk(z, k); }
  }

  lemma CarvedMore(z: Zone, r: Zone, x: nat)
    requires SameZone(z, r) && r.uindex == z.uindex + 1
    ensures Carved(r, x) <==> Carved(z, x) || x == Chunk(z, r.uindex)
  {
    assert Chunk(r, r.uindex) == Chunk(z, r.uindex);
    if k :| 0 <= k <= z.uindex && x == Chunk(z, k) { assert x == Chunk(r, k); }
    if k :| 0 <= k <= r.uindex && x == Chunk(r, k) { assert x == Chunk(z, k); }
  }

  /** The part of `rt_free` that puts a chunk back */
  function GiveChunk(z: Zone, c: nat): Zone {
    z.(nfree := z.nfree + 1, freechunk := [c] + z.freechunk)
  }

  lemma GiveChunkOk(z: Zone, live: set<nat>, c: nat)
    requires ZoneOk(z, live) && c in live
    ensures ZoneOk(GiveChunk(z, c), live - {c}) && SameZone(z, GiveChunk(z, c)) && GiveChunk(z, c).nfree <= z.nmax
  {
    var r := GiveChunk(z, c);
    assert r.freechunk[1..] == z.freechunk;
    assert live == live - {c} + {c};
    forall x ensures Carved(r, x) <==> Carved(z, x) { CarvedSame(z, r, x); }
  }

  /** A zone whose free count is at its maximum has no chunk in use, so its pages can go. */
  lemma AllFree(z: Zone, live: set<nat>)
    requires ZoneOk(z, live)
    ensures z.nfree == z.nmax <==> live == {}
    ensures z.nfree <= z.nmax
  {
  }

  /** Live chunks of a zone are inside it, behind its header, and do not overlap. */
  lemma LiveApart(z: Zone, live: set<nat>, lo: nat, hi: nat, c: nat, d: nat)
    requires ZoneOk(z, live) && Within(z, lo, hi) && c in live && d in live
    ensures lo + ZONE_HEADER <= c && c + z.size <= hi
    ensures c < d ==> c + z.size <= d
  {
    var j :| 0 <= j <= z.uindex && c == Chunk(z, j);
    var k :| 0 <= k <= z.uindex && d == Chunk(z, k);
    ChunkWithin(z, lo, hi, j);
    if j < k { ChunksApart(z, j, k); } else if k < j { ChunksApart(z, k, j); }
  }

  lemma ChunkWithin(z: Zone, lo: nat, hi: nat, j: nat)
    requires Within(z, lo, hi) && j < z.nmax
    ensures lo + ZONE_HEADER <= Chunk(z, j) && Chunk(z, j) + z.size <= hi
  {
    ChunksApart(z, j, z.nmax);
    assert j * z.size >= 0;
  }

  // --------------------------------------------------------------------------------
  // A new zone
  // --------------------------------------------------------------------------------

  predicate PowerOf2(n: nat) {
    n == 1 || (n > 1 && n % 2 == 0 && PowerOf2(n / 2))
  }

  /** Where the chunks begin: power-of-two chunks are aligned to their own size. */
  function Offset(size: nat): nat
    requires size > 0
  {
    if PowerOf2(size) then (ZONE_HEADER + size - 1) / size * size else 40
  }

  function FreshZone(zi: nat, lo: nat, size: nat, zoneSize: nat): Zone
    requires size > 0 && Offset(size) <= zoneSize
  {
    var nmax := (zoneSize - Offset(size)) / size;
    Zone(zi, lo + Offset(size), size, nmax, if nmax > 0 then nmax - 1 else 0, 0, [])
  }

  lemma OffsetBounds(size: nat)
    requires size > 0
    ensures ZONE_HEADER <= Offset(size) < ZONE_HEADER + size + 5
  {
    if PowerOf2(size) {
      var q := (ZONE_HEADER + size - 1) / size;
      assert q * size <= ZONE_HEADER + size - 1 < q * size + size;
    }
  }

  /** A zone that is large enough has at least two chunks, so a new one has a chunk to spare. */
  lemma FreshZoneOk(zi: nat, lo: nat, size: nat, zoneSize: nat)
    requires 0 < size && 4 * size <= zoneSize && zoneSize >= 32768
    ensures Offset(size) <= zoneSize
    ensures var z := FreshZone(zi, lo, size, zoneSize);
      ZoneOk(z, {z.base}) && Within(z, lo, lo + zoneSize) && z.nfree > 0 && z.nfree == z.nmax - 1
  {
    OffsetBounds(size);
    var off := Offset(size);
    var z := FreshZone(zi, lo, size, zoneSize);
    Quotient(zoneSize - off, size);
    assert Chunk(z, 0) == z.base;
    forall c ensures Carved(z, c) <==> c == z.base {
      if k :| 0 <= k <= 0 && c == Chunk(z, k) { }
    }
  }

  // --------------------------------------------------------------------------------
  // Alignment
  // --------------------------------------------------------------------------------

  lemma ChunkSizeAligned(zi: nat)
    requires zi < 72
    ensures ChunkSize(zi) % 8 == 0 && ChunkSize(zi) > 0
  {
  }

  lemma Shift(x: nat, q: nat, m: nat)
    requires m > 0
    ensures (x + q * m) % m == x % m
  {
    var y := x + q * m;
    var k := y / m - x / m - q;
    assert y == y / m * m + y % m && x == x / m * m + x % m;
    assert k * m == x % m - y % m;
    if k > 0 { Multiple(k, m); }
    if k < 0 { Multiple(-k, m); }
  }

  /** A smaller power of two divides a larger one. */
  lemma {:induction false} PowerDivides(n: nat, m: nat)
    requires PowerOf2(n) && PowerOf2(m) && n <= m
    ensures m % n == 0
    decreases n
  {
    if n > 1 {
      PowerDivides(n / 2, m / 2);
      var q := m / 2 / (n / 2);
      assert m / 2 == q * (n / 2);
      assert m == 0 + q * n;
      Shift(0, q, n);
    }
  }

  lemma PagePower()
    ensures PowerOf2(8) && PowerOf2(128) && PowerOf2(1024) && PowerOf2(PAGE)
  {
    assert PowerOf2(1) && PowerOf2(2) && PowerOf2(4) && PowerOf2(8) && PowerOf2(16) && PowerOf2(32) && PowerOf2(64);
    assert PowerOf2(128) && PowerOf2(256) && PowerOf2(512) && PowerOf2(1024) && PowerOf2(2048) && PowerOf2(PAGE);
  }

  lemma OffsetAligned(size: nat) returns (q: nat)
    requires size > 0 && size % 8 == 0
    ensures Offset(size) % 8 == 0 && (PowerOf2(size) ==> Offset(size) == q * size)
  {
    q := (ZONE_HEADER + size - 1) / size;
    var e := size / 8;
    assert q * size == q * e * 8;
  }

  /** A chunk is aligned to eight bytes. */
  lemma ChunkAligned(z: Zone, lo: nat, c: nat)
    requires z.size > 0 && z.size % 8 == 0 && lo % 8 == 0 && z.base == lo + Offset(z.size) && Carved(z, c)
    ensures c % 8 == 0
  {
    var k :| 0 <= k <= z.uindex && c == Chunk(z, k);
    var _ := OffsetAligned(z.size);
    EightsAligned(lo, Offset(z.size), k, z.size);
  }

  lemma EightsAligned(lo: nat, off: nat, k: nat, size: nat)
    requires lo % 8 == 0 && off % 8 == 0 && size % 8 == 0
    ensures (lo + off + k * size) % 8 == 0
  {
    EightTimes(k, size);
  }

  lemma EightTimes(k: nat, size: nat)
    requires size % 8 == 0
    ensures k * size % 8 == 0
  {
    var e := size / 8;
    assert k * size == k * e * 8;
  }

  /** In a heap at `start`, a chunk whose size is a power of two is as far from a multiple of its
      size as its zone is. */
  lemma PowerChunk(z: Zone, lo: nat, c: nat, start: nat)
    requires z.size > 0 && z.size % 8 == 0 && PowerOf2(z.size) && z.base == lo + Offset(z.size) && Carved(z, c)
    ensures (start + c) % z.size == (start + lo) % z.size
  {
    var k :| 0 <= k <= z.uindex && c == Chunk(z, k);
    var q := OffsetAligned(z.size);
    assert start + c == start + lo + (q + k) * z.size;
    Shift(start + lo, q + k, z.size);
  }

  /** A request for a power of two gets a chunk of just that size, if it is not below eight. */
  lemma ZoneIndexPower(n: nat)
    requires 0 < n < LIMIT && PowerOf2(n)
    ensures ZoneIndex(n).1 == if n < 8 then 8 else n
  {
    PagePower();
    if n >= 8 { PowerDivides(8, n); }
    if n >= 128 { PowerDivides(128, n); }
    if n >= 1024 { PowerDivides(1024, n); }
    ZoneIndexExact(n);
  }

  lemma ZoneIndexExact(n: nat)
    requires 0 < n < LIMIT && (n >= 8 ==> n % 8 == 0) && (n >= 128 ==> n % 128 == 0) && (n >= 1024 ==> n % 1024 == 0)
    ensures ZoneIndex(n).1 == if n < 8 then 8 else n
  {
    if n < 128 {
      assert n >= 8 ==> n == 8 * (n / 8);
    } else if n < 1024 {
      MiddleIndexExact(n, n / 128);
    } else {
      LargeIndexExact(n, n / 1024);
    }
  }

  lemma MiddleIndexExact(n: nat, k: nat)
    requires n == 128 * k && 0 < n < 1024
    ensures ZoneIndex(n).1 == n
  {
    assert k == 1 || k == 2 || k == 3 || k == 4 || k == 5 || k == 6 || k == 7;
  }

  lemma LargeIndexExact(n: nat, k: nat)
    requires n == 1024 * k && 0 < n < LIMIT
    ensures ZoneIndex(n).1 == n
  {
    if k < 4 { assert k == 1 || k == 2 || k == 3; }
    else if k < 8 { assert k == 4 || k == 5 || k == 6 || k == 7; }
  }

  /** It has as many chunks as fit. */
  lemma FreshZoneFull(zi: nat, lo: nat, size: nat, zoneSize: nat)
    requires 0 < size && Offset(size) <= zoneSize
    ensures var z := FreshZone(zi, lo, size, zoneSize);
      z.base + z.nmax * size <= lo + zoneSize < z.base + z.nmax * size + size
  {
    var a := zoneSize - Offset(size);
    assert a == a / size * size + a % size;
  }

  lemma Quotient(a: nat, s: nat)
    requires s > 0 && a >= 2 * s
    ensures a / s >= 2 && a / s * s <= a
  {
    var q := a / s;
    assert a == q * s + a % s;
    assert q == 0 || q == 1 || q >= 2;
  }
}
