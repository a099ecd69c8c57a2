/** Parts of the slab allocator's invariant, each over plain values, and what every step does to them. */
module SlabZones {
  import opened ChainList
  import opened PageRuns
  import opened SlabSizes
  import opened Pages

  // ---------------------------------------------------------------- extents: page ranges taken from the page allocator

  ghost predicate Extents(ext: map<int, int>, runs: seq<Run>) {
    && (forall x :: x in ext ==> x > 0 && ext[x] > 0 && Taken(runs, x, ext[x]))
    && (forall x, y :: x in ext && y in ext && x < y ==> x + ext[x] <= y)
  }

  lemma ExtentAdd(ext: map<int, int>, runs: seq<Run>, runs': seq<Run>, x: int, n: int)
    requires Extents(ext, runs) && x > 0 && n > 0 && AllFree(runs, x, n) && Removes(runs, runs', x, n)
    ensures x !in ext && Extents(ext[x := n], runs')
  {
    assert Covers(runs, x);
    assert x in ext ==> Taken(runs, x, ext[x]);
    forall y | y in ext ensures Taken(runs', y, ext[y]) && (y < x ==> y + ext[y] <= x) && (x < y ==> x + n <= y) {
      assert Taken(runs, y, ext[y]);
      assert !Covers(runs, y);
    }
    assert Taken(runs', x, n);
  }

  lemma ExtentDrop(ext: map<int, int>, runs: seq<Run>, runs': seq<Run>, x: int)
    requires Extents(ext, runs) && x in ext && Adds(runs, runs', x, ext[x])
    ensures Extents(ext - {x}, runs')
  {
    forall y | y in ext && y != x ensures Taken(runs', y, ext[y]) {
      assert Taken(runs, y, ext[y]);
      assert x < y ==> x + ext[x] <= y;
      assert y < x ==> y + ext[y] <= x;
    }
  }

  // ---------------------------------------------------------------- zones and the lists they are on

  /** The header at the start of a zone. `active` is the magic number; z_next is kept apart. */
  datatype Zone = Zone(active: bool, nfree: int, nmax: int, base: int, uindex: int, chunk: int, zi: int, freechunk: int)

  const SPARE: int := NZONES

  /** The list a zone belongs on: its class while it has free chunks, the spare list once retired, else none. */
  function Home(zone: Zone): int {
    if !zone.active then SPARE else if zone.nfree > 0 then zone.zi else -1
  }

  type Rows = seq<seq<int>>

  ghost predicate Homes(rows: Rows, zones: map<int, Zone>) {
    && |rows| == NZONES + 1
    && forall i, z :: 0 <= i <= NZONES ==> (z in rows[i] <==> z in zones && Home(zones[z]) == i)
  }

  ghost predicate RowsOk(next: Links, heads: seq<int>, rows: Rows) {
    && |heads| == NZONES + 1 && |rows| == NZONES + 1
    && forall i :: 0 <= i <= NZONES ==> IsList(next, heads[i], rows[i])
  }

  lemma RowPush(next: Links, heads: seq<int>, rows: Rows, i: nat, z: int)
    requires RowsOk(next, heads, rows) && i <= NZONES && z != NULL
    requires forall j :: 0 <= j <= NZONES ==> z !in rows[j]
    ensures RowsOk(next[z := heads[i]], heads[i := z], rows[i := [z] + rows[i]])
  {
    var next', heads', rows' := next[z := heads[i]], heads[i := z], rows[i := [z] + rows[i]];
    forall j | 0 <= j <= NZONES ensures IsList(next', heads'[j], rows'[j]) {
      assert IsList(next, heads[j], rows[j]);
      if j == i { Push(next, heads[i], rows[i], z); } else { Frame(next, next', heads[j], rows[j]); }
    }
  }

  /** Links of nodes on no list are free to change. */
  lemma RowsFrame(next: Links, heads: seq<int>, rows: Rows, z: int, v: int)
    requires RowsOk(next, heads, rows) && forall j :: 0 <= j <= NZONES ==> z !in rows[j]
    ensures RowsOk(next[z := v], heads, rows)
  {
    forall j | 0 <= j <= NZONES ensures IsList(next[z := v], heads[j], rows[j]) {
      Frame(next, next[z := v], heads[j], rows[j]);
    }
  }

  lemma OneHome(rows: Rows, zones: map<int, Zone>, y: int, i: int, j: int)
    requires Homes(rows, zones) && 0 <= i <= NZONES && 0 <= j <= NZONES && i != j && y in rows[i]
    ensures y in zones && Home(zones[y]) == i && y !in rows[j]
  {
  }

  lemma RowDrop(next: Links, heads: seq<int>, rows: Rows, zones: map<int, Zone>, i: nat, k: nat)
    requires RowsOk(next, heads, rows) && Homes(rows, zones) && i <= NZONES && k < |rows[i]|
    ensures rows[i][k] in next
    ensures var v := next[rows[i][k]];
      RowsOk(StoreLink(next, rows[i], k, v), heads[i := StoreHead(heads[i], k, v)],
          rows[i := rows[i][..k] + rows[i][k + 1..]])
  {
    assert IsList(next, heads[i], rows[i]);
    DropAt(next, heads[i], rows[i], k);
    var v := next[rows[i][k]];
    var next' := StoreLink(next, rows[i], k, v);
    forall j | 0 <= j <= NZONES && j != i ensures IsList(next', heads[j], rows[j]) {
      assert IsList(next, heads[j], rows[j]);
      if k > 0 {
        var y := rows[i][k - 1];
        OneHome(rows, zones, y, i, j);
        Frame(next, next', heads[j], rows[j]);
      }
    }
  }

  lemma DroppedMembers(s: seq<int>, k: nat, y: int)
    requires k < |s| && NoDup(s)
    ensures y in s[..k] + s[k + 1..] <==> y in s && y != s[k]
  {
    if y in s && y != s[k] {
      var m :| 0 <= m < |s| && s[m] == y;
      assert y == (s[..k] + s[k + 1..])[if m < k then m else m - 1];
    }
  }

  /** Zone z leaves row i (if it was on one) because its home is now elsewhere. */
  lemma HomesLeave(rows: Rows, zones: map<int, Zone>, i: nat, k: nat, zone': Zone)
    requires Homes(rows, zones) && i <= NZONES && k < |rows[i]| && NoDup(rows[i]) && !(0 <= Home(zone') <= NZONES)
    ensures Homes(rows[i := rows[i][..k] + rows[i][k + 1..]], zones[rows[i][k] := zone'])
  {
    var z := rows[i][k];
    assert z in rows[i];
    var rows', zones' := rows[i := rows[i][..k] + rows[i][k + 1..]], zones[z := zone'];
    forall j, y | 0 <= j <= NZONES ensures y in rows'[j] <==> y in zones' && Home(zones'[y]) == j {
      if j == i { DroppedMembers(rows[i], k, y); } else { OneHome(rows, zones, z, i, j); }
    }
  }

  /** A zone on no row goes to the front of its home row. */
  lemma HomesJoin(rows: Rows, zones: map<int, Zone>, z: int, zone': Zone)
    requires Homes(rows, zones) && 0 <= Home(zone') <= NZONES
    requires z in zones ==> !(0 <= Home(zones[z]) <= NZONES)
    ensures var i := Home(zone'); Homes(rows[i := [z] + rows[i]], zones[z := zone'])
    ensures forall j :: 0 <= j <= NZONES ==> z !in rows[j]
  {
  }

  lemma HomesStay(rows: Rows, zones: map<int, Zone>, z: int, zone': Zone)
    requires Homes(rows, zones) && z in zones && Home(zones[z]) == Home(zone')
    ensures Homes(rows, zones[z := zone'])
  {
  }

  lemma HomesForget(rows: Rows, zones: map<int, Zone>, z: int)
    requires Homes(rows, zones) && z in zones && !(0 <= Home(zones[z]) <= NZONES)
    ensures Homes(rows, zones - {z})
  {
  }

  // ---------------------------------------------------------------- the chunks of one zone

  /** Chunk indices on the free list, in list order, and chunk indices handed out. */
  datatype Chunks = Chunks(free: seq<int>, live: set<int>)

  ghost predicate ChunksOk(zone: Zone, c: Chunks) {
    && 0 <= zone.uindex < zone.nmax && NoDup(c.free)
    && (forall k :: 0 <= k <= zone.uindex <==> k in c.free || k in c.live)
    && (forall k :: k in c.free ==> k !in c.live)
    && |c.live| + |c.free| == zone.uindex + 1
    && zone.nfree == (zone.nmax - 1 - zone.uindex) + |c.free|
  }

  ghost predicate Placed(z: int, zone: Zone, zoneSize: int) {
    && 0 <= zone.zi < NZONES && zone.chunk == ClassSize(zone.zi) && zone.chunk > 0 && zone.nmax > 0 && z > 0
    && zone.base == z * PAGE + Offset(zone.chunk) && zone.base + zone.nmax * zone.chunk <= z * PAGE + zoneSize
  }

  ghost function FreeAddrs(zone: Zone, free: seq<int>): (s: seq<int>)
    ensures |s| == |free| && forall i :: 0 <= i < |free| ==> s[i] == ChunkAt(zone.base, zone.chunk, free[i])
  {
    seq(|free|, i requires 0 <= i < |free| => ChunkAt(zone.base, zone.chunk, free[i]))
  }

  ghost predicate ZoneOk(z: int, zone: Zone, cnext: Links, c: Chunks, zoneSize: int) {
    && ChunksOk(zone, c) && Placed(z, zone, zoneSize)
    && IsList(cnext, zone.freechunk, FreeAddrs(zone, c.free))
  }

  lemma InZone(z: int, zone: Zone, zoneSize: int, k: int)
    requires Placed(z, zone, zoneSize) && 0 <= k < zone.nmax
    ensures var a := ChunkAt(zone.base, zone.chunk, k);
      z * PAGE + HEADER <= a && a + zone.chunk <= z * PAGE + zoneSize && a > 0
  {
    ChunkInside(zone.base, zone.chunk, k, zone.nmax);
  }

  lemma SameChunk(zone: Zone, j: int, k: int)
    requires zone.chunk > 0 && ChunkAt(zone.base, zone.chunk, j) == ChunkAt(zone.base, zone.chunk, k)
    ensures j == k
  {
    if j < k { ChunksApart(zone.base, zone.chunk, j, k); }
    if k < j { ChunksApart(zone.base, zone.chunk, k, j); }
  }

  /** A chunk is handed out from the part of the zone never used before. */
  lemma TakeNew(z: int, zone: Zone, cnext: Links, c: Chunks, zoneSize: int)
    requires ZoneOk(z, zone, cnext, c, zoneSize) && zone.nfree > 0 && zone.uindex + 1 != zone.nmax
    ensures var k := zone.uindex + 1;
      && k !in c.live && 0 <= k < zone.nmax
      && ZoneOk(z, zone.(nfree := zone.nfree - 1, uindex := k), cnext, Chunks(c.free, c.live + {k}), zoneSize)
  {
    var k := zone.uindex + 1;
    var zone' := zone.(nfree := zone.nfree - 1, uindex := k);
    assert FreeAddrs(zone', c.free) == FreeAddrs(zone, c.free);
    assert !(0 <= k <= zone.uindex);
    assert |c.live + {k}| == |c.live| + 1;
  }

  /** Once all chunks have been used, the most recently freed chunk is handed out. */
  lemma TakeOld(z: int, zone: Zone, cnext: Links, c: Chunks, zoneSize: int)
    requires ZoneOk(z, zone, cnext, c, zoneSize) && zone.nfree > 0 && zone.uindex + 1 == zone.nmax
    ensures c.free != [] && zone.freechunk in cnext
    ensures var k := c.free[0];
      && k !in c.live && 0 <= k < zone.nmax && zone.freechunk == ChunkAt(zone.base, zone.chunk, k)
      && ZoneOk(z, zone.(nfree := zone.nfree - 1, freechunk := cnext[zone.freechunk]), cnext,
          Chunks(c.free[1..], c.live + {k}), zoneSize)
  {
    var k := c.free[0];
    assert k in c.free;
    var s := FreeAddrs(zone, c.free);
    Pop(cnext, zone.freechunk, s);
    var zone' := zone.(nfree := zone.nfree - 1, freechunk := cnext[zone.freechunk]);
    assert FreeAddrs(zone', c.free[1..]) == s[1..];
    TakeOldSets(zone, c, cnext[zone.freechunk]);
  }

  lemma TakeOldSets(zone: Zone, c: Chunks, f: int)
    requires ChunksOk(zone, c) && c.free != [] && zone.uindex + 1 == zone.nmax
    ensures ChunksOk(zone.(nfree := zone.nfree - 1, freechunk := f), Chunks(c.free[1..], c.live + {c.free[0]}))
  {
    var k, rest := c.free[0], c.free[1..];
    assert c.free == [k] + rest;
    assert k in c.free;
    assert k !in rest;
    assert |c.live + {k}| == |c.live| + 1;
    forall j ensures 0 <= j <= zone.uindex <==> j in rest || j in c.live + {k} {
      assert j in c.free <==> j == k || j in rest;
    }
  }

  lemma PutSets(zone: Zone, c: Chunks, k: int, f: int)
    requires ChunksOk(zone, c) && k in c.live
    ensures ChunksOk(zone.(nfree := zone.nfree + 1, freechunk := f), Chunks([k] + c.free, c.live - {k}))
  {
    var free' := [k] + c.free;
    assert c.live == c.live - {k} + {k};
    assert k !in c.free;
    forall j ensures 0 <= j <= zone.uindex <==> j in free' || j in c.live - {k} {
      assert j in free' <==> j == k || j in c.free;
    }
  }

  /** A live chunk comes back to the front of its zone's free list. */
  lemma Put(z: int, zone: Zone, cnext: Links, c: Chunks, zoneSize: int, k: int)
    requires ZoneOk(z, zone, cnext, c, zoneSize) && k in c.live
    ensures var a := ChunkAt(zone.base, zone.chunk, k);
      ZoneOk(z, zone.(nfree := zone.nfree + 1, freechunk := a), cnext[a := zone.freechunk],
          Chunks([k] + c.free, c.live - {k}), zoneSize)
  {
    var a := ChunkAt(zone.base, zone.chunk, k);
    var s := FreeAddrs(zone, c.free);
    assert 0 <= k <= zone.uindex;
    InZone(z, zone, zoneSize, k);
    if a in s {
      var i :| 0 <= i < |s| && s[i] == a;
      SameChunk(zone, c.free[i], k);
    }
    ChainList.Push(cnext, zone.freechunk, s, a);
    PutSets(zone, c, k, a);
    assert FreeAddrs(zone.(nfree := zone.nfree + 1, freechunk := a), [k] + c.free) == [a] + s;
  }

  /** The header written into a new or recycled zone; its first chunk is already the caller's. */
  function FreshZone(z: int, zi: nat, zoneSize: int): Zone
    requires zi < NZONES
  {
    ClassPositive(zi);
    var size := ClassSize(zi);
    Zone(true, Capacity(zoneSize, size) - 1, Capacity(zoneSize, size), z * PAGE + Offset(size), 0, size, zi, NULL)
  }

  lemma ClassPositive(zi: nat)
    ensures ClassSize(zi) > 0
  {
  }

  lemma Fresh(z: int, zi: nat, cnext: Links, zoneSize: int)
    requires zi < NZONES && ZoneSizeOk(zoneSize) && z > 0 && ClassSize(zi) <= Limit(zoneSize)
    ensures ZoneOk(z, FreshZone(z, zi, zoneSize), cnext, Chunks([], {0}), zoneSize)
    ensures Home(FreshZone(z, zi, zoneSize)) == zi
  {
    ClassPositive(zi);
    ZoneHasRoom(zoneSize, ClassSize(zi));
    assert |{0}| == 1;
  }

  /** Nothing live in a zone whose chunks are all free, and the other way round. */
  lemma AllFreeIffNoneLive(zone: Zone, c: Chunks)
    requires ChunksOk(zone, c)
    ensures zone.nfree == zone.nmax <==> c.live == {}
  {
  }

  // ---------------------------------------------------------------- all zones together

  ghost predicate AllZones(zones: map<int, Zone>, cnext: Links, chunks: map<int, Chunks>, zoneSize: int) {
    && (forall z :: z in chunks <==> z in zones && zones[z].active)
    && (forall z :: z in chunks ==> ZoneOk(z, zones[z], cnext, chunks[z], zoneSize))
  }

  lemma ZonesUpdate(zones: map<int, Zone>, cnext: Links, chunks: map<int, Chunks>, zoneSize: int, z: int, zone': Zone,
                    c': Chunks)
    requires AllZones(zones, cnext, chunks, zoneSize) && ZoneOk(z, zone', cnext, c', zoneSize) && zone'.active
    ensures AllZones(zones[z := zone'], cnext, chunks[z := c'], zoneSize)
  {
  }

  /** The zone is retired, or was retired already: nothing of it is in use. */
  lemma ZonesRetire(zones: map<int, Zone>, cnext: Links, chunks: map<int, Chunks>, zoneSize: int, z: int, zone': Zone)
    requires AllZones(zones, cnext, chunks, zoneSize) && !zone'.active
    ensures AllZones(zones[z := zone'], cnext, chunks - {z}, zoneSize)
  {
  }

  lemma ZonesForget(zones: map<int, Zone>, cnext: Links, chunks: map<int, Chunks>, zoneSize: int, z: int)
    requires AllZones(zones, cnext, chunks, zoneSize) && z !in chunks
    ensures AllZones(zones - {z}, cnext, chunks, zoneSize)
  {
  }

  /** Every zone is an extent of its own. */
  ghost predicate Owned(ext: map<int, int>, zones: map<int, Zone>, large: map<int, int>, pages: int) {
    && (forall z :: z in zones ==> z in ext && ext[z] == pages && z !in large)
    && (forall x :: x in large ==> x in ext && ext[x] == large[x])
  }

  /** Link words of one zone's chunks are no business of another zone. */
  lemma ZonesLink(zones: map<int, Zone>, cnext: Links, chunks: map<int, Chunks>, zoneSize: int, ext: map<int, int>,
                  large: map<int, int>, runs: seq<Run>, z: int, a: int, v: int, y: int)
    requires AllZones(zones, cnext, chunks, zoneSize) && Owned(ext, zones, large, zoneSize / PAGE) && Extents(ext, runs)
    requires zoneSize % PAGE == 0 && z in zones && z * PAGE <= a < z * PAGE + zoneSize && y in chunks && y != z
    ensures ZoneOk(y, zones[y], cnext[a := v], chunks[y], zoneSize)
  {
    var zone, c := zones[y], chunks[y];
    assert ZoneOk(y, zone, cnext, c, zoneSize);
    var s := FreeAddrs(zone, c.free);
    assert z < y ==> z + ext[z] <= y;
    assert y < z ==> y + ext[y] <= z;
    forall i | 0 <= i < |s| ensures s[i] != a {
      assert c.free[i] in c.free;
      InZone(y, zone, zoneSize, c.free[i]);
    }
    Frame(cnext, cnext[a := v], zone.freechunk, s);
  }

  lemma ZonesPut(zones: map<int, Zone>, cnext: Links, chunks: map<int, Chunks>, zoneSize: int, ext: map<int, int>,
                 large: map<int, int>, runs: seq<Run>, z: int, k: int)
    requires AllZones(zones, cnext, chunks, zoneSize) && Owned(ext, zones, large, zoneSize / PAGE) && Extents(ext, runs)
    requires zoneSize % PAGE == 0 && z in chunks && k in chunks[z].live
    ensures var zone, c := zones[z], chunks[z]; var a := ChunkAt(zone.base, zone.chunk, k);
      AllZones(zones[z := zone.(nfree := zone.nfree + 1, freechunk := a)], cnext[a := zone.freechunk],
               chunks[z := Chunks([k] + c.free, c.live - {k})], zoneSize)
  {
    var zone, c := zones[z], chunks[z];
    var a := ChunkAt(zone.base, zone.chunk, k);
    Put(z, zone, cnext, c, zoneSize, k);
    assert 0 <= k <= zone.uindex;
    InZone(z, zone, zoneSize, k);
    forall y | y in chunks && y != z ensures ZoneOk(y, zones[y], cnext[a := zone.freechunk], chunks[y], zoneSize) {
      ZonesLink(zones, cnext, chunks, zoneSize, ext, large, runs, z, a, zone.freechunk, y);
    }
  }

  // ---------------------------------------------------------------- the page usage table

  datatype Kind = FreePage | SmallPage | LargePage
  datatype Usage = Usage(kind: Kind, size: int)

  ghost predicate UsageOk(usage: map<int, Usage>, zones: map<int, Zone>, large: map<int, int>, pages: int) {
    && (forall z, p :: z in zones && z <= p < z + pages ==> p in usage && usage[p] == Usage(SmallPage, p - z))
    && (forall x :: x in large ==> x in usage && usage[x] == Usage(LargePage, large[x]))
  }

  /** Any page of a zone leads back to the zone. */
  lemma FindZone(usage: map<int, Usage>, zones: map<int, Zone>, large: map<int, int>, zoneSize: int, z: int, k: int)
    requires UsageOk(usage, zones, large, zoneSize / PAGE) && zoneSize % PAGE == 0 && z in zones
    requires Placed(z, zones[z], zoneSize) && 0 <= k < zones[z].nmax
    ensures var p := ChunkAt(zones[z].base, zones[z].chunk, k) / PAGE;
      p in usage && usage[p].kind == SmallPage && p - usage[p].size == z
  {
    InZone(z, zones[z], zoneSize, k);
    var a := ChunkAt(zones[z].base, zones[z].chunk, k);
    PageOf(a, z, zoneSize);
  }

  lemma PageOf(a: int, z: int, zoneSize: int)
    requires zoneSize % PAGE == 0 && z * PAGE <= a < z * PAGE + zoneSize
    ensures z <= a / PAGE < z + zoneSize / PAGE
  {
  }

  /** Entries of other extents are not touched by writing inside [x, x + n). */
  lemma UsageElsewhere(usage: map<int, Usage>, usage': map<int, Usage>, zones: map<int, Zone>, large: map<int, int>,
                       pages: int, ext: map<int, int>, runs: seq<Run>, x: int, n: int)
    requires UsageOk(usage, zones, large, pages) && Owned(ext, zones, large, pages) && Extents(ext, runs) && pages > 0
    requires forall y :: y in ext ==> y + ext[y] <= x || x + n <= y
    requires forall p :: p in usage && !(x <= p < x + n) ==> p in usage' && usage'[p] == usage[p]
    ensures UsageOk(usage', zones, large, pages)
  {
    forall z, p | z in zones && z <= p < z + pages ensures p in usage' && usage'[p] == Usage(SmallPage, p - z) {
      assert p in usage;
    }
    forall y | y in large ensures y in usage' && usage'[y] == Usage(LargePage, large[y]) {
      assert y in ext;
    }
  }

  // ---------------------------------------------------------------- blocks in use

  ghost predicate IsLive(chunks: map<int, Chunks>, z: int, k: int) {
    z in chunks && k in chunks[z].live
  }

  ghost predicate OwnsSmall(zones: map<int, Zone>, chunks: map<int, Chunks>, a: int, n: int) {
    exists z, k :: IsLive(chunks, z, k) && z in zones && a == ChunkAt(zones[z].base, zones[z].chunk, k) &&
        n == zones[z].chunk
  }

  ghost predicate OwnsLarge(large: map<int, int>, a: int, n: int) {
    a % PAGE == 0 && a / PAGE in large && n == large[a / PAGE] * PAGE
  }

  /** A block of n bytes at address a is in the caller's hands. */
  ghost predicate Owns(zones: map<int, Zone>, chunks: map<int, Chunks>, large: map<int, int>, a: int, n: int) {
    OwnsSmall(zones, chunks, a, n) || OwnsLarge(large, a, n)
  }

  /** The extent a block lies in. */
  ghost predicate Within(ext: map<int, int>, x: int, a: int, n: int) {
    x in ext && x * PAGE <= a && a + n <= (x + ext[x]) * PAGE
  }

  lemma SmallWithin(zones: map<int, Zone>, cnext: Links, chunks: map<int, Chunks>, zoneSize: int, ext: map<int, int>,
                    large: map<int, int>, z: int, k: int)
    requires AllZones(zones, cnext, chunks, zoneSize) && Owned(ext, zones, large, zoneSize / PAGE)
    requires zoneSize % PAGE == 0
    requires IsLive(chunks, z, k)
    ensures z in zones && zones[z].chunk > 0 && 0 <= k < zones[z].nmax && Placed(z, zones[z], zoneSize)
    ensures var a := ChunkAt(zones[z].base, zones[z].chunk, k);
      && Within(ext, z, a, zones[z].chunk)
      && a >= z * PAGE + HEADER
  {
    assert ZoneOk(z, zones[z], cnext, chunks[z], zoneSize);
    assert 0 <= k <= zones[z].uindex;
    InZone(z, zones[z], zoneSize, k);
  }

  /** Two blocks in different extents do not meet. */
  lemma ExtentsApart(ext: map<int, int>, runs: seq<Run>, x: int, a: int, n: int, y: int, b: int, m: int)
    requires Extents(ext, runs) && Within(ext, x, a, n) && Within(ext, y, b, m) && x != y
    ensures a + n <= b || b + m <= a
  {
    assert x < y ==> x + ext[x] <= y;
    assert y < x ==> y + ext[y] <= x;
  }

  /** No two blocks in use overlap, small or large. */
  lemma BlocksApart(zones: map<int, Zone>, cnext: Links, chunks: map<int, Chunks>, zoneSize: int, ext: map<int, int>,
                    large: map<int, int>, runs: seq<Run>, a: int, n: int, b: int, m: int)
    requires AllZones(zones, cnext, chunks, zoneSize) && Owned(ext, zones, large, zoneSize / PAGE)
    requires zoneSize % PAGE == 0
    requires Extents(ext, runs) && Owns(zones, chunks, large, a, n) && Owns(zones, chunks, large, b, m) && a != b
    ensures a + n <= b || b + m <= a
  {
    hide AllZones, Placed, Offset, Extents;
    if OwnsSmall(zones, chunks, a, n) && OwnsSmall(zones, chunks, b, m) {
      var z, k :| IsLive(chunks, z, k) && z in zones && a == ChunkAt(zones[z].base, zones[z].chunk, k) &&
          n == zones[z].chunk;
      var y, j :| IsLive(chunks, y, j) && y in zones && b == ChunkAt(zones[y].base, zones[y].chunk, j) &&
          m == zones[y].chunk;
      SmallWithin(zones, cnext, chunks, zoneSize, ext, large, z, k);
      SmallWithin(zones, cnext, chunks, zoneSize, ext, large, y, j);
      if z != y {
        ExtentsApart(ext, runs, z, a, n, y, b, m);
      } else if k < j {
        ChunksApart(zones[z].base, zones[z].chunk, k, j);
      } else if j < k {
        ChunksApart(zones[z].base, zones[z].chunk, j, k);
      }
    } else if OwnsSmall(zones, chunks, a, n) {
      SmallLargeApart(zones, cnext, chunks, zoneSize, ext, large, runs, a, n, b, m);
    } else if OwnsSmall(zones, chunks, b, m) {
      SmallLargeApart(zones, cnext, chunks, zoneSize, ext, large, runs, b, m, a, n);
    } else {
      ExtentsApart(ext, runs, a / PAGE, a, n, b / PAGE, b, m);
    }
  }

  lemma SmallLargeApart(zones: map<int, Zone>, cnext: Links, chunks: map<int, Chunks>, zoneSize: int,
                        ext: map<int, int>, large: map<int, int>, runs: seq<Run>, a: int, n: int, b: int, m: int)
    requires AllZones(zones, cnext, chunks, zoneSize) && Owned(ext, zones, large, zoneSize / PAGE)
    requires zoneSize % PAGE == 0
    requires Extents(ext, runs) && OwnsSmall(zones, chunks, a, n) && OwnsLarge(large, b, m)
    ensures a != b && (a + n <= b || b + m <= a)
  {
    var z, k :| IsLive(chunks, z, k) && z in zones && a == ChunkAt(zones[z].base, zones[z].chunk, k) &&
        n == zones[z].chunk;
    SmallWithin(zones, cnext, chunks, zoneSize, ext, large, z, k);
    assert ext[b / PAGE] == large[b / PAGE] > 0;
    ExtentsApart(ext, runs, z, a, n, b / PAGE, b, m);
  }
}
