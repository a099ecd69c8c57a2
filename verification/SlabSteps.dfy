/** The slab allocator's state as one value, and each of its steps as a change of that value. */
module SlabSteps {
  import opened ChainList
  import opened PageRuns
  import opened SlabSizes
  import opened Pages
  import opened SlabZones

  datatype View = View(ext: map<int, int>, runs: seq<Run>, zones: map<int, Zone>, next: Links, heads: seq<int>,
                       rows: Rows, cnext: Links, chunks: map<int, Chunks>, usage: map<int, Usage>, large: map<int, int>)

  predicate Shape(v: View) {
    |v.heads| == NZONES + 1 && |v.rows| == NZONES + 1
  }

  ghost predicate Ok(v: View, zoneSize: int) {
    && ZoneSizeOk(zoneSize) && Shape(v)
    && Extents(v.ext, v.runs)
    && Owned(v.ext, v.zones, v.large, zoneSize / PAGE)
    && AllZones(v.zones, v.cnext, v.chunks, zoneSize)
    && Homes(v.rows, v.zones)
    && RowsOk(v.next, v.heads, v.rows)
    && UsageOk(v.usage, v.zones, v.large, zoneSize / PAGE)
  }

  ghost predicate Holding(v: View, a: int, n: int) {
    Owns(v.zones, v.chunks, v.large, a, n)
  }

  /** The caller's blocks are the same, but for one more. */
  ghost predicate Gains(v: View, v': View, a: int, n: int) {
    && (forall m :: !Holding(v, a, m))
    && (forall b, m :: Holding(v', b, m) <==> Holding(v, b, m) || (b == a && m == n))
  }

  /** The caller's blocks are the same, but for the one at a. */
  ghost predicate Loses(v: View, v': View, a: int) {
    forall b, m :: Holding(v', b, m) <==> Holding(v, b, m) && b != a
  }

  ghost predicate SameBlocks(v: View, v': View) {
    forall b, m :: Holding(v', b, m) <==> Holding(v, b, m)
  }

  // ---------------------------------------------------------------- lists

  /** What changes in the lists when a zone's header changes: where it was, it leaves; where it now belongs, it goes
      first. */
  ghost predicate Lists(v: View) {
    Homes(v.rows, v.zones) && RowsOk(v.next, v.heads, v.rows)
  }

  lemma RowAt(v: View, zi: nat)
    requires Lists(v) && zi <= NZONES
    ensures v.heads[zi] == NULL <==> v.rows[zi] == []
    ensures v.rows[zi] != [] ==>
      && v.heads[zi] == v.rows[zi][0] && v.heads[zi] in v.zones && v.heads[zi] in v.next && v.heads[zi] != NULL
      && Home(v.zones[v.heads[zi]]) == zi && v.next[v.heads[zi]] == (if |v.rows[zi]| > 1 then v.rows[zi][1] else NULL)
  {
    assert IsList(v.next, v.heads[zi], v.rows[zi]);
    if v.rows[zi] != [] {
      Suffix(v.next, v.heads[zi], v.rows[zi], 0);
      var z := v.rows[zi][0];
      assert z in v.rows[zi];
    }
  }

  function Pushed(v: View, i: nat, z: int, zone': Zone): View
    requires Shape(v) && i <= NZONES
  {
    v.(zones := v.zones[z := zone'], next := v.next[z := v.heads[i]], heads := v.heads[i := z],
       rows := v.rows[i := [z] + v.rows[i]])
  }

  lemma PushRow(v: View, i: nat, z: int, zone': Zone)
    requires Lists(v) && z > 0 && i <= NZONES && Home(zone') == i && (z in v.zones ==> Home(v.zones[z]) == -1)
    ensures Lists(Pushed(v, i, z, zone'))
  {
    HomesJoin(v.rows, v.zones, z, zone');
    RowPush(v.next, v.heads, v.rows, i, z);
  }

  function Cut(v: View, i: nat, k: nat, zone': Zone): View
    requires i < |v.rows| && i < |v.heads| && k < |v.rows[i]| && v.rows[i][k] in v.next
  {
    var z := v.rows[i][k];
    v.(zones := v.zones[z := zone'], next := StoreLink(v.next, v.rows[i], k, v.next[z]),
       heads := v.heads[i := StoreHead(v.heads[i], k, v.next[z])], rows :=
           v.rows[i := v.rows[i][..k] + v.rows[i][k + 1..]])
  }

  lemma CutRow(v: View, i: nat, k: nat, zone': Zone)
    requires Lists(v) && i <= NZONES && k < |v.rows[i]| && Home(zone') == -1
    ensures v.rows[i][k] in v.next && Lists(Cut(v, i, k, zone'))
  {
    assert IsList(v.next, v.heads[i], v.rows[i]);
    RowDrop(v.next, v.heads, v.rows, v.zones, i, k);
    HomesLeave(v.rows, v.zones, i, k, zone');
  }

  function Popped(v: View, i: nat, zone': Zone): View
    requires i < |v.rows| && i < |v.heads| && v.rows[i] != [] && v.heads[i] in v.next
  {
    v.(zones := v.zones[v.heads[i] := zone'], heads := v.heads[i := v.next[v.heads[i]]],
       rows := v.rows[i := v.rows[i][1..]])
  }

  /** The first zone of a row leaves it. */
  lemma PopRow(v: View, i: nat, zone': Zone)
    requires Lists(v) && i <= NZONES && v.rows[i] != [] && Home(zone') == -1
    ensures v.heads[i] in v.next && Lists(Popped(v, i, zone'))
  {
    CutRow(v, i, 0, zone');
    RowAt(v, i);
    assert v.rows[i][..0] + v.rows[i][1..] == v.rows[i][1..];
  }

  lemma UnlistedLink(v: View, z: int, x: int)
    requires Lists(v) && (z in v.zones ==> Home(v.zones[z]) == -1)
    ensures Lists(v.(next := v.next[z := x]))
  {
    RowsFrame(v.next, v.heads, v.rows, z, x);
  }

  // ---------------------------------------------------------------- small steps

  /** Same base and chunk size: the addresses of the zone's chunks stay what they are. */
  predicate SameFrame(zone: Zone, zone': Zone) {
    zone.base == zone'.base && zone.chunk == zone'.chunk
  }

  lemma OneMoreLive(v: View, v': View, zoneSize: int, z: int, k: int)
    requires Ok(v, zoneSize) && Ok(v', zoneSize) && v'.large == v.large
    requires !IsLive(v.chunks, z, k) && IsLive(v'.chunks, z, k)
    requires forall y, j :: IsLive(v'.chunks, y, j) <==> IsLive(v.chunks, y, j) || (y == z && j == k)
    requires forall y :: y in v.zones && v.zones[y].active ==> y in v'.zones && SameFrame(v.zones[y], v'.zones[y])
    requires z in v'.zones
    ensures Gains(v, v', ChunkAt(v'.zones[z].base, v'.zones[z].chunk, k), v'.zones[z].chunk)
  {
    var a, n := ChunkAt(v'.zones[z].base, v'.zones[z].chunk, k), v'.zones[z].chunk;
    forall b, m ensures OwnsSmall(v'.zones, v'.chunks, b, m) <==>
        OwnsSmall(v.zones, v.chunks, b, m) || (b == a && m == n) {
      if OwnsSmall(v.zones, v.chunks, b, m) {
        var y, j :| IsLive(v.chunks, y, j) && y in v.zones && b == ChunkAt(v.zones[y].base, v.zones[y].chunk, j) &&
            m == v.zones[y].chunk;
        assert IsLive(v'.chunks, y, j);
      }
      if OwnsSmall(v'.zones, v'.chunks, b, m) {
        var y, j :| IsLive(v'.chunks, y, j) && y in v'.zones && b == ChunkAt(v'.zones[y].base, v'.zones[y].chunk, j) &&
            m == v'.zones[y].chunk;
        if !(y == z && j == k) { assert IsLive(v.chunks, y, j); }
      }
    }
    forall m ensures !Holding(v, a, m) { NotHeldBefore(v, v', zoneSize, z, k, m); }
  }

  lemma NotHeldBefore(v: View, v': View, zoneSize: int, z: int, k: int, m: int)
    requires Ok(v, zoneSize) && Ok(v', zoneSize) && v'.large == v.large
    requires !IsLive(v.chunks, z, k) && IsLive(v'.chunks, z, k)
    requires forall y, j :: IsLive(v.chunks, y, j) ==> IsLive(v'.chunks, y, j)
    requires forall y :: y in v.zones && v.zones[y].active ==> y in v'.zones && SameFrame(v.zones[y], v'.zones[y])
    requires z in v'.zones
    ensures !Holding(v, ChunkAt(v'.zones[z].base, v'.zones[z].chunk, k), m)
  {
    hide ZoneOk, Homes, RowsOk, UsageOk, Extents;
    var a := ChunkAt(v'.zones[z].base, v'.zones[z].chunk, k);
    if OwnsSmall(v.zones, v.chunks, a, m) {
      var y, j :| IsLive(v.chunks, y, j) && y in v.zones && a == ChunkAt(v.zones[y].base, v.zones[y].chunk, j) &&
          m == v.zones[y].chunk;
      OneAddress(v', zoneSize, z, k, y, j);
    } else if OwnsLarge(v.large, a, m) {
      SmallLargeApart(v'.zones, v'.cnext, v'.chunks, zoneSize, v'.ext, v'.large, v'.runs, a, v'.zones[z].chunk, a, m);
    }
  }

  /** Different live chunks have different addresses. */
  lemma OneAddress(v: View, zoneSize: int, z: int, k: int, y: int, j: int)
    requires Ok(v, zoneSize) && IsLive(v.chunks, z, k) && IsLive(v.chunks, y, j) && z in v.zones && y in v.zones
    requires ChunkAt(v.zones[z].base, v.zones[z].chunk, k) == ChunkAt(v.zones[y].base, v.zones[y].chunk, j)
    ensures z == y && k == j
  {
    hide AllZones, Homes, RowsOk, UsageOk, Extents, Placed;
    SmallWithin(v.zones, v.cnext, v.chunks, zoneSize, v.ext, v.large, z, k);
    SmallWithin(v.zones, v.cnext, v.chunks, zoneSize, v.ext, v.large, y, j);
    var a := ChunkAt(v.zones[z].base, v.zones[z].chunk, k);
    if z != y {
      ExtentsApart(v.ext, v.runs, z, a, v.zones[z].chunk, y, a, v.zones[y].chunk);
    } else {
      SameChunk(v.zones[z], k, j);
    }
  }

  lemma OneLessLive(v: View, v': View, zoneSize: int, z: int, k: int)
    requires Ok(v, zoneSize) && v'.large == v.large && IsLive(v.chunks, z, k) && z in v.zones
    requires forall y, j :: IsLive(v'.chunks, y, j) <==> IsLive(v.chunks, y, j) && !(y == z && j == k)
    requires forall y, j :: IsLive(v'.chunks, y, j) ==>
        y in v.zones && y in v'.zones && SameFrame(v.zones[y], v'.zones[y])
    ensures Loses(v, v', ChunkAt(v.zones[z].base, v.zones[z].chunk, k))
  {
    var a := ChunkAt(v.zones[z].base, v.zones[z].chunk, k);
    forall b, m ensures OwnsSmall(v'.zones, v'.chunks, b, m) <==> OwnsSmall(v.zones, v.chunks, b, m) && b != a {
      if OwnsSmall(v.zones, v.chunks, b, m) && b != a {
        var y, j :| IsLive(v.chunks, y, j) && y in v.zones && b == ChunkAt(v.zones[y].base, v.zones[y].chunk, j) &&
            m == v.zones[y].chunk;
        assert IsLive(v'.chunks, y, j);
      }
      if OwnsSmall(v'.zones, v'.chunks, b, m) {
        var y, j :| IsLive(v'.chunks, y, j) && y in v'.zones && b == ChunkAt(v'.zones[y].base, v'.zones[y].chunk, j) &&
            m == v'.zones[y].chunk;
        assert IsLive(v.chunks, y, j);
        if b == a { OneAddress(v, zoneSize, z, k, y, j); }
      }
    }
    forall b, m | OwnsLarge(v.large, b, m) ensures b != a {
      assert OwnsSmall(v.zones, v.chunks, a, v.zones[z].chunk);
      SmallLargeApart(v.zones, v.cnext, v.chunks, zoneSize, v.ext, v.large, v.runs, a, v.zones[z].chunk, b, m);
    }
  }

  lemma SameKeys(v: View, zones': map<int, Zone>, pages: int)
    requires Owned(v.ext, v.zones, v.large, pages) && UsageOk(v.usage, v.zones, v.large, pages)
    requires zones'.Keys == v.zones.Keys
    ensures Owned(v.ext, zones', v.large, pages) && UsageOk(v.usage, zones', v.large, pages)
  {
    assert forall z :: z in zones' ==> z in zones'.Keys && z in v.zones.Keys && z in v.zones;
  }

  // ---------------------------------------------------------------- malloc

  /** The zone's header and chunks after a chunk was taken; a zone that has no more leaves its list. */
  ghost function AfterTake(v: View, zi: nat, zone': Zone, c': Chunks): View
    requires Shape(v) && zi < NZONES && v.heads[zi] in v.next && v.rows[zi] != []
  {
    var z := v.heads[zi];
    if zone'.nfree > 0 then v.(zones := v.zones[z := zone'], chunks := v.chunks[z := c'])
    else Popped(v, zi, zone').(next := v.next[z := NULL], chunks := v.chunks[z := c'])
  }

  lemma StepTake(v: View, zoneSize: int, zi: nat, z: int, zone': Zone, c': Chunks, k: int)
    requires Ok(v, zoneSize) && zi < NZONES && v.rows[zi] != [] && z == v.heads[zi] && z in v.zones && z in v.chunks
    requires ZoneOk(z, zone', v.cnext, c', zoneSize) && zone'.active && zone'.zi == v.zones[z].zi
    requires SameFrame(v.zones[z], zone')
    requires zone'.nfree == v.zones[z].nfree - 1 && k !in v.chunks[z].live && c'.live == v.chunks[z].live + {k}
    ensures z in v.next && Ok(AfterTake(v, zi, zone', c'), zoneSize)
    ensures Gains(v, AfterTake(v, zi, zone', c'), ChunkAt(zone'.base, zone'.chunk, k), zone'.chunk)
  {
    hide RowsOk, Homes, UsageOk, Owned, Extents, ZoneOk;
    RowAt(v, zi);
    var v' := AfterTake(v, zi, zone', c');
    ZonesUpdate(v.zones, v.cnext, v.chunks, zoneSize, z, zone', c');
    assert v.zones[z := zone'].Keys == v.zones.Keys;
    SameKeys(v, v.zones[z := zone'], zoneSize / PAGE);
    assert Lists(v') by {
      if zone'.nfree > 0 {
        HomesStay(v.rows, v.zones, z, zone');
      } else {
        PopRow(v, zi, zone');
        UnlistedLink(Popped(v, zi, zone'), z, NULL);
      }
    }
    OneMoreLive(v, v', zoneSize, z, k);
  }

  /** A retired zone serves a class again. */
  ghost function AfterReuse(v: View, zi: nat, zoneSize: int): View
    requires Shape(v) && zi < NZONES && v.heads[SPARE] in v.next && v.rows[SPARE] != []
  {
    var z := v.heads[SPARE];
    var zone' := FreshZone(z, zi, zoneSize);
    Pushed(Popped(v, SPARE, zone'), zi, z, zone').(chunks := v.chunks[z := Chunks([], {0})])
  }

  lemma StepReuse(v: View, zoneSize: int, zi: nat, z: int)
    requires Ok(v, zoneSize) && zi < NZONES && ClassSize(zi) <= Limit(zoneSize) && v.rows[SPARE] != []
    requires z == v.heads[SPARE]
    ensures z in v.next && Ok(AfterReuse(v, zi, zoneSize), zoneSize)
    ensures var zone' := FreshZone(z, zi, zoneSize);
      Gains(v, AfterReuse(v, zi, zoneSize), ChunkAt(zone'.base, zone'.chunk, 0), ClassSize(zi))
  {
    hide RowsOk, Homes, UsageOk, Owned, Extents, ZoneOk, FreshZone;
    RowAt(v, SPARE);
    InExtent(v, zoneSize, z);
    Retired(v, zoneSize, z);
    var zone' := FreshZone(z, zi, zoneSize);
    var v' := AfterReuse(v, zi, zoneSize);
    assert v'.zones == v.zones[z := zone'];
    Fresh(z, zi, v.cnext, zoneSize);
    FreshFields(z, zi, zoneSize);
    ZonesUpdate(v.zones, v.cnext, v.chunks, zoneSize, z, zone', Chunks([], {0}));
    assert v.zones[z := zone'].Keys == v.zones.Keys;
    SameKeys(v, v.zones[z := zone'], zoneSize / PAGE);
    assert Lists(v') by {
      var gone := zone'.(nfree := 0);
      PopRow(v, SPARE, gone);
      PushRow(Popped(v, SPARE, gone), zi, z, zone');
      assert v.zones[z := gone][z := zone'] == v.zones[z := zone'];
    }
    OneMoreLive(v, v', zoneSize, z, 0);
  }

  lemma Retired(v: View, zoneSize: int, z: int)
    requires Ok(v, zoneSize) && z in v.zones && Home(v.zones[z]) == SPARE
    ensures !v.zones[z].active && z !in v.chunks
  {
  }

  lemma FreshFields(z: int, zi: nat, zoneSize: int)
    requires zi < NZONES
    ensures var zone := FreshZone(z, zi, zoneSize); zone.active && zone.zi == zi && zone.chunk == ClassSize(zi)
  {
  }

  lemma InExtent(v: View, zoneSize: int, z: int)
    requires Ok(v, zoneSize) && z in v.zones
    ensures z in v.ext && v.ext[z] == zoneSize / PAGE > 0 && z > 0 && z !in v.large
  {
  }

  /** A zone fresh from the page allocator. */
  ghost function AfterGrow(v: View, zi: nat, zoneSize: int, z: int, runs': seq<Run>, usage': map<int, Usage>): View
    requires Shape(v) && zi < NZONES
  {
    Pushed(v, zi, z, FreshZone(z, zi, zoneSize))
      .(chunks := v.chunks[z := Chunks([], {0})], ext := v.ext[z := zoneSize / PAGE], runs := runs', usage := usage')
  }

  /** The usage table after the pages [x, x + n) were filled in by f. */
  ghost predicate Marked(usage: map<int, Usage>, usage': map<int, Usage>, x: int, n: int) {
    && (forall p :: p in usage && !(x <= p < x + n) ==> p in usage' && usage'[p] == usage[p])
  }

  ghost predicate ZoneMarked(usage: map<int, Usage>, z: int, n: int) {
    forall p :: z <= p < z + n ==> p in usage && usage[p] == Usage(SmallPage, p - z)
  }

  lemma StepGrow(v: View, zoneSize: int, zi: nat, z: int, runs': seq<Run>, usage': map<int, Usage>)
    requires Ok(v, zoneSize) && zi < NZONES && ClassSize(zi) <= Limit(zoneSize) && z > 0
    requires AllFree(v.runs, z, zoneSize / PAGE) && Removes(v.runs, runs', z, zoneSize / PAGE)
    requires Marked(v.usage, usage', z, zoneSize / PAGE)
    requires ZoneMarked(usage', z, zoneSize / PAGE)
    ensures Ok(AfterGrow(v, zi, zoneSize, z, runs', usage'), zoneSize)
    ensures var zone' := FreshZone(z, zi, zoneSize);
      Gains(v, AfterGrow(v, zi, zoneSize, z, runs', usage'), ChunkAt(zone'.base, zone'.chunk, 0), ClassSize(zi))
  {
    hide RowsOk, Homes, ZoneOk, FreshZone, AllFree, Removes, Extents;
    var pages := zoneSize / PAGE;
    var zone' := FreshZone(z, zi, zoneSize);
    var v' := AfterGrow(v, zi, zoneSize, z, runs', usage');
    ExtentAdd(v.ext, v.runs, runs', z, pages);
    NewIsApart(v.ext, v.runs, runs', z, pages);
    assert UsageOk(usage', v.zones, v.large, pages) by {
      UsageElsewhere(v.usage, usage', v.zones, v.large, pages, v.ext, v.runs, z, pages);
    }
    assert z !in v.zones && z !in v.large && z !in v.chunks;
    Fresh(z, zi, v.cnext, zoneSize);
    FreshFields(z, zi, zoneSize);
    ZonesUpdate(v.zones, v.cnext, v.chunks, zoneSize, z, zone', Chunks([], {0}));
    PushRow(v, zi, z, zone');
    OneMoreLive(v, v', zoneSize, z, 0);
  }

  lemma NewIsApart(ext: map<int, int>, runs: seq<Run>, runs': seq<Run>, x: int, n: int)
    requires x !in ext && Extents(ext[x := n], runs')
    ensures forall y :: y in ext ==> y + ext[y] <= x || x + n <= y
  {
    forall y | y in ext ensures y + ext[y] <= x || x + n <= y {
      var e := ext[x := n];
      assert y in e && x in e && e[y] == ext[y];
    }
  }

  ghost function AfterLargeTake(v: View, x: int, n: int, runs': seq<Run>): View {
    v.(ext := v.ext[x := n], runs := runs', usage := v.usage[x := Usage(LargePage, n)], large := v.large[x := n])
  }

  /** A large block is a page range of its own. */
  lemma StepLargeTake(v: View, zoneSize: int, x: int, n: int, runs': seq<Run>)
    requires Ok(v, zoneSize) && x > 0 && n > 0 && AllFree(v.runs, x, n) && Removes(v.runs, runs', x, n)
    ensures Ok(AfterLargeTake(v, x, n, runs'), zoneSize)
    ensures Gains(v, AfterLargeTake(v, x, n, runs'), x * PAGE, n * PAGE)
  {
    hide RowsOk, Homes, AllZones, AllFree, Removes, Extents;
    var v' := AfterLargeTake(v, x, n, runs');
    ExtentAdd(v.ext, v.runs, runs', x, n);
    NewIsApart(v.ext, v.runs, runs', x, n);
    assert x !in v.zones && x !in v.large;
    assert UsageOk(v'.usage, v.zones, v.large, zoneSize / PAGE) by {
      UsageElsewhere(v.usage, v'.usage, v.zones, v.large, zoneSize / PAGE, v.ext, v.runs, x, n);
    }
    LargeGain(v, v', zoneSize, x, n);
  }

  lemma LargeGain(v: View, v': View, zoneSize: int, x: int, n: int)
    requires Ok(v, zoneSize) && Ok(v', zoneSize) && v'.zones == v.zones && v'.chunks == v.chunks && x !in v.large
    requires v'.large == v.large[x := n]
    ensures Gains(v, v', x * PAGE, n * PAGE)
  {
    var a := x * PAGE;
    assert a / PAGE == x && a % PAGE == 0;
    forall m ensures !Holding(v, a, m) {
      if OwnsSmall(v.zones, v.chunks, a, m) {
        SmallLargeApart(v'.zones, v'.cnext, v'.chunks, zoneSize, v'.ext, v'.large, v'.runs, a, m, a, n * PAGE);
      }
    }
    forall b, m ensures OwnsLarge(v'.large, b, m) <==> OwnsLarge(v.large, b, m) || (b == a && m == n * PAGE) {
    }
  }

  ghost function AfterLargeGive(v: View, x: int, runs': seq<Run>): View {
    v.(ext := v.ext - {x}, runs := runs', usage := v.usage[x := Usage(LargePage, 0)], large := v.large - {x})
  }

  lemma StepLargeGive(v: View, zoneSize: int, x: int, runs': seq<Run>)
    requires Ok(v, zoneSize) && x in v.large && Adds(v.runs, runs', x, v.large[x])
    ensures Ok(AfterLargeGive(v, x, runs'), zoneSize)
    ensures Loses(v, AfterLargeGive(v, x, runs'), x * PAGE)
  {
    hide RowsOk, Homes, AllZones, Adds;
    var v' := AfterLargeGive(v, x, runs');
    var n, ext' := v.ext[x], v.ext - {x};
    ExtentDrop(v.ext, v.runs, runs', x);
    OthersApart(v.ext, v.runs, x);
    assert Owned(ext', v.zones, v'.large, zoneSize / PAGE);
    assert UsageOk(v.usage, v.zones, v'.large, zoneSize / PAGE);
    assert UsageOk(v'.usage, v.zones, v'.large, zoneSize / PAGE) by {
      UsageElsewhere(v.usage, v'.usage, v.zones, v'.large, zoneSize / PAGE, ext', runs', x, n);
    }
    LargeLoss(v, v', zoneSize, x);
  }

  lemma OthersApart(ext: map<int, int>, runs: seq<Run>, x: int)
    requires Extents(ext, runs) && x in ext
    ensures forall y :: y in ext - {x} ==> y + ext[y] <= x || x + ext[x] <= y
  {
  }

  lemma LargeLoss(v: View, v': View, zoneSize: int, x: int)
    requires Ok(v, zoneSize) && v'.zones == v.zones && v'.chunks == v.chunks && x in v.large
    requires v'.large == v.large - {x}
    ensures Loses(v, v', x * PAGE)
  {
    var a := x * PAGE;
    assert a / PAGE == x && a % PAGE == 0;
    forall b, m | OwnsSmall(v.zones, v.chunks, b, m) ensures b != a {
      SmallLargeApart(v.zones, v.cnext, v.chunks, zoneSize, v.ext, v.large, v.runs, b, m, a, v.large[x] * PAGE);
    }
    forall b, m ensures OwnsLarge(v'.large, b, m) <==> OwnsLarge(v.large, b, m) && b != a {
    }
  }

  // ---------------------------------------------------------------- free

  ghost function AfterPut(v: View, z: int, k: int): View
    requires Shape(v) && z in v.zones && z in v.chunks && 0 <= v.zones[z].zi < NZONES
  {
    var zone, c := v.zones[z], v.chunks[z];
    var a := ChunkAt(zone.base, zone.chunk, k);
    var zone' := zone.(nfree := zone.nfree + 1, freechunk := a);
    (if zone.nfree == 0 then Pushed(v, zone.zi, z, zone') else v.(zones := v.zones[z := zone']))
      .(cnext := v.cnext[a := zone.freechunk], chunks := v.chunks[z := Chunks([k] + c.free, c.live - {k})])
  }

  /** A chunk back on its zone's free list; a zone that had none free is listed again. */
  lemma StepPut(v: View, zoneSize: int, z: int, k: int)
    requires Ok(v, zoneSize) && IsLive(v.chunks, z, k) && z in v.zones
    ensures 0 <= v.zones[z].zi < NZONES && Ok(AfterPut(v, z, k), zoneSize)
    ensures Loses(v, AfterPut(v, z, k), ChunkAt(v.zones[z].base, v.zones[z].chunk, k))
  {
    hide RowsOk, Homes, UsageOk, Owned, Extents, ZoneOk;
    ActiveZone(v, zoneSize, z);
    InExtent(v, zoneSize, z);
    var zone := v.zones[z];
    var v' := AfterPut(v, z, k);
    var zone' := v'.zones[z];
    ZonesPut(v.zones, v.cnext, v.chunks, zoneSize, v.ext, v.large, v.runs, z, k);
    assert v'.zones == v.zones[z := zone'] && v'.zones.Keys == v.zones.Keys;
    SameKeys(v, v'.zones, zoneSize / PAGE);
    assert Lists(v') by {
      if zone.nfree == 0 { PushRow(v, zone.zi, z, zone'); } else { HomesStay(v.rows, v.zones, z, zone'); }
    }
    OneLessLive(v, v', zoneSize, z, k);
  }

  lemma ActiveZone(v: View, zoneSize: int, z: int)
    requires Ok(v, zoneSize) && z in v.chunks
    ensures z in v.zones && v.zones[z].active && 0 <= v.zones[z].zi < NZONES && 0 <= v.zones[z].nfree <= v.zones[z].nmax
    ensures Placed(z, v.zones[z], zoneSize) && ChunksOk(v.zones[z], v.chunks[z])
    ensures ZoneOk(z, v.zones[z], v.cnext, v.chunks[z], zoneSize)
  {
    assert ZoneOk(z, v.zones[z], v.cnext, v.chunks[z], zoneSize);
  }

  /** A wholly free zone moves from its class to the front of the spare list. */
  ghost function AfterRetire(v: View, i: nat, k: nat): View
    requires Shape(v) && i < NZONES && k < |v.rows[i]| && v.rows[i][k] in v.next && v.rows[i][k] in v.zones
  {
    var z := v.rows[i][k];
    var zone' := v.zones[z].(active := false);
    Pushed(Cut(v, i, k, zone'), SPARE, z, zone').(chunks := v.chunks - {z})
  }

  lemma StepRetire(v: View, zoneSize: int, i: nat, k: nat)
    requires Ok(v, zoneSize) && i < NZONES && k < |v.rows[i]|
    requires var z := v.rows[i][k]; z in v.chunks && z in v.zones && v.zones[z].nfree == v.zones[z].nmax
    ensures var z := v.rows[i][k];
      && z in v.next && Ok(AfterRetire(v, i, k), zoneSize) && SameBlocks(v, AfterRetire(v, i, k))
  {
    hide RowsOk, Homes, UsageOk, Owned, Extents, ZoneOk;
    var z := v.rows[i][k];
    ActiveZone(v, zoneSize, z);
    InExtent(v, zoneSize, z);
    AllFreeIffNoneLive(v.zones[z], v.chunks[z]);
    var zone' := v.zones[z].(active := false);
    var gone := zone'.(active := true, nfree := 0);
    CutRow(v, i, k, gone);
    PushRow(Cut(v, i, k, gone), SPARE, z, zone');
    var v' := AfterRetire(v, i, k);
    assert v'.zones == v.zones[z := zone'] == v.zones[z := gone][z := zone'] && v'.zones.Keys == v.zones.Keys;
    ZonesRetire(v.zones, v.cnext, v.chunks, zoneSize, z, zone');
    SameKeys(v, v'.zones, zoneSize / PAGE);
    SameLive(v, v');
  }

  lemma SameLive(v: View, v': View)
    requires forall y, j :: IsLive(v'.chunks, y, j) <==> IsLive(v.chunks, y, j)
    requires forall y, j :: IsLive(v.chunks, y, j) ==>
        (y in v.zones <==> y in v'.zones) && (y in v.zones ==> v.zones[y] == v'.zones[y])
    requires v'.large == v.large
    ensures SameBlocks(v, v')
  {
    forall b, m ensures OwnsSmall(v'.zones, v'.chunks, b, m) <==> OwnsSmall(v.zones, v.chunks, b, m) {
      if OwnsSmall(v.zones, v.chunks, b, m) {
        var y, j :| IsLive(v.chunks, y, j) && y in v.zones && b == ChunkAt(v.zones[y].base, v.zones[y].chunk, j) &&
            m == v.zones[y].chunk;
        assert IsLive(v'.chunks, y, j);
      }
      if OwnsSmall(v'.zones, v'.chunks, b, m) {
        var y, j :| IsLive(v'.chunks, y, j) && y in v'.zones && b == ChunkAt(v'.zones[y].base, v'.zones[y].chunk, j) &&
            m == v'.zones[y].chunk;
        assert IsLive(v.chunks, y, j);
      }
    }
  }

  /** The pages of the first spare zone go back to the page allocator. */
  ghost function AfterRelease(v: View, runs': seq<Run>, usage': map<int, Usage>): View
    requires Shape(v) && v.heads[SPARE] in v.next && v.rows[SPARE] != []
  {
    var z := v.heads[SPARE];
    v.(zones := v.zones - {z}, heads := v.heads[SPARE := v.next[z]], rows := v.rows[SPARE := v.rows[SPARE][1..]],
       ext := v.ext - {z}, runs := runs', usage := usage')
  }

  lemma StepRelease(v: View, zoneSize: int, z: int, runs': seq<Run>, usage': map<int, Usage>)
    requires Ok(v, zoneSize) && v.rows[SPARE] != [] && z == v.heads[SPARE]
    requires Adds(v.runs, runs', z, zoneSize / PAGE) && Marked(v.usage, usage', z, zoneSize / PAGE)
    ensures z in v.next && Ok(AfterRelease(v, runs', usage'), zoneSize)
    ensures SameBlocks(v, AfterRelease(v, runs', usage'))
  {
    hide RowsOk, Homes, ZoneOk, Adds, Extents;
    RowAt(v, SPARE);
    InExtent(v, zoneSize, z);
    Retired(v, zoneSize, z);
    var v' := AfterRelease(v, runs', usage');
    var gone := v.zones[z].(active := true, nfree := 0);
    PopRow(v, SPARE, gone);
    HomesForget(Popped(v, SPARE, gone).rows, v.zones[z := gone], z);
    assert v.zones[z := gone] - {z} == v.zones - {z};
    ExtentDrop(v.ext, v.runs, runs', z);
    OthersApart(v.ext, v.runs, z);
    ZonesForget(v.zones, v.cnext, v.chunks, zoneSize, z);
    var pages := zoneSize / PAGE;
    assert Owned(v'.ext, v'.zones, v.large, pages) && UsageOk(v.usage, v'.zones, v.large, pages);
    assert UsageOk(usage', v'.zones, v.large, pages) by {
      UsageElsewhere(v.usage, usage', v'.zones, v.large, pages, v'.ext, runs', z, pages);
    }
    SameLive(v, v');
  }
}
