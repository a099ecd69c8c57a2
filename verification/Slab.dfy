/** The slab allocator: zones of equal chunks on top of the page allocator. */
module Slab {
  import opened ChainList
  import opened PageRuns
  import opened SlabSizes
  import opened Pages
  import opened SlabZones
  import opened SlabSteps

  const RELEASE_THRESH: int := 2

  /** The smallest class that holds n bytes. */
  predicate BestClass(zi: int, n: int) {
    0 <= zi < NZONES && n <= ClassSize(zi) && (zi > 0 ==> ClassSize(zi - 1) < n)
  }

  lemma BestClassUnique(i: nat, j: nat, n: int)
    requires BestClass(i, n) && BestClass(j, n)
    ensures i == j
  {
    if i < j { Upward(i, j - 1); }
    if j < i { Upward(j, i - 1); }
  }

  lemma Upward(i: nat, j: nat)
    requires i <= j < NZONES
    ensures ClassSize(i) <= ClassSize(j)
  {
    if i < j { ClassesGrow(i, j); }
  }

  lemma ClassWithin(zi: nat, n: int, zoneSize: int)
    requires ZoneSizeOk(zoneSize) && BestClass(zi, n) && n < Limit(zoneSize)
    ensures ClassSize(zi) <= Limit(zoneSize)
  {
    if zi > 63 { Upward(63, zi - 1); }
    if zi <= 63 { Upward(zi, 63); }
    Upward(zi, 71);
  }

  /** The chunk a zone hands out next: one never used before, then the one freed last. */
  function NextChunk(zone: Zone): int {
    if zone.uindex + 1 != zone.nmax then ChunkAt(zone.base, zone.chunk, zone.uindex + 1) else zone.freechunk
  }

  function PagesFor(size: int): (n: int)
    ensures (n - 1) * PAGE < size <= n * PAGE
  {
    RoundUp(size, PAGE) / PAGE
  }

  /** Why a request was refused: nothing of the class is left, no zone is spare, and the pages are not there. */
  ghost predicate Exhausted(v: View, size: int, zoneSize: int)
    requires Shape(v)
  {
    if size >= Limit(zoneSize) then forall x :: !AllFree(v.runs, x, PagesFor(size))
    else
      && (forall zi :: BestClass(zi, size) ==> v.rows[zi] == [])
      && v.rows[SPARE] == [] && forall x :: !AllFree(v.runs, x, zoneSize / PAGE)
  }

  class SlabHeap {
    var zoneSize: int
    var zoneArray: seq<int>
    var zoneFree: int
    var zoneFreeCnt: int
    var next: Links
    var zones: map<int, Zone>
    var cnext: Links
    var usage: map<int, Usage>
    const pages: PageAllocator
    ghost var ext: map<int, int>
    ghost var rows: Rows
    ghost var chunks: map<int, Chunks>
    ghost var large: map<int, int>

    ghost function V(): View
      reads this, pages
    {
      View(ext, pages.runs, zones, next, zoneArray + [zoneFree], rows, cnext, chunks, usage, large)
    }

    ghost predicate Valid()
      reads this, pages
    {
      Settled(RELEASE_THRESH)
    }

    /** At most `spares` zones are kept in reserve. */
    ghost predicate Settled(spares: int)
      reads this, pages
    {
      && ZoneSizeOk(zoneSize) && |zoneArray| == NZONES && |rows| == NZONES + 1 && Ok(V(), zoneSize) && pages.Valid()
      && zoneFreeCnt == |rows[SPARE]| <= spares
    }

    /** rt_system_heap_init on npages pages from page heapStart on. */
    constructor (heapStart: int, npages: int)
      requires heapStart > 0 && npages > 0
      ensures Valid() && fresh(pages) && forall a, n :: !Holding(V(), a, n)
      ensures zoneSize > 0x8000 ==> zoneSize < npages * PAGE / 1024
      ensures zoneSize < 0x20000 ==> npages * PAGE / 1024 <= 2 * zoneSize
    {
      hide Ok, Holding, Extents, AllFree, Removes, Covers, OutsideKept, PagesFor;
      var size := ZoneSizeFor(npages * PAGE);
      zoneSize := size;
      zoneArray := seq(NZONES, i => NULL);
      zoneFree := NULL;
      zoneFreeCnt := 0;
      next, zones, cnext, usage := map[], map[], map[], map[];
      pages := new PageAllocator(heapStart, npages);
      rows := seq(NZONES + 1, i => []);
      chunks := map[];
      large := map[];
      ext := map[];
      new;
      ghost var runs := pages.runs;
      var table := PagesFor(npages * 4);
      TableFits(npages);
      RunIsFree(runs, 0, table);
      var t := pages.Alloc(table);
      NoExtents(runs);
      ExtentAdd(map[], runs, pages.runs, t, table);
      ext := map[t := table];
      Blank(V(), zoneSize);
    }

    /** A block of at least `size` bytes that overlaps nothing in use, or null when the request is zero or memory is
        out. */
    method Malloc(size: nat) returns (r: int, ghost cap: int)
      requires Valid()
      modifies this, pages
      ensures Valid() && zoneSize == old(zoneSize)
      ensures r != NULL ==> size <= cap && Gains(old(V()), V(), r, cap)
      ensures r == NULL ==> V() == old(V())
      ensures r == NULL <==> size == 0 || Exhausted(old(V()), size, zoneSize)
    {
      hide Ok, Gains, AllFree, BestClass, ClassSize;
      cap := 0;
      if size == 0 { return NULL, 0; }
      if size >= Limit(zoneSize) {
        r, cap := MallocLarge(size);
        return;
      }
      var zi, chunk := ZoneIndex(size);
      assert BestClass(zi, size) by { Best(zi, size); }
      cap := chunk;
      if zoneArray[zi] != NULL {
        FirstOfClass(V(), zoneSize, zi);
        r := TakeChunk(zi);
      } else {
        ClassWithin(zi, size, zoneSize);
        NoneOfClass(V(), zoneSize, zi, size);
        r := NewZone(zi);
      }
    }

    method MallocLarge(size: nat) returns (r: int, ghost cap: int)
      requires Valid() && size >= Limit(zoneSize)
      modifies this, pages
      ensures Valid() && zoneSize == old(zoneSize)
      ensures r != NULL ==> size <= cap && Gains(old(V()), V(), r, cap)
      ensures r == NULL ==> V() == old(V())
      ensures r == NULL <==> forall x :: !AllFree(old(pages.runs), x, PagesFor(size))
    {
      hide Ok, Gains, AllFree, Removes, OutsideKept;
      var n := RoundUp(size, PAGE) / PAGE;
      assert n > 0 && n * PAGE >= size && n == PagesFor(size) by { LargeFits(size, zoneSize); }
      cap := n * PAGE;
      ghost var v := V();
      var chunk := pages.Alloc(n);
      if chunk == NULL { return NULL, cap; }
      StepLargeTake(v, zoneSize, chunk, n, pages.runs);
      usage := usage[chunk := Usage(LargePage, n)];
      ext := ext[chunk := n];
      large := large[chunk := n];
      assert V() == AfterLargeTake(v, chunk, n, pages.runs);
      r := chunk * PAGE;
    }

    /** One of the free chunks of the first zone of the class. */
    method TakeChunk(zi: nat) returns (r: int)
      requires Valid() && zi < NZONES && zoneArray[zi] != NULL
      modifies this
      ensures Valid() && zoneSize == old(zoneSize) && r != NULL && Gains(old(V()), V(), r, ClassSize(zi))
      ensures old(zoneArray)[zi] in old(zones) && r == NextChunk(old(zones)[old(zoneArray)[zi]])
    {
      hide Ok, Gains, ClassSize, ZoneOk, Canonical, Linked, FreeAddrs;
      ghost var v := V();
      var z := zoneArray[zi];
      FirstOfClass(v, zoneSize, zi);
      ghost var c := chunks[z];
      var zone := zones[z];
      zone := zone.(nfree := zone.nfree - 1);
      ghost var c', k;
      var chunk;
      zone, chunk, c', k := PickChunk(zone, z, c);
      StepTake(v, zoneSize, zi, z, zone, c', k);
      WriteBack(zi, z, zone, c');
      assert V().heads == AfterTake(v, zi, zone, c').heads;
      assert V() == AfterTake(v, zi, zone, c');
      r := chunk;
    }

    /** The zone's header is stored; a zone without free chunks leaves its list. */
    method WriteBack(zi: nat, z: int, zone: Zone, ghost c: Chunks)
      requires zi < NZONES == |zoneArray| && |rows| == NZONES + 1 && z in next && rows[zi] != []
      modifies `zones, `next, `zoneArray, `rows, `chunks
      ensures zones == old(zones)[z := zone] && chunks == old(chunks)[z := c]
      ensures zoneArray == if zone.nfree == 0 then old(zoneArray)[zi := old(next)[z]] else old(zoneArray)
      ensures next == if zone.nfree == 0 then old(next)[z := NULL] else old(next)
      ensures rows == if zone.nfree == 0 then old(rows)[zi := old(rows)[zi][1..]] else old(rows)
    {
      if zone.nfree == 0 {
        zoneArray := zoneArray[zi := next[z]];
        next := next[z := NULL];
        rows := rows[zi := rows[zi][1..]];
      }
      zones := zones[z := zone];
      chunks := chunks[z := c];
    }

    /** nfree is already counted down; the never-used part goes first, then the chunk freed last. */
    method PickChunk(zone: Zone, ghost z: int, ghost c: Chunks)
        returns (zone': Zone, chunk: int, ghost c': Chunks, ghost k: int)
      requires ZoneOk(z, zone.(nfree := zone.nfree + 1), cnext, c, zoneSize) && zone.nfree >= 0 && zone.active
      ensures ZoneOk(z, zone', cnext, c', zoneSize) && zone'.nfree == zone.nfree && zone'.active && zone'.zi == zone.zi
      ensures SameFrame(zone, zone') && k !in c.live && c'.live == c.live + {k}
      ensures chunk == ChunkAt(zone.base, zone.chunk, k) && chunk > 0 && chunk == NextChunk(zone)
    {
      ghost var was := zone.(nfree := zone.nfree + 1);
      if zone.uindex + 1 != zone.nmax {
        TakeNew(z, was, cnext, c, zoneSize);
        zone' := zone.(uindex := zone.uindex + 1);
        chunk := zone'.base + zone'.uindex * zone'.chunk;
        k := zone'.uindex;
        c' := Chunks(c.free, c.live + {k});
      } else {
        TakeOld(z, was, cnext, c, zoneSize);
        chunk := zone.freechunk;
        zone' := zone.(freechunk := cnext[zone.freechunk]);
        k := c.free[0];
        c' := Chunks(c.free[1..], c.live + {k});
      }
      InZone(z, was, zoneSize, k);
    }

    /** No zone of the class has a free chunk: a spare zone, or a new one, is set up for it. */
    method NewZone(zi: nat) returns (r: int)
      requires Valid() && zi < NZONES && ClassSize(zi) <= Limit(zoneSize)
      modifies this, pages
      ensures Valid() && zoneSize == old(zoneSize)
      ensures r != NULL ==> Gains(old(V()), V(), r, ClassSize(zi))
      ensures r == NULL ==> V() == old(V())
      ensures r == NULL <==> old(rows[SPARE]) == [] && forall x :: !AllFree(old(pages.runs), x, zoneSize / PAGE)
      ensures old(zoneFree) != NULL ==>
          r != NULL && zoneFreeCnt == old(zoneFreeCnt) - 1 && pages.runs == old(pages.runs)
    {
      hide Ok, Gains, ClassSize, AllFree, Removes, OutsideKept, FreshZone, Canonical, Linked, Marked, ZoneMarked;
      ghost var v := V();
      SpareRow(v, zoneSize);
      if zoneFree != NULL {
        var z := zoneFree;
        StepReuse(v, zoneSize, zi, z);
        zoneFree := next[z];
        zoneFreeCnt := zoneFreeCnt - 1;
        rows := rows[SPARE := rows[SPARE][1..]];
        r := SetUp(z, zi);
        assert V().heads == AfterReuse(v, zi, zoneSize).heads;
        assert V() == AfterReuse(v, zi, zoneSize);
      } else {
        r := GrowZone(zi);
      }
    }

    method GrowZone(zi: nat) returns (r: int)
      requires Valid() && zi < NZONES && ClassSize(zi) <= Limit(zoneSize)
      modifies this, pages
      ensures Valid() && zoneSize == old(zoneSize)
      ensures r != NULL ==> Gains(old(V()), V(), r, ClassSize(zi))
      ensures r == NULL ==> V() == old(V())
      ensures r == NULL <==> forall x :: !AllFree(old(pages.runs), x, zoneSize / PAGE)
    {
      hide Ok, Gains, ClassSize, AllFree, Removes, OutsideKept, FreshZone, Canonical, Linked, Marked, ZoneMarked;
      ghost var v := V();
      var z := pages.Alloc(zoneSize / PAGE);
      if z == NULL { return NULL; }
      MarkZone(z);
      StepGrow(v, zoneSize, zi, z, pages.runs, usage);
      r := SetUp(z, zi);
      ext := ext[z := zoneSize / PAGE];
      assert V().heads == AfterGrow(v, zi, zoneSize, z, pages.runs, usage).heads;
      assert V() == AfterGrow(v, zi, zoneSize, z, pages.runs, usage);
    }

    /** Each page of the zone remembers how far it lies behind the zone's first page. */
    method MarkZone(z: int)
      requires ZoneSizeOk(zoneSize)
      modifies `usage
      ensures Marked(old(usage), usage, z, zoneSize / PAGE)
      ensures ZoneMarked(usage, z, zoneSize / PAGE)
    {
      for off := 0 to zoneSize / PAGE
        invariant Marked(old(usage), usage, z, zoneSize / PAGE)
        invariant ZoneMarked(usage, z, off)
      {
        usage := usage[z + off := Usage(SmallPage, off)];
      }
    }

    /** Header of a zone for class zi, put first on its list; the caller gets chunk 0. */
    method SetUp(z: int, zi: nat) returns (chunk: int)
      requires zi < NZONES && |zoneArray| == NZONES && |rows| == NZONES + 1 && ZoneSizeOk(zoneSize) && z > 0
      modifies `zones, `next, `zoneArray, `rows, `chunks
      ensures chunks == old(chunks)[z := Chunks([], {0})]
      ensures zones == old(zones)[z := FreshZone(z, zi, zoneSize)] && next == old(next)[z := old(zoneArray)[zi]]
      ensures zoneArray == old(zoneArray)[zi := z] && rows == old(rows)[zi := [z] + old(rows)[zi]]
      ensures chunk == ChunkAt(FreshZone(z, zi, zoneSize).base, FreshZone(z, zi, zoneSize).chunk, 0) && chunk > 0
    {
      var size := ClassSize(zi);
      ClassPositive(zi);
      var off := if IsPow2(size) then RoundUp(HEADER, size) else RoundUp(HEADER, MIN_CHUNK);
      var nmax := (zoneSize - off) / size;
      zones := zones[z := Zone(true, nmax - 1, nmax, z * PAGE + off, 0, size, zi, NULL)];
      chunk := z * PAGE + off;
      next := next[z := zoneArray[zi]];
      zoneArray := zoneArray[zi := z];
      rows := rows[zi := [z] + rows[zi]];
      chunks := chunks[z := Chunks([], {0})];
    }

    /** The block at ptr is no longer in use; every other block still is. */
    method Free(ptr: int)
      requires Valid() && (ptr == NULL || exists n :: Holding(V(), ptr, n))
      modifies this, pages
      ensures Valid() && zoneSize == old(zoneSize)
      ensures ptr == NULL ==> V() == old(V())
      ensures ptr != NULL ==> Loses(old(V()), V(), ptr) && ptr / PAGE in old(usage)
      ensures ptr != NULL && old(usage)[ptr / PAGE].kind != LargePage ==>
        var z := ptr / PAGE - old(usage)[ptr / PAGE].size;
        && z in old(zones) && 0 <= old(zones)[z].zi < NZONES < |old(rows)| && (z in chunks <==> !old(Dispensable(z)))
        && (z in zones <==> !(old(Dispensable(z)) && old(zoneFreeCnt) == RELEASE_THRESH))
    {
      hide Ok, Holding, Loses, SameBlocks, Canonical, Linked;
      if ptr == NULL { return; }
      ghost var v := V();
      ghost var n :| Holding(v, ptr, n);
      ghost var zone, k := WhoOwns(v, zoneSize, ptr, n);
      var p := ptr / PAGE;
      if usage[p].kind == LargePage {
        FreeLarge(p);
        return;
      }
      var z := p - usage[p].size;
      FreeChunk(z, ptr, k);
    }

    /** The zone becomes wholly free and its class has another zone to go on with. */
    ghost predicate Dispensable(z: int)
      reads this
      requires z in zones && 0 <= zones[z].zi < |rows|
    {
      zones[z].nfree + 1 == zones[z].nmax && exists y :: y in rows[zones[z].zi] && y != z
    }

    /** A chunk comes back. Its zone is retired exactly when it is dispensable, and then, if two zones are in reserve
        already, its pages are returned. */
    method FreeChunk(z: int, ptr: int, ghost k: int)
      requires Valid() && z in zones && z in chunks && k in chunks[z].live
      requires ptr == ChunkAt(zones[z].base, zones[z].chunk, k)
      modifies this, pages
      ensures Valid() && zoneSize == old(zoneSize) && Loses(old(V()), V(), ptr)
      ensures 0 <= old(zones)[z].zi < NZONES && (z in chunks <==> !old(Dispensable(z)))
      ensures z in zones <==> !(old(Dispensable(z)) && old(zoneFreeCnt) == RELEASE_THRESH)
      ensures zoneFreeCnt == if old(Dispensable(z)) && old(zoneFreeCnt) < RELEASE_THRESH then old(zoneFreeCnt) + 1
                             else old(zoneFreeCnt)
    {
      hide Ok, Loses, SameBlocks, Canonical, Linked;
      ghost var v := V();
      ListedZone(v, zoneSize, z);
      PutChunk(z, ptr, k);
      ghost var v' := V();
      if zones[z].nfree > 0 { Company(v', zoneSize, z); }
      if zones[z].nfree == zones[z].nmax && (next[z] != NULL || zoneArray[zones[z].zi] != z) {
        RetireZone(z);
        SameThen(v, v', V(), ptr);
        if zoneFreeCnt > RELEASE_THRESH {
          ghost var v'' := V();
          ReleaseZone();
          SameThen(v, v'', V(), ptr);
        }
      }
    }

    method FreeLarge(p: int)
      requires Valid() && p in large && p in usage && usage[p] == Usage(LargePage, large[p])
      modifies this, pages
      ensures Valid() && zoneSize == old(zoneSize) && Loses(old(V()), V(), p * PAGE)
    {
      hide Ok, Loses, Canonical, Linked, Adds, Taken, OutsideKept;
      ghost var v := V();
      LargeExtent(v, zoneSize, p);
      var n := usage[p].size;
      usage := usage[p := Usage(LargePage, 0)];
      pages.Free(p, n);
      StepLargeGive(v, zoneSize, p, pages.runs);
      ext := ext - {p};
      large := large - {p};
      assert V() == AfterLargeGive(v, p, pages.runs);
    }

    /** The chunk goes to the front of the zone's free list; a zone that was full is listed again. */
    method PutChunk(z: int, ptr: int, ghost k: int)
      requires Valid() && z in zones && z in chunks && k in chunks[z].live
      requires ptr == ChunkAt(zones[z].base, zones[z].chunk, k)
      modifies this
      ensures Valid() && zoneSize == old(zoneSize) && Loses(old(V()), V(), ptr)
      ensures z in chunks && z in zones && 0 <= zones[z].zi < NZONES && zones[z].nmax > 0
      ensures (zones[z].nfree > 0 ==> z in next)
      ensures zones[z].zi == old(zones[z].zi) && zones[z].nmax == old(zones[z].nmax)
      ensures zones[z].nfree == old(zones[z].nfree) + 1
      ensures zoneFreeCnt == old(zoneFreeCnt) && forall y :: y != z ==>
          (y in rows[zones[z].zi] <==> y in old(rows)[zones[z].zi])
    {
      hide Ok, Loses, Canonical, Linked;
      ghost var v := V();
      StepPut(v, zoneSize, z, k);
      LinkChunk(z, ptr, k);
      assert V().heads == AfterPut(v, z, k).heads;
      assert V() == AfterPut(v, z, k);
      ListedZone(V(), zoneSize, z);
    }

    method LinkChunk(z: int, ptr: int, ghost k: int)
      requires z in zones && z in chunks && |zoneArray| == NZONES && |rows| == NZONES + 1 && 0 <= zones[z].zi < NZONES
      modifies `zones, `next, `zoneArray, `rows, `chunks, `cnext
      ensures var was := old(zones)[z];
        && zones == old(zones)[z := was.(nfree := was.nfree + 1, freechunk := ptr)]
        && cnext == old(cnext)[ptr := was.freechunk]
        && zoneArray == (if was.nfree == 0 then old(zoneArray)[was.zi := z] else old(zoneArray))
        && next == (if was.nfree == 0 then old(next)[z := old(zoneArray)[was.zi]] else old(next))
        && rows == (if was.nfree == 0 then old(rows)[was.zi := [z] + old(rows)[was.zi]] else old(rows))
      ensures chunks == old(chunks)[z := Chunks([k] + old(chunks)[z].free, old(chunks)[z].live - {k})]
    {
      var zone := zones[z];
      cnext := cnext[ptr := zone.freechunk];
      if zone.nfree == 0 {
        next := next[z := zoneArray[zone.zi]];
        zoneArray := zoneArray[zone.zi := z];
        rows := rows[zone.zi := [z] + rows[zone.zi]];
      }
      zones := zones[z := zone.(nfree := zone.nfree + 1, freechunk := ptr)];
      chunks := chunks[z := Chunks([k] + chunks[z].free, chunks[z].live - {k})];
    }

    /** A wholly free zone that its class can do without joins the reserve. */
    method RetireZone(z: int)
      requires Valid() && z in zones && z in chunks && zones[z].nfree == zones[z].nmax
      modifies this
      ensures Settled(RELEASE_THRESH + 1) && zoneSize == old(zoneSize) && SameBlocks(old(V()), V())
      ensures zoneFreeCnt == old(zoneFreeCnt) + 1 && zoneFree == z && z !in chunks && z in zones
    {
      hide Ok, SameBlocks, Canonical, Linked;
      ghost var v := V();
      ghost var k := InItsRow(v, zoneSize, z);
      var zi := zones[z].zi;
      var prev := FindInRow(zi, z, k);
      StepRetire(v, zoneSize, zi, k);
      MoveToSpare(zi, prev, z, k);
      assert V().heads == AfterRetire(v, zi, k).heads;
      assert V() == AfterRetire(v, zi, k);
    }

    /** The zone in front of z on the list of class zi; null when z is the first. */
    method FindInRow(zi: int, z: int, ghost k: nat) returns (prev: int)
      requires |zoneArray| == NZONES && |rows| == NZONES + 1 && 0 <= zi < NZONES && k < |rows[zi]| && rows[zi][k] == z
      requires IsList(next, zoneArray[zi], rows[zi])
      ensures prev == if k == 0 then NULL else rows[zi][k - 1]
      ensures k > 0 ==> prev != NULL
    {
      prev := NULL;
      var cur := zoneArray[zi];
      ghost var i := 0;
      while cur != z
        invariant 0 <= i <= k && cur == rows[zi][i] && prev == (if i == 0 then NULL else rows[zi][i - 1])
        decreases k - i
      {
        assert i < k;
        Suffix(next, zoneArray[zi], rows[zi], i);
        prev := cur;
        cur := next[cur];
        i := i + 1;
      }
      assert i == k;
    }

    method MoveToSpare(zi: int, prev: int, z: int, ghost k: nat)
      requires |zoneArray| == NZONES && |rows| == NZONES + 1 && 0 <= zi < NZONES && k < |rows[zi]| && z in next
      requires z in zones
      requires (prev == NULL <==> k == 0) && (k > 0 ==> prev == rows[zi][k - 1])
      modifies `zones, `next, `zoneArray, `zoneFree, `zoneFreeCnt, `rows, `chunks
      ensures zones == old(zones)[z := old(zones)[z].(active := false)] && chunks == old(chunks) - {z}
      ensures next == StoreLink(old(next), old(rows)[zi], k, old(next)[z])[z := old(zoneFree)]
      ensures zoneArray == old(zoneArray)[zi := StoreHead(old(zoneArray)[zi], k, old(next)[z])]
      ensures zoneFree == z && zoneFreeCnt == old(zoneFreeCnt) + 1
      ensures rows == old(rows)[zi := old(rows)[zi][..k] + old(rows)[zi][k + 1..]][SPARE := [z] + old(rows)[SPARE]]
    {
      if prev == NULL {
        zoneArray := zoneArray[zi := next[z]];
      } else {
        next := next[prev := next[z]];
      }
      zones := zones[z := zones[z].(active := false)];
      next := next[z := zoneFree];
      zoneFree := z;
      zoneFreeCnt := zoneFreeCnt + 1;
      rows := rows[zi := rows[zi][..k] + rows[zi][k + 1..]][SPARE := [z] + rows[SPARE]];
      chunks := chunks - {z};
    }

    /** Beyond the threshold, the zone retired last returns its pages. */
    method ReleaseZone()
      requires Settled(RELEASE_THRESH + 1) && zoneFreeCnt > RELEASE_THRESH
      modifies this, pages
      ensures Valid() && zoneSize == old(zoneSize) && SameBlocks(old(V()), V())
      ensures forall p :: old(zoneFree) <= p < old(zoneFree) + zoneSize / PAGE ==>
          p in usage && usage[p] == Usage(FreePage, 0)
      ensures zoneFreeCnt == old(zoneFreeCnt) - 1 && zones == old(zones) - {old(zoneFree)} && chunks == old(chunks)
    {
      hide Ok, SameBlocks, Canonical, Linked, Adds, Taken, OutsideKept, Marked;
      ghost var v := V();
      SpareRow(v, zoneSize);
      var z := zoneFree;
      zoneFree := next[z];
      zoneFreeCnt := zoneFreeCnt - 1;
      ClearZone(z);
      pages.Free(z, zoneSize / PAGE);
      StepRelease(v, zoneSize, z, pages.runs, usage);
      rows := rows[SPARE := rows[SPARE][1..]];
      zones := zones - {z};
      ext := ext - {z};
      assert V().heads == AfterRelease(v, pages.runs, usage).heads;
      assert V() == AfterRelease(v, pages.runs, usage);
    }

    method ClearZone(z: int)
      requires ZoneSizeOk(zoneSize)
      modifies `usage
      ensures Marked(old(usage), usage, z, zoneSize / PAGE)
      ensures forall p :: z <= p < z + zoneSize / PAGE ==> p in usage && usage[p] == Usage(FreePage, 0)
    {
      for i := 0 to zoneSize / PAGE
        invariant Marked(old(usage), usage, z, zoneSize / PAGE)
        invariant forall p :: z <= p < z + i ==> p in usage && usage[p] == Usage(FreePage, 0)
      {
        usage := usage[z + i := Usage(FreePage, 0)];
      }
    }

    /** Blocks in use never overlap each other, nor any page the page allocator has on offer. */
    lemma InUse(a: int, n: int, b: int, m: int, p: int)
      requires Valid() && Holding(V(), a, n)
      ensures Holding(V(), b, m) && a != b ==> a + n <= b || b + m <= a
      ensures Covers(pages.runs, p) ==> a + n <= p * PAGE || (p + 1) * PAGE <= a
    {
      hide Homes, RowsOk, UsageOk;
      var v := V();
      if Holding(v, b, m) && a != b {
        BlocksApart(v.zones, v.cnext, v.chunks, zoneSize, v.ext, v.large, v.runs, a, n, b, m);
      }
      if Covers(v.runs, p) { OffFreePages(v, zoneSize, a, n, p); }
    }

    /** The books of one zone: free chunks are the never-used ones and those on its free list; and it is on the list of
        its class, and on no other, exactly while it has any. */
    lemma ZoneBooks(z: int, i: nat)
      requires Valid() && z in zones && zones[z].active && i < NZONES
      ensures z in chunks && zones[z].nfree == (zones[z].nmax - 1 - zones[z].uindex) + |chunks[z].free|
      ensures IsList(cnext, zones[z].freechunk, FreeAddrs(zones[z], chunks[z].free))
      ensures forall k :: 0 <= k <= zones[z].uindex <==> (k in chunks[z].free) != (k in chunks[z].live)
      ensures IsList(next, zoneArray[i], rows[i]) && (z in rows[i] <==> zones[z].zi == i && zones[z].nfree > 0)
    {
      ActiveZone(V(), zoneSize, z);
      assert (zoneArray + [zoneFree])[i] == zoneArray[i];
    }

    /** A block whose size is a power of two up to the page size lies on a multiple of its size. */
    lemma Aligned(a: int, n: int)
      requires Valid() && Holding(V(), a, n) && IsPow2(n) && n <= PAGE
      ensures a % n == 0
    {
      var v := V();
      if OwnsSmall(v.zones, v.chunks, a, n) {
        var z, k :| IsLive(v.chunks, z, k) && z in v.zones && a == ChunkAt(v.zones[z].base, v.zones[z].chunk, k) &&
            n == v.zones[z].chunk;
        ActiveZone(v, zoneSize, z);
        ChunkAligned(z, n, k);
      } else {
        LargeExtent(v, zoneSize, a / PAGE);
      }
    }

    lemma LargeFits(size: int, zoneSize: int)
      requires size >= Limit(zoneSize) && ZoneSizeOk(zoneSize)
      ensures PagesFor(size) > 0 && (PagesFor(size) - 1) * PAGE < size <= PagesFor(size) * PAGE
    {
    }
  }

  lemma NoneOfClass(v: View, zoneSize: int, zi: nat, size: int)
    requires Ok(v, zoneSize) && BestClass(zi, size) && v.heads[zi] == NULL
    ensures forall j :: BestClass(j, size) ==> v.rows[j] == []
  {
    RowAt(v, zi);
    forall j | BestClass(j, size) ensures v.rows[j] == [] { BestClassUnique(zi, j, size); }
  }

  lemma FirstOfClass(v: View, zoneSize: int, zi: nat)
    requires Ok(v, zoneSize) && zi < NZONES && v.heads[zi] != NULL
    ensures var z := v.heads[zi];
      && v.rows[zi] != [] && z in v.zones && z in v.chunks && z in v.next && v.zones[z].active && v.zones[z].nfree > 0
      && v.zones[z].chunk == ClassSize(zi) && ZoneOk(z, v.zones[z], v.cnext, v.chunks[z], zoneSize)
  {
    RowAt(v, zi);
  }

  lemma SpareRow(v: View, zoneSize: int)
    requires Ok(v, zoneSize)
    ensures v.heads[SPARE] == NULL <==> v.rows[SPARE] == []
    ensures v.rows[SPARE] != [] ==> v.heads[SPARE] in v.next && v.heads[SPARE] in v.ext && v.heads[SPARE] > 0
    ensures v.rows[SPARE] != [] ==> Taken(v.runs, v.heads[SPARE], zoneSize / PAGE)
  {
    RowAt(v, SPARE);
    if v.rows[SPARE] != [] { InExtent(v, zoneSize, v.heads[SPARE]); }
  }

  lemma LargeExtent(v: View, zoneSize: int, x: int)
    requires Ok(v, zoneSize) && x in v.large
    ensures x in v.ext && v.ext[x] == v.large[x] > 0 && x > 0 && Taken(v.runs, x, v.large[x])
  {
  }

  /** The page table tells large blocks from chunks, and leads from a chunk to its zone. */
  lemma WhoOwns(v: View, zoneSize: int, a: int, n: int) returns (z: int, k: int)
    requires Ok(v, zoneSize) && Holding(v, a, n)
    ensures var p := a / PAGE;
      && p in v.usage
      && (v.usage[p].kind == LargePage ==> a == p * PAGE && p in v.large && v.usage[p] == Usage(LargePage, v.large[p]))
      && (v.usage[p].kind != LargePage ==>
          z == p - v.usage[p].size && z in v.zones && z in v.chunks && k in v.chunks[z].live
                                           && a == ChunkAt(v.zones[z].base, v.zones[z].chunk, k))
  {
    hide Homes, RowsOk, Extents;
    z, k := 0, 0;
    if OwnsSmall(v.zones, v.chunks, a, n) {
      z, k :| IsLive(v.chunks, z, k) && z in v.zones && a == ChunkAt(v.zones[z].base, v.zones[z].chunk, k) &&
          n == v.zones[z].chunk;
      SmallWithin(v.zones, v.cnext, v.chunks, zoneSize, v.ext, v.large, z, k);
      FindZone(v.usage, v.zones, v.large, zoneSize, z, k);
    }
  }

  lemma ListedZone(v: View, zoneSize: int, z: int)
    requires Ok(v, zoneSize) && z in v.chunks
    ensures z in v.zones && 0 <= v.zones[z].zi < NZONES && v.zones[z].nmax > 0 && (v.zones[z].nfree > 0 ==> z in v.next)
  {
    ActiveZone(v, zoneSize, z);
    if v.zones[z].nfree > 0 { var k := InRow(v, z, v.zones[z].zi); }
  }

  lemma InRow(v: View, z: int, zi: int) returns (k: nat)
    requires Lists(v) && z in v.zones && 0 <= zi < NZONES && Home(v.zones[z]) == zi
    ensures k < |v.rows[zi]| && v.rows[zi][k] == z && IsList(v.next, v.heads[zi], v.rows[zi]) && z in v.next
  {
    assert z in v.rows[zi];
    assert IsList(v.next, v.heads[zi], v.rows[zi]);
    k :| k < |v.rows[zi]| && v.rows[zi][k] == z;
  }

  lemma InItsRow(v: View, zoneSize: int, z: int) returns (k: nat)
    requires Ok(v, zoneSize) && z in v.zones && z in v.chunks && v.zones[z].nfree == v.zones[z].nmax
    ensures var zi := v.zones[z].zi;
      && 0 <= zi < NZONES && k < |v.rows[zi]| && v.rows[zi][k] == z && IsList(v.next, v.heads[zi], v.rows[zi])
      && z in v.next
  {
    ActiveZone(v, zoneSize, z);
    k := InRow(v, z, v.zones[z].zi);
  }

  /** The test on the links sees whether the zone's class has another zone. */
  lemma Company(v: View, zoneSize: int, z: int)
    requires Ok(v, zoneSize) && z in v.chunks && z in v.zones && v.zones[z].nfree > 0
    ensures 0 <= v.zones[z].zi < NZONES && z in v.next
    ensures v.next[z] != NULL || v.heads[v.zones[z].zi] != z <==> exists y :: y in v.rows[v.zones[z].zi] && y != z
  {
    ActiveZone(v, zoneSize, z);
    var zi := v.zones[z].zi;
    var k := InRow(v, z, zi);
    var row := v.rows[zi];
    RowAt(v, zi);
    if |row| > 1 {
      var y := if k == 0 then row[1] else row[0];
      assert y in row && y != z;
    }
  }

  lemma SameThen(v: View, v': View, v'': View, a: int)
    requires Loses(v, v', a) && SameBlocks(v', v'')
    ensures Loses(v, v'', a)
  {
  }

  lemma OffFreePages(v: View, zoneSize: int, a: int, n: int, p: int)
    requires Ok(v, zoneSize) && Holding(v, a, n) && Covers(v.runs, p)
    ensures a + n <= p * PAGE || (p + 1) * PAGE <= a
  {
    hide Homes, RowsOk, UsageOk, Covers, AllZones, Placed, Extents, Offset;
    var x := a / PAGE;
    if OwnsSmall(v.zones, v.chunks, a, n) {
      var z, k :| IsLive(v.chunks, z, k) && z in v.zones && a == ChunkAt(v.zones[z].base, v.zones[z].chunk, k) &&
          n == v.zones[z].chunk;
      SmallWithin(v.zones, v.cnext, v.chunks, zoneSize, v.ext, v.large, z, k);
      x := z;
    }
    assert Within(v.ext, x, a, n);
    ExtentOff(v.ext, v.runs, x, a, n, p);
  }

  lemma ExtentOff(ext: map<int, int>, runs: seq<Run>, x: int, a: int, n: int, p: int)
    requires Extents(ext, runs) && Within(ext, x, a, n) && Covers(runs, p)
    ensures a + n <= p * PAGE || (p + 1) * PAGE <= a
  {
    assert Taken(runs, x, ext[x]);
  }

  lemma Best(zi: nat, size: int)
    requires zi < NZONES && size <= ClassSize(zi) && (zi > 0 ==> ClassSize(zi - 1) < size)
    ensures BestClass(zi, size)
  {
  }

  method ZoneSizeFor(bytes: int) returns (z: int)
    requires bytes >= 0
    ensures ZoneSizeOk(z) && (z > 0x8000 ==> z < bytes / 1024) && (z < 0x20000 ==> bytes / 1024 <= 2 * z)
  {
    z := 0x8000;
    while z < 0x20000 && 2 * z < bytes / 1024
      invariant ZoneSizeOk(z) && (z > 0x8000 ==> z < bytes / 1024)
      decreases 0x20000 - z
    {
      z := 2 * z;
    }
  }

  /** The page usage table always fits: four bytes describe a page of 4096. */
  lemma TableFits(n: int)
    requires n > 0
    ensures 0 < PagesFor(n * 4) <= n
  {
  }

  lemma NoExtents(runs: seq<Run>)
    ensures Extents(map[], runs)
  {
  }

  lemma Blank(v: View, zoneSize: int)
    requires ZoneSizeOk(zoneSize) && Shape(v) && v.zones == map[] && v.chunks == map[] && v.large == map[]
    requires Extents(v.ext, v.runs)
    requires forall i :: 0 <= i <= NZONES ==> v.heads[i] == NULL && v.rows[i] == []
    ensures Ok(v, zoneSize) && forall a, n :: !Holding(v, a, n)
  {
  }
}
