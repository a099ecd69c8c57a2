/** rt_memheap_init, rt_memheap_alloc, rt_memheap_realloc and rt_memheap_free: a first-fit allocator
    over one pool whose blocks are chained by address and whose free blocks are also chained in a
    circular free list. */
module MemHeap {
  import opened ChainList
  import opened Ring
  import opened MemHeapLayout
  import opened Kservice

  /** RT_ALIGN(size, 4) raised to MINIALLOC, the size that is really requested. */
  function RoundUp(size: nat): (r: int)
    ensures r % ALIGN == 0 && r >= size && r >= MINIALLOC
    ensures r < size + ALIGN || r == MINIALLOC
  {
    var n := (size + ALIGN - 1) / ALIGN * ALIGN;
    if n < MINIALLOC then MINIALLOC else n
  }

  /** What handing out a free block of the given payload takes from available_size: the request and a new header, or
      the whole payload when the rest would not make a block. */
  function Charge(payload: int, need: int): int {
    if Splits(payload, need) then need + HEADER else payload
  }

  /** A free block of the given payload leaves a free block behind the request. */
  predicate Splits(payload: int, need: int) {
    payload >= need + HEADER + MINIALLOC
  }

  function Max(a: int, b: int): (r: int)
    ensures a <= r && b <= r && (r == a || r == b)
  {
    if a < b then b else a
  }

  /** A call another thread may make while the heap is not locked. */
  datatype Call = AllocCall(size: nat) | FreeCall(ptr: int) | ReallocCall(ptr: int, size: nat)

  class MemHeap {
    const start: int          // start_addr
    const poolSize: int
    const freeHeader: int     // address of the embedded free_header item
    const mem: array<bv8>     // the bytes of the pool
    var availableSize: int
    var maxUsedSize: int
    var next: Links           // fields of the item headers, keyed by header address
    var prev: Links
    var nextFree: Links
    var prevFree: Links
    var used: set<int>        // headers whose magic carries RT_MEMHEAP_USED
    ghost var blocks: seq<int>  // the headers in address order, tailer last
    ghost var frees: seq<int>   // the headers in free-list order
    ghost var peak: int         // the most bytes ever in use, headers included

    ghost predicate Valid()
      reads this
    {
      && start > 0
      && mem.Length == poolSize
      && !(start <= freeHeader < start + poolSize)
      && WellFormed(blocks, used, frees, start, poolSize)
      && IsRing(next, prev, blocks)
      && IsRing(nextFree, prevFree, [freeHeader] + frees)
      && availableSize == FreeBytes(blocks, used)
      && poolSize - availableSize <= maxUsedSize == peak
    }

    /** rt_memheap_init: one free block and the used tailer that stops merging at the pool end. The
        pool has to hold both headers and one smallest payload. */
    constructor (start: int, size: nat, freeHeader: int)
      requires start > 0 && start % ALIGN == 0
      requires size >= 2 * HEADER + MINIALLOC
      requires !(start <= freeHeader < start + size)
      ensures Valid() && Live() == {}
      ensures this.start == start && poolSize == size / ALIGN * ALIGN && this.freeHeader == freeHeader
      ensures availableSize == poolSize - 2 * HEADER && maxUsedSize == 2 * HEADER
      ensures blocks == [start, start + poolSize - HEADER] && frees == [start]
      ensures fresh(mem)
    {
      var pool := size / ALIGN * ALIGN;
      this.start := start;
      this.poolSize := pool;
      this.freeHeader := freeHeader;
      mem := new bv8[pool];
      availableSize := pool - 2 * HEADER;
      maxUsedSize := pool - (pool - 2 * HEADER);
      // the free list header and the first big block, linked into the free list
      nextFree := map[freeHeader := start, start := freeHeader];
      prevFree := map[freeHeader := start, start := freeHeader];
      // the address chain: the big block and the tailer
      var tail := start + (pool - 2 * HEADER) + HEADER;
      next := map[start := tail, tail := start];
      prev := map[start := tail, tail := start];
      used := {tail};
      blocks := [start, tail];
      frees := [start];
      peak := 2 * HEADER;
    }

    /** Conservation in every state: used payloads, free payloads and one header per block make up
        the pool, and the free ones are what available_size reports. */
    lemma Accounting()
      requires Valid()
      ensures UsedBytes(blocks, used) + availableSize + HEADER * |blocks| == poolSize
      ensures poolSize - maxUsedSize <= availableSize
    {
      PoolConserved(blocks, used);
    }

    /** When everything handed out has come back, the heap is as rt_memheap_init left it. */
    lemma Drained()
      requires Valid() && Live() == {}
      ensures blocks == [start, start + poolSize - HEADER] && frees == [start]
      ensures availableSize == poolSize - 2 * HEADER
    {
      assert used == {start + poolSize - HEADER};
      AllFreed(blocks, used, frees, start, poolSize);
    }

    /** The blocks handed out to callers. */
    function Live(): set<int>
      reads this
    {
      used - {start + poolSize - HEADER}
    }

    /** MEMITEM_SIZE */
    function SizeOf(h: int): int
      reads this
      requires h in next
    {
      next[h] - h - HEADER
    }

    /** Every block in `keep` still is handed out, with the size and the payload it had. */
    twostate predicate Kept(keep: set<int>)
      reads this, mem
    {
      && keep <= Live()
      && SameBlocks(keep, old(next), next, old(mem[..]), mem[..], start)
    }

    // ---------------------------------------------------------------- header surgery

    /** Insert a header at the front of the free list. */
    method PushFree(a: int)
      requires IsRing(nextFree, prevFree, [freeHeader] + frees) && a !in frees && a != freeHeader
      modifies this`nextFree, this`prevFree, this`frees
      ensures frees == [a] + old(frees)
      ensures IsRing(nextFree, prevFree, [freeHeader] + frees)
    {
      ghost var s := [freeHeader] + frees;
      InsertAfterRing(nextFree, prevFree, s, 0, a);
      ghost var r := LinkAfter(nextFree, prevFree, s[0], a);
      Neighbours(nextFree, prevFree, s, 0);
      nextFree := nextFree[a := nextFree[freeHeader]];
      prevFree := prevFree[a := freeHeader];
      prevFree := prevFree[nextFree[freeHeader] := a];
      nextFree := nextFree[freeHeader := a];
      assert nextFree == r.0 && prevFree == r.1;
      frees := [a] + frees;
      assert [freeHeader] + frees == InsertAt(s, 1, a);
    }

    /** Take the j-th header off the free list. */
    method UnlinkFree(h: int, ghost j: nat)
      requires IsRing(nextFree, prevFree, [freeHeader] + frees) && j < |frees| && frees[j] == h
      modifies this`nextFree, this`prevFree, this`frees
      ensures frees == RemoveAt(old(frees), j)
      ensures IsRing(nextFree, prevFree, [freeHeader] + frees)
    {
      ghost var s := [freeHeader] + frees;
      UnlinkRing(nextFree, prevFree, s, j + 1);
      Neighbours(nextFree, prevFree, s, j + 1);
      prevFree := prevFree[nextFree[h] := prevFree[h]];
      nextFree := nextFree[prevFree[h] := nextFree[h]];
      frees := RemoveAt(frees, j);
      assert [freeHeader] + frees == RemoveAt(s, j + 1);
    }

    /** Build a free header at a behind block k. Its 24 bytes overwrite whatever was there. */
    method NewHeader(h: int, a: int, ghost k: nat)
      requires IsRing(next, prev, blocks) && k < |blocks| && blocks[k] == h && a !in blocks
      requires mem.Length == poolSize && start <= a && a + HEADER <= start + poolSize
      modifies this`next, this`prev, this`blocks, this`used, mem
      ensures blocks == InsertAt(old(blocks), k + 1, a) && used == old(used) - {a}
      ensures IsRing(next, prev, blocks) && h in old(next)
      ensures next == old(next)[a := old(next)[h]][h := a] && prev == old(prev)[a := h][old(next)[h] := a]
      ensures forall x :: 0 <= x < poolSize && !(a - start <= x < a - start + HEADER) ==> mem[x] == old(mem[x])
    {
      InsertAfterRing(next, prev, blocks, k, a);
      ghost var r := LinkAfter(next, prev, h, a);
      Neighbours(next, prev, blocks, k);
      var i := 0;
      while i < HEADER
        invariant 0 <= i <= HEADER
        invariant forall x :: 0 <= x < poolSize && !(a - start <= x < a - start + HEADER) ==> mem[x] == old(mem[x])
        invariant next == old(next) && prev == old(prev) && blocks == old(blocks) && used == old(used)
      {
        mem[a - start + i] := *;
        i := i + 1;
      }
      used := used - {a};
      prev := prev[a := h];
      next := next[a := next[h]];
      prev := prev[next[h] := a];
      next := next[h := a];
      assert next == r.0 && prev == r.1;
      blocks := InsertAt(blocks, k + 1, a);
    }

    /** Take block k out of the address chain, so that its predecessor grows over it. */
    method DropHeader(n: int, ghost k: nat)
      requires IsRing(next, prev, blocks) && 0 < k < |blocks| && blocks[k] == n
      modifies this`next, this`prev, this`blocks
      ensures blocks == RemoveAt(old(blocks), k)
      ensures IsRing(next, prev, blocks)
    {
      UnlinkRing(next, prev, blocks, k);
      Neighbours(next, prev, blocks, k);
      prev := prev[next[n] := prev[n]];
      next := next[prev[n] := next[n]];
      blocks := RemoveAt(blocks, k);
    }

    // ---------------------------------------------------------------- rt_memheap_alloc

    /** The search loop: the first block of the free list that holds size bytes, if any. */
    method FindFit(size: int) returns (h: int, ghost j: nat)
      requires Valid() && size > 0
      ensures j <= |frees|
      ensures forall i :: 0 <= i < j ==> frees[i] in next && SizeOf(frees[i]) < size
      ensures h == freeHeader <==> j == |frees|
      ensures h == freeHeader <==> forall i :: 0 <= i < |frees| ==> frees[i] in next && SizeOf(frees[i]) < size
      ensures j < |frees| ==> h == frees[j] && h in next && SizeOf(h) >= size
    {
      ghost var s := [freeHeader] + frees;
      Neighbours(nextFree, prevFree, s, 0);
      FreesInBlocks();
      var freeSize := 0;
      h := nextFree[freeHeader];
      j := 0;
      while h != freeHeader && freeSize < size
        invariant j <= |frees| && h == if j < |frees| then frees[j] else freeHeader
        invariant forall i :: 0 <= i < j ==> SizeOf(frees[i]) < size
        invariant freeSize >= size ==> j < |frees| && SizeOf(h) >= size
        decreases |frees| - j, if freeSize < size then 1 else 0
      {
        assert h == s[j + 1];
        assert j < |frees|;
        freeSize := SizeOf(h);
        if freeSize < size {
          Neighbours(nextFree, prevFree, s, j + 1);
          h := nextFree[h];
          j := j + 1;
        }
      }
      assert j < |frees| ==> h in frees;
    }

    lemma FreesInBlocks()
      requires Valid()
      ensures forall i :: 0 <= i < |frees| ==> frees[i] in next && frees[i] in blocks && frees[i] != freeHeader
      ensures forall x :: x in blocks ==> x in next && start <= x < start + poolSize && x != freeHeader
    {
      assert forall i :: 0 <= i < |frees| ==> frees[i] in frees;
      assert forall k :: 0 < k < |blocks| ==> blocks[0] <= blocks[k];
      assert forall k :: 0 <= k < |blocks| - 1 ==> blocks[k] <= blocks[|blocks| - 1];
    }

    /** Why a request of `need` bytes is refused: it is not below all free bytes together, or no free block holds it. */
    ghost predicate NoFit(need: int)
      reads this
    {
      need >= availableSize || forall h :: h in frees ==> h in next && SizeOf(h) < need
    }

    method NotePeak()
      modifies this`maxUsedSize
      ensures maxUsedSize == Max(old(maxUsedSize), poolSize - availableSize)
    {
      if poolSize - availableSize > maxUsedSize {
        maxUsedSize := poolSize - availableSize;
      }
    }

    /** What every operation does to the ghost maximum once it has changed available_size. */
    ghost method Witness()
      modifies this`peak
      ensures peak == Max(old(peak), poolSize - availableSize)
    {
      peak := Max(peak, poolSize - availableSize);
    }

    /** A header was put behind the first `size` bytes of block h. */
    ghost predicate Split(next0: Links, prev0: Links, h: int, size: int)
      reads this
    {
      var a := h + HEADER + size;
      h in next0 && next == next0[a := next0[h]][h := a] && prev == prev0[a := h][next0[h] := a]
    }

    /** Hand out the front of the j-th free block; what lies behind it becomes a free block. */
    method TakeFront(h: int, size: int, ghost j: nat)
      requires Valid() && j < |frees| && frees[j] == h && h in next
      requires size % ALIGN == 0 && MINIALLOC <= size && size + HEADER + MINIALLOC <= SizeOf(h)
      modifies this, mem
      ensures Valid()
      ensures used == old(used) + {h}
      ensures h in next && SizeOf(h) == size
      ensures frees == [h + HEADER + size] + RemoveAt(old(frees), j)
      ensures Split(old(next), old(prev), h, size) && h + HEADER + size !in used
      ensures Kept(old(Live()))
      ensures availableSize == old(availableSize) - size - HEADER
      ensures maxUsedSize == Max(old(maxUsedSize), poolSize - availableSize)
    {
      hide IsRing, WellFormed, SameBlocks, FreeBytes;
      var a := h + HEADER + size;
      ghost var k := IndexOfFree(blocks, used, frees, start, poolSize, j);
      AtIndex(blocks, used, frees, start, poolSize, next, prev, k);
      TakeSplit(blocks, used, frees, start, poolSize, k, j, a);
      FreshFree(blocks, used, frees, start, poolSize, j, a);
      NewHeader(h, a, k);
      SplitKeeps(old(blocks), old(used), old(frees), start, poolSize, old(next), old(prev), next, prev, k, a,
          old(mem[..]), mem[..], old(Live()));
      UnlinkFree(h, j);
      PushFree(a);
      availableSize := availableSize - size - HEADER;
      NotePeak();
      Witness();
      used := used + {h};
      assert used == old(used) + {h};
      AtIndex(blocks, used, frees, start, poolSize, next, prev, k);
    }

    /** Hand out the whole j-th free block. */
    method TakeAll(h: int, ghost j: nat)
      requires Valid() && j < |frees| && frees[j] == h && h in next
      modifies this, mem
      ensures Valid()
      ensures used == old(used) + {h}
      ensures blocks == old(blocks) && next == old(next) && prev == old(prev) && mem[..] == old(mem[..])
      ensures frees == RemoveAt(old(frees), j)
      ensures Kept(old(Live()))
      ensures availableSize == old(availableSize) - SizeOf(h)
      ensures maxUsedSize == Max(old(maxUsedSize), poolSize - availableSize)
    {
      hide IsRing, WellFormed, SameBlocks, FreeBytes;
      ghost var k := IndexOfFree(blocks, used, frees, start, poolSize, j);
      AtIndex(blocks, used, frees, start, poolSize, next, prev, k);
      TakeWhole(blocks, used, frees, start, poolSize, k, j);
      SteadyKeeps(blocks, used, frees, start, poolSize, next, prev, mem[..], Live());
      availableSize := availableSize - SizeOf(h);
      NotePeak();
      Witness();
      UnlinkFree(h, j);
      used := used + {h};
    }

    /** rt_memheap_alloc. It fails exactly when the rounded request is not below the byte count of
        all free blocks together or no single free block holds it; otherwise it hands out the first
        block of the free list that is large enough. */
    method Alloc(size: nat) returns (r: int)
      requires Valid()
      requires size + ALIGN - 1 < 0x1_0000_0000
      modifies this, mem
      ensures Valid()
      ensures r == NULL <==> old(NoFit(RoundUp(size)))
      ensures r == NULL ==> unchanged(this) && unchanged(mem)
      ensures r != NULL ==>
        && r - HEADER !in old(Live()) && Live() == old(Live()) + {r - HEADER}
        && r - HEADER in next && RoundUp(size) <= SizeOf(r - HEADER) < RoundUp(size) + HEADER + MINIALLOC
        && r - HEADER in old(next) && availableSize ==
            old(availableSize) - Charge(old(SizeOf(r - HEADER)), RoundUp(size))
        && FirstFit(old(frees), old(next), RoundUp(size), r - HEADER, frees) && used == old(used) + {r - HEADER}
        && (if Splits(old(SizeOf(r - HEADER)), RoundUp(size)) then
              Split(old(next), old(prev), r - HEADER, RoundUp(size)) && r + RoundUp(size) !in used
            else next == old(next) && prev == old(prev))
      ensures Kept(old(Live()))
      ensures maxUsedSize == Max(old(maxUsedSize), poolSize - availableSize)
    {
      hide IsRing, WellFormed, SameBlocks, FreeBytes;
      var need := RoundUp(size);
      r := NULL;
      SteadyKeeps(blocks, used, frees, start, poolSize, next, prev, mem[..], Live());
      if need < availableSize {
        var h, j := FindFit(need);
        if h != freeHeader {
          ghost var k := IndexOfFree(blocks, used, frees, start, poolSize, j);
          AtIndex(blocks, used, frees, start, poolSize, next, prev, k);
          assert h in frees;
          if SizeOf(h) >= need + HEADER + MINIALLOC {
            TakeFront(h, need, j);
          } else {
            TakeAll(h, j);
          }
          r := h + HEADER;
          assert Live() == old(Live()) + {h};
        }
      }
    }

    ghost function FreeAt(k: nat): (j: nat)
      reads this
      requires Valid() && k < |blocks| && blocks[k] !in used
      ensures j < |frees| && frees[j] == blocks[k]
    {
      assert blocks[k] in frees;
      var j :| 0 <= j < |frees| && frees[j] == blocks[k]; j
    }

    /** The four outcomes of a release, by which neighbours are free. */
    lemma Released(k: nat, j: nat, left: bool, right: bool)
      requires Valid() && k + 1 < |blocks| && blocks[k] in used
      requires left <==> k > 0 && blocks[k - 1] !in used
      requires right <==> blocks[k + 1] !in used
      requires right ==> j < |frees| && frees[j] == blocks[k + 1]
      ensures right ==> k + 2 < |blocks|
      ensures
        var c := FreedChain(blocks, k, left, right);
        && WellFormed(c, used - {blocks[k]}, FreedList(frees, blocks[k], j, left, right), start, poolSize)
        && FreeBytes(c, used - {blocks[k]}) == FreeBytes(blocks, used) + (blocks[k + 1] - blocks[k] - HEADER)
             + (if left then HEADER else 0) + (if right then HEADER else 0)
      ensures blocks[k] !in RemoveIf(frees, j, right)
    {
      hide WellFormed, FreeBytes, IsRing;
      UsedFacts(blocks, used, frees, start, poolSize, k);
      if left && right { ReleaseBoth(blocks, used, frees, start, poolSize, k, j); }
      else if left { ReleaseLeft(blocks, used, frees, start, poolSize, k); }
      else if right { ReleaseRight(blocks, used, frees, start, poolSize, k, j); }
      else { ReleaseAlone(blocks, used, frees, start, poolSize, k); }
    }

    /** The two merge tests of rt_memheap_free and the final insertion. */
    method Melt(h: int, ghost k: nat, ghost j: nat, ghost left: bool, ghost right: bool)
      requires IsRing(next, prev, blocks) && IsRing(nextFree, prevFree, [freeHeader] + frees)
      requires k + 1 < |blocks| && blocks[k] == h && h in next && h in prev && next[h] == blocks[k + 1]
      requires left <==> prev[h] !in used
      requires left ==> k > 0 && prev[h] == blocks[k - 1]
      requires right <==> blocks[k + 1] !in used
      requires right ==> k + 2 < |blocks| && j < |frees| && frees[j] == blocks[k + 1]
      requires h !in RemoveIf(frees, j, right) && h != freeHeader
      modifies this`next, this`prev, this`nextFree, this`prevFree, this`blocks, this`frees, this`availableSize
      ensures IsRing(next, prev, blocks) && IsRing(nextFree, prevFree, [freeHeader] + frees)
      ensures blocks == FreedChain(old(blocks), k, left, right)
      ensures frees == FreedList(old(frees), h, j, left, right)
      ensures availableSize == old(availableSize) + (if left then HEADER else 0) + (if right then HEADER else 0)
    {
      hide IsRing;
      var head, insert := h, true;
      if prev[h] !in used {
        availableSize := availableSize + HEADER;
        head := prev[h];
        DropHeader(h, k);
        Neighbours(next, prev, blocks, k - 1);
        insert := false;
      }
      if next[head] !in used {
        availableSize := availableSize + HEADER;
        var n := next[head];
        DropHeader(n, if left then k else k + 1);
        UnlinkFree(n, j);
      }
      if insert {
        PushFree(head);
      }
    }

    /** rt_memheap_free: the block leaves the handed-out set and melts into its free neighbours. */
    method Free(ptr: int)
      requires Valid()
      requires ptr == NULL || ptr - HEADER in Live()
      modifies this
      ensures Valid()
      ensures ptr == NULL ==> unchanged(this)
      ensures ptr != NULL ==> Live() == old(Live()) - {ptr - HEADER}
      ensures ptr != NULL && old(ptr - HEADER in prev && prev[ptr - HEADER] in used) ==>
          frees != [] && frees[0] == ptr - HEADER
      ensures Kept(old(Live()) - {ptr - HEADER})
      ensures ptr != NULL ==>
        && ptr - HEADER in old(next) && ptr - HEADER in old(prev)
        && availableSize == old(availableSize + SizeOf(ptr - HEADER))
             + (if old(prev[ptr - HEADER] !in used) then HEADER else 0)
             + (if old(next[ptr - HEADER] !in used) then HEADER else 0)
      ensures maxUsedSize == old(maxUsedSize)
    {
      hide IsRing, WellFormed, SameBlocks, FreeBytes;
      if ptr == NULL {
        SteadyKeeps(blocks, used, frees, start, poolSize, next, prev, mem[..], old(Live()) - {ptr - HEADER});
        return;
      }
      var h := ptr - HEADER;
      ghost var k := IndexOfUsed(blocks, used, frees, start, poolSize, h);
      AroundUsed(blocks, used, frees, start, poolSize, next, prev, k);
      AtIndex(blocks, used, frees, start, poolSize, next, prev, k);
      ghost var keep := Live() - {h};
      ghost var left, right := k > 0 && blocks[k - 1] !in used, blocks[k + 1] !in used;
      ghost var j := if right then FreeAt(k + 1) else 0;
      Released(k, j, left, right);

      used := used - {h};
      assert Live() == keep;
      availableSize := availableSize + SizeOf(h);
      Melt(h, k, j, left, right);
      Witness();
      FreedKeeps(old(blocks), old(used), old(frees), start, poolSize, old(next), old(prev), next, prev, k, left, right,
          mem[..], keep);
    }

    // ---------------------------------------------------------------- rt_memheap_realloc

    /** The first n payload bytes of block h are what they were. */
    twostate predicate SameFront(h: int, n: int)
      reads this, mem
    {
      && 0 <= n && 0 <= h + HEADER - start && h + HEADER - start + n <= mem.Length
      && forall x :: h + HEADER - start <= x < h + HEADER - start + n ==> mem[x] == old(mem[x])
    }

    /** Grow into the free neighbour: its header moves up. */
    method GrowInPlace(h: int, newSize: int, ghost k: nat, ghost j: nat)
      requires Valid() && k + 2 < |blocks| && blocks[k] == h && h in used && h != start + poolSize - HEADER
      requires j < |frees| && frees[j] == blocks[k + 1]
      requires newSize % ALIGN == 0
      requires h in next && next[h] == blocks[k + 1] && next[h] in next && next[next[h]] == blocks[k + 2]
      requires SizeOf(h) < newSize && newSize + MINIALLOC < SizeOf(next[h]) + SizeOf(h)
      modifies this, mem
      ensures Valid()
      ensures used == old(used) && h in next && SizeOf(h) == newSize
      ensures Kept(old(Live()) - {h}) && SameFront(h, old(SizeOf(h)))
      ensures availableSize == old(availableSize) - (newSize - old(SizeOf(h))) && next[h] !in used
      ensures maxUsedSize == Max(old(maxUsedSize), poolSize - availableSize)
    {
      hide IsRing, WellFormed, SameBlocks, FreeBytes;
      var n := next[h];
      var a := h + HEADER + newSize;
      AtIndex(blocks, used, frees, start, poolSize, next, prev, k);
      MoveBoundary(blocks, used, frees, start, poolSize, k, j, a);
      FreshMove(blocks, used, frees, start, poolSize, k, j, a);
      availableSize := availableSize - (newSize - SizeOf(h));
      NotePeak();
      Witness();
      UnlinkFree(n, j);
      DropHeader(n, k + 1);
      NewHeader(h, a, k);
      PushFree(a);
      assert used == old(used);
      MoveKeeps(old(blocks), old(used), old(frees), start, poolSize, old(next), old(prev), next, prev, k, a,
          old(mem[..]), mem[..], old(Live()) - {h});
      AtIndex(blocks, used, frees, start, poolSize, next, prev, k);
    }

    /** Give back the tail of a used block, melting it with a free right neighbour. */
    method Shrink(h: int, newSize: int, ghost k: nat)
      requires Valid() && k + 1 < |blocks| && blocks[k] == h && h in used && h != start + poolSize - HEADER
      requires h in next && next[h] == blocks[k + 1]
      requires newSize % ALIGN == 0 && MINIALLOC <= newSize && newSize + HEADER + MINIALLOC < SizeOf(h)
      modifies this, mem
      ensures Valid()
      ensures used == old(used) && h in next && SizeOf(h) == newSize
      ensures Kept(old(Live()) - {h}) && SameFront(h, newSize)
      ensures availableSize == old(availableSize) + old(SizeOf(h)) - newSize
                                 - (if old(next[h] in used) then HEADER else 0)
      ensures next[h] !in used && maxUsedSize == old(maxUsedSize)
    {
      hide IsRing, WellFormed, SameBlocks, FreeBytes;
      var a := h + HEADER + newSize;
      AtIndex(blocks, used, frees, start, poolSize, next, prev, k);
      ghost var merge := blocks[k + 1] !in used;
      ghost var j := if merge then FreeAt(k + 1) else 0;
      ShrinkFacts(k, j, a, merge);
      CutTail(h, a, k, j, merge);
      Witness();
      CutKeeps(old(blocks), old(used), old(frees), start, poolSize, old(next), old(prev), next, prev, k, a, merge,
          old(mem[..]), mem[..], old(Live()) - {h});
      AtIndex(blocks, used, frees, start, poolSize, next, prev, k);
    }

    method CutTail(h: int, a: int, ghost k: nat, ghost j: nat, ghost merge: bool)
      requires IsRing(next, prev, blocks) && IsRing(nextFree, prevFree, [freeHeader] + frees)
      requires k + 1 < |blocks| && blocks[k] == h && h in next && next[h] == blocks[k + 1]
      requires mem.Length == poolSize && start <= a && a + HEADER <= start + poolSize
      requires merge <==> blocks[k + 1] !in used
      requires merge ==> k + 2 < |blocks| && j < |frees| && frees[j] == blocks[k + 1]
      requires a !in blocks && a !in used && a !in RemoveIf(frees, j, merge) && a != freeHeader
      modifies this`next, this`prev, this`nextFree, this`prevFree, this`blocks, this`frees, this`availableSize,
          this`used, mem
      ensures IsRing(next, prev, blocks) && IsRing(nextFree, prevFree, [freeHeader] + frees)
      ensures blocks == CutChain(old(blocks), k, a, merge) && frees == [a] + RemoveIf(old(frees), j, merge)
      ensures used == old(used)
      ensures availableSize == old(availableSize) + old(blocks)[k + 1] - a - (if merge then 0 else HEADER)
      ensures forall x :: 0 <= x < poolSize && !(a - start <= x < a - start + HEADER) ==> mem[x] == old(mem[x])
    {
      hide IsRing;
      NewHeader(h, a, k);
      assert blocks[k + 1] == a && blocks[k + 2] == old(blocks)[k + 1] && used == old(used);
      Neighbours(next, prev, blocks, k + 1);
      if next[a] !in used {
        assert blocks[k + 3] == old(blocks)[k + 2];
        Neighbours(next, prev, blocks, k + 2);
        MergeBehind(a, next[a], k + 1, j);
        assert blocks == CutChain(old(blocks), k, a, merge);
      }
      PushFree(a);
      Neighbours(next, prev, blocks, k + 1);
      availableSize := availableSize + SizeOf(a);
    }

    /** Absorb the free block f behind block i into it. */
    method MergeBehind(a: int, f: int, ghost i: nat, ghost j: nat)
      requires IsRing(next, prev, blocks) && IsRing(nextFree, prevFree, [freeHeader] + frees)
      requires i + 2 < |blocks| && blocks[i] == a && blocks[i + 1] == f && j < |frees| && frees[j] == f && f in next
      modifies this`next, this`prev, this`nextFree, this`prevFree, this`blocks, this`frees, this`availableSize
      ensures IsRing(next, prev, blocks) && IsRing(nextFree, prevFree, [freeHeader] + frees)
      ensures blocks == RemoveAt(old(blocks), i + 1) && frees == RemoveAt(old(frees), j)
      ensures availableSize == old(availableSize) - (old(blocks)[i + 2] - f - HEADER)
    {
      hide IsRing;
      Neighbours(next, prev, blocks, i + 1);
      availableSize := availableSize - SizeOf(f);
      DropHeader(f, i + 1);
      UnlinkFree(f, j);
    }

    lemma ShrinkFacts(k: nat, j: nat, a: int, merge: bool)
      requires Valid() && k + 1 < |blocks| && blocks[k] in used
      requires merge <==> blocks[k + 1] !in used
      requires merge ==> j < |frees| && frees[j] == blocks[k + 1]
      requires a % ALIGN == 0 && blocks[k] + HEADER + MINIALLOC <= a && a + HEADER + MINIALLOC <= blocks[k + 1]
      ensures merge ==> k + 2 < |blocks|
      ensures a !in blocks && a !in used && a !in RemoveIf(frees, j, merge)
      ensures start < a && a + HEADER < start + poolSize
      ensures
        var c := CutChain(blocks, k, a, merge);
        && WellFormed(c, used, [a] + RemoveIf(frees, j, merge), start, poolSize)
        && FreeBytes(c, used) == FreeBytes(blocks, used) + blocks[k + 1] - a - (if merge then 0 else HEADER)
    {
      hide IsRing, WellFormed, FreeBytes;
      UsedFacts(blocks, used, frees, start, poolSize, k);
      if merge {
        Absent(blocks, used, frees, start, poolSize, k, a);
        AtMove(blocks, used, frees, start, poolSize, k);
        MoveBoundary(blocks, used, frees, start, poolSize, k, j, a);
        FreshMove(blocks, used, frees, start, poolSize, k, j, a);
      } else {
        GiveBack(blocks, used, frees, start, poolSize, k, a);
        Absent(blocks, used, frees, start, poolSize, k, a);
      }
    }

    /** n bytes from the front of block h, as they were, are now at the front of block g. */
    twostate predicate Moved(h: int, g: int, n: int)
      reads this, mem
    {
      && 0 <= n && 0 <= h + HEADER - start && h + HEADER - start + n <= mem.Length
      && 0 <= g + HEADER - start && g + HEADER - start + n <= mem.Length
      && forall x :: g + HEADER - start <= x < g + HEADER - start + n ==> mem[x] == old(mem[x - g + h])
    }

    /** What the release of block h gives back once block g was handed out: its payload, and a header for every
        neighbour that is free by then. In front of h this may be what is left over of g. */
    static ghost function Regained(used: set<int>, next: Links, prev: Links, h: int, g: int, need: int): int
      requires h in next && h in prev && g in next
    {
      var left := if next[g] == h && Splits(next[g] - g - HEADER, need) then true else prev[h] !in used + {g};
      var right := next[h] !in used + {g};
      next[h] - h - HEADER + (if left then HEADER else 0) + (if right then HEADER else 0)
    }

    /** While a block moves both copies are in use, and max_used_size remembers that. */
    ghost predicate PeakWhileMoving(peakBefore: int, available: int, nextBefore: Links, g: int, need: int)
      reads this
    {
      g in nextBefore && maxUsedSize == Max(peakBefore, poolSize - available + Charge(nextBefore[g] - g - HEADER, need))
    }

    /** Grow by moving: allocate, copy, release the old block. A failed allocation changes nothing. */
    method MoveBlock(ptr: int, need: nat, oldSize: nat) returns (r: int)
      requires Valid() && ptr - HEADER in Live() && ptr - HEADER in next && SizeOf(ptr - HEADER) == oldSize
      requires oldSize < need && RoundUp(need) == need && need + ALIGN - 1 < 0x1_0000_0000
      modifies this, mem
      ensures Valid()
      ensures r == NULL <==> old(NoFit(need))
      ensures r == NULL ==> unchanged(this) && unchanged(mem)
      ensures r != NULL ==>
        && r - HEADER !in old(Live()) && Live() == old(Live()) - {ptr - HEADER} + {r - HEADER}
        && r - HEADER in next && need <= SizeOf(r - HEADER) < need + HEADER + MINIALLOC
        && r - HEADER in old(next) && ptr - HEADER in old(prev)
        && availableSize == old(availableSize) - Charge(old(SizeOf(r - HEADER)), need)
             + Regained(old(used), old(next), old(prev), ptr - HEADER, r - HEADER, need)
        && Moved(ptr - HEADER, r - HEADER, oldSize)
        && PeakWhileMoving(old(maxUsedSize), old(availableSize), old(next), r - HEADER, need)
      ensures Kept(old(Live()) - {ptr - HEADER})
    {
      hide IsRing, WellFormed, SameBlocks, FreeBytes, FirstFit, RoundUp, Valid, NoFit;
      ghost var h, live := ptr - HEADER, Live();
      HeaderKnown(h);
      r := Alloc(need);
      ghost var next1, m1 := next, mem[..];
      SameBlocksSub(live, live - {h}, old(next), next, old(mem[..]), m1, start);
      if r != NULL {
        ghost var g := r - HEADER;
        SameBlockAt(live, old(next), next, old(mem[..]), m1, start, h);
        Relocate(ptr, r, oldSize);
        SameBlocksSub(live + {g} - {h} - {g}, live - {h}, next1, next, m1, mem[..], start);
        SameBlocksChain(live - {h}, old(next), next1, next, old(mem[..]), m1, mem[..], start);
      }
    }

    /** The contents of one block go to the front of another, and the first is released. */
    method Relocate(ptr: int, r: int, oldSize: nat)
      requires Valid() && ptr != r && ptr - HEADER in Live() && r - HEADER in Live() && ptr - HEADER in next
      requires r - HEADER in next
      requires SizeOf(ptr - HEADER) == oldSize <= SizeOf(r - HEADER)
      modifies this, mem
      ensures Valid() && Live() == old(Live()) - {ptr - HEADER}
      ensures r - HEADER in next && SizeOf(r - HEADER) == old(SizeOf(r - HEADER))
      ensures Moved(ptr - HEADER, r - HEADER, oldSize)
      ensures maxUsedSize == old(maxUsedSize)
      ensures old(ptr - HEADER in prev) && availableSize == old(availableSize) + oldSize
        + (if old(prev[ptr - HEADER] !in used) then HEADER else 0)
        + (if old(next[ptr - HEADER] !in used) then HEADER else 0)
      ensures Kept(old(Live()) - {ptr - HEADER} - {r - HEADER})
    {
      hide Valid, SameBlocks;
      ghost var h, g, live := ptr - HEADER, r - HEADER, Live();
      ghost var next1, m1 := next, mem[..];
      CopyBlock(ptr, r, oldSize);
      ghost var m2 := mem[..];
      SameBlocksSub(live - {g}, live - {h} - {g}, next1, next1, m1, m2, start);
      Free(ptr);
      SameBlocksSub(live - {h}, live - {h} - {g}, next1, next, m2, mem[..], start);
      SameBlockAt(live - {h}, next1, next, m2, mem[..], start, g);
      SameBlocksChain(live - {h} - {g}, next1, next1, next, m1, m2, mem[..], start);
    }

    /** The copy touches the target block only. */
    method CopyBlock(ptr: int, r: int, oldSize: nat)
      requires Valid() && ptr != r && ptr - HEADER in Live() && r - HEADER in Live() && ptr - HEADER in next
      requires r - HEADER in next
      requires SizeOf(ptr - HEADER) == oldSize <= SizeOf(r - HEADER)
      modifies mem
      ensures Valid() && Moved(ptr - HEADER, r - HEADER, oldSize) && ptr != NULL
      ensures SameBlocks(Live() - {r - HEADER}, next, next, old(mem[..]), mem[..], start)
    {
      hide IsRing, WellFormed, SameBlocks, FreeBytes;
      ghost var h, g := ptr - HEADER, r - HEADER;
      ghost var m1 := mem[..];
      PayloadsApart(blocks, used, frees, start, poolSize, next, prev, h, g);
      MemCopy(mem, start, r - start, ptr - start, oldSize);
      WriteKeeps(blocks, used, frees, start, poolSize, next, prev, g, oldSize, m1, mem[..], Live() - {g});
    }

    /** Calls of other threads, none of which frees a block of `mine`: those blocks keep their size and their bytes. */
    method Others(calls: seq<Call>, mine: set<int>)
      requires Valid() && mine <= Live()
      modifies this, mem
      ensures Valid() && mine <= Live()
      ensures SameBlocks(mine, old(next), next, old(mem[..]), mem[..], start)
    {
      hide Valid, SameBlocks, RoundUp, FirstFit;
      Unmoved(mine);
      for i := 0 to |calls|
        invariant Valid() && mine <= Live()
        invariant SameBlocks(mine, old(next), next, old(mem[..]), mem[..], start)
      {
        ghost var next1, m1 := next, mem[..];
        OneCall(calls[i], mine);
        SameBlocksChain(mine, old(next), next1, next, old(mem[..]), m1, mem[..], start);
      }
    }

    lemma Unmoved(mine: set<int>)
      requires Valid() && mine <= Live()
      ensures SameBlocks(mine, next, next, mem[..], mem[..], start)
    {
      SteadyKeeps(blocks, used, frees, start, poolSize, next, prev, mem[..], mine);
    }

    lemma HeaderKnown(h: int)
      requires Valid() && h in Live()
      ensures h in next && h in prev && h > 0
    {
      ghost var k := IndexOfUsed(blocks, used, frees, start, poolSize, h);
      AroundUsed(blocks, used, frees, start, poolSize, next, prev, k);
    }

    /** Another thread's call; without a block, a realloc is an allocation. */
    method OneCall(call: Call, mine: set<int>)
      requires Valid() && mine <= Live()
      modifies this, mem
      ensures Valid() && mine <= Live()
      ensures SameBlocks(mine, old(next), next, old(mem[..]), mem[..], start)
      ensures call.AllocCall? && call.size + ALIGN - 1 < 0x1_0000_0000 && !old(NoFit(RoundUp(call.size))) ==>
        exists h :: h !in old(Live()) && Live() == old(Live()) + {h}
      ensures call.FreeCall? && call.ptr - HEADER in old(Live()) - mine ==> Live() == old(Live()) - {call.ptr - HEADER}
    {
      hide Valid, SameBlocks, RoundUp, FirstFit, NoFit;
      Unmoved(mine);
      ghost var live := Live();
      match call {
        case AllocCall(size) =>
          if size + ALIGN - 1 < 0x1_0000_0000 {
            var r := Alloc(size);
            SameBlocksSub(live, mine, old(next), next, old(mem[..]), mem[..], start);
          }
        case FreeCall(ptr) =>
          if ptr - HEADER in Live() - mine {
            HeaderKnown(ptr - HEADER);
            Free(ptr);
            SameBlocksSub(live - {ptr - HEADER}, mine, old(next), next, old(mem[..]), mem[..], start);
          }
        case ReallocCall(ptr, size) =>
          if ptr - HEADER in Live() - mine && size + 2 * ALIGN < 0x1_0000_0000 {
            HeaderKnown(ptr - HEADER);
            var r := Realloc(ptr, size);
            SameBlocksSub(live - {ptr - HEADER}, mine, old(next), next, old(mem[..]), mem[..], start);
          }
      }
    }

    /** Moving a block as the code does it: the heap is unlocked before the allocation, between the allocation and the
        copy and before the release, and other threads use it. The bytes still arrive. */
    method MoveAmong(ptr: int, need: nat, oldSize: nat, first: seq<Call>, second: seq<Call>, third: seq<Call>)
        returns (r: int)
      requires Valid() && ptr - HEADER in Live() && ptr - HEADER in next && SizeOf(ptr - HEADER) == oldSize
      requires oldSize < need && RoundUp(need) == need && need + ALIGN - 1 < 0x1_0000_0000
      modifies this, mem
      ensures Valid()
      ensures r == NULL ==>
        && ptr - HEADER in Live()
        && SameBlocks({ptr - HEADER}, old(next), next, old(mem[..]), mem[..], start)
      ensures r != NULL ==>
        && r != ptr && r - HEADER in Live() && ptr - HEADER !in Live()
        && r - HEADER in next && SizeOf(r - HEADER) >= need
        && Moved(ptr - HEADER, r - HEADER, oldSize)
    {
      hide Valid, SameBlocks, RoundUp, FirstFit;
      var h := ptr - HEADER;
      Others(first, {h});
      ghost var next1, m1, live1 := next, mem[..], Live();
      r := Alloc(need);
      SameBlocksSub(live1, {h}, next1, next, m1, mem[..], start);
      SameBlocksChain({h}, old(next), next1, next, old(mem[..]), m1, mem[..], start);
      if r != NULL {
        ghost var next2, m2 := next, mem[..];
        CarryOver(ptr, r, need, oldSize, second, third);
        SameBlockAt({h}, old(next), next2, old(mem[..]), m2, start, h);
      }
    }

    /** From a new block in hand to the release of the old one. */
    method CarryOver(ptr: int, r: int, need: nat, oldSize: nat, second: seq<Call>, third: seq<Call>)
      requires Valid() && ptr != r && ptr - HEADER in Live() && r - HEADER in Live() && ptr - HEADER in next
      requires r - HEADER in next
      requires SizeOf(ptr - HEADER) == oldSize < need <= SizeOf(r - HEADER)
      modifies this, mem
      ensures Valid() && r - HEADER in Live() && ptr - HEADER !in Live()
      ensures r - HEADER in next && SizeOf(r - HEADER) >= need
      ensures Moved(ptr - HEADER, r - HEADER, oldSize)
    {
      hide Valid, SameBlocks;
      var h, g := ptr - HEADER, r - HEADER;
      Others(second, {h, g});
      ghost var next1, m1 := next, mem[..];
      SameBlockAt({h, g}, old(next), next, old(mem[..]), m1, start, h);
      SameBlockAt({h, g}, old(next), next, old(mem[..]), m1, start, g);
      CopyBlock(ptr, r, oldSize);
      ghost var m2 := mem[..];
      Others(third, {h, g});
      ghost var next3, m3, live3 := next, mem[..], Live();
      SameBlockAt({h, g}, next1, next3, m2, m3, start, g);
      Free(ptr);
      SameBlockAt(live3 - {h}, next3, next, m3, mem[..], start, g);
    }

    /** The free block behind h is large enough to take the growth and still be a block. */
    ghost predicate RoomBehind(h: int, need: int)
      reads this
    {
      && h in next && next[h] in next && next[h] !in used
      && need + MINIALLOC < SizeOf(next[h]) + SizeOf(h)
    }

    /** Block h became block g of at least `need` bytes: grown in place, shrunk, left alone or moved. */
    twostate predicate Resized(h: int, g: int, need: int)
      reads this
    {
      && old(h in next && h in prev && g in next) && g in next
      && var was := old(SizeOf(h));
      && need <= SizeOf(g) <= need + HEADER + MINIALLOC
      && (g == h <==> need <= was || old(RoomBehind(h, need)))
      && (g == h && need > was ==>
            SizeOf(h) == need && next[h] !in used && availableSize == old(availableSize) - (need - was))
      && (need + HEADER + MINIALLOC < was ==>
            && SizeOf(h) == need && next[h] !in used
            && availableSize == old(availableSize) + was - need - (if old(next[h] in used) then HEADER else 0))
      && (need <= was <= need + HEADER + MINIALLOC ==>
            next == old(next) && prev == old(prev) && frees == old(frees) && availableSize == old(availableSize))
      && (g != h ==> availableSize == old(availableSize) - Charge(old(SizeOf(g)), need)
                                      + Regained(old(used), old(next), old(prev), h, g, need))
    }

    /** rt_memheap_realloc on a block that is handed out and a non-zero size: grown in place, grown
        by moving, left alone or shrunk. The leading bytes survive; so does every other block; a
        failure leaves the heap untouched and happens exactly when the block has to grow, cannot
        grow in place and no free block fits. */
    method Resize(ptr: int, size: nat) returns (r: int)
      requires Valid() && ptr - HEADER in Live() && ptr - HEADER in next
      requires 0 < size && size + 2 * ALIGN < 0x1_0000_0000
      modifies this, mem
      ensures Valid()
      ensures r == NULL ==> unchanged(this) && unchanged(mem)
      ensures r == NULL <==>
        && RoundUp(size) > old(SizeOf(ptr - HEADER)) && !old(RoomBehind(ptr - HEADER, RoundUp(size)))
        && old(NoFit(RoundUp(size)))
      ensures r != NULL ==>
        && (r == ptr || r - HEADER !in old(Live())) && Live() == old(Live()) - {ptr - HEADER} + {r - HEADER}
        && r - HEADER in next && Resized(ptr - HEADER, r - HEADER, RoundUp(size))
        && (if r == ptr then maxUsedSize == Max(old(maxUsedSize), poolSize - availableSize)
            else PeakWhileMoving(old(maxUsedSize), old(availableSize), old(next), r - HEADER, RoundUp(size)))
        && Moved(ptr - HEADER, r - HEADER, Min(old(SizeOf(ptr - HEADER)), RoundUp(size)))
      ensures Kept(old(Live()) - {ptr - HEADER})
    {
      RoundUpTwice(size);
      hide IsRing, WellFormed, SameBlocks, FreeBytes, RoundUp, NoFit;
      var need := RoundUp(size);
      var h := ptr - HEADER;
      ghost var k := IndexOfUsed(blocks, used, frees, start, poolSize, h);
      AroundUsed(blocks, used, frees, start, poolSize, next, prev, k);
      AtIndex(blocks, used, frees, start, poolSize, next, prev, k);
      SteadyKeeps(blocks, used, frees, start, poolSize, next, prev, mem[..], Live() - {h});
      Neighbours(next, prev, blocks, k + 1);
      var oldSize := SizeOf(h);
      r := ptr;
      if need > oldSize {
        var n := next[h];
        if n !in used && SizeOf(n) + oldSize > need + MINIALLOC {
          GrowInPlace(h, need, k, FreeAt(k + 1));
        } else {
          r := MoveBlock(ptr, need, oldSize);
        }
      } else if need + HEADER + MINIALLOC < oldSize {
        Shrink(h, need, k);
      }
      assert r == ptr ==> Live() == old(Live()) - {h} + {r - HEADER};
    }

    /** rt_memheap_realloc: a zero size frees, a null pointer allocates. */
    method Realloc(ptr: int, size: nat) returns (r: int)
      requires Valid() && (ptr == NULL || (ptr - HEADER in Live() && ptr - HEADER in next))
      requires size + 2 * ALIGN < 0x1_0000_0000
      modifies this, mem
      ensures Valid()
      ensures Kept(old(Live()) - {ptr - HEADER})
      ensures size == 0 ==> r == NULL && (ptr != NULL ==> Live() == old(Live()) - {ptr - HEADER})
      ensures size > 0 && r == NULL ==> unchanged(this) && unchanged(mem)
      ensures size > 0 ==> (r == NULL <==>
        && (ptr != NULL ==> RoundUp(size) > old(SizeOf(ptr - HEADER)) && !old(RoomBehind(ptr - HEADER, RoundUp(size))))
        && old(NoFit(RoundUp(size))))
      ensures size == 0 ==> maxUsedSize == old(maxUsedSize)
      ensures size == 0 && ptr != NULL ==>
        && ptr - HEADER in old(prev)
        && availableSize == old(availableSize + SizeOf(ptr - HEADER))
             + (if old(prev[ptr - HEADER] !in used) then HEADER else 0)
             + (if old(next[ptr - HEADER] !in used) then HEADER else 0)
      ensures size > 0 && r != NULL ==>
        if r == ptr || ptr == NULL then maxUsedSize == Max(old(maxUsedSize), poolSize - availableSize)
        else PeakWhileMoving(old(maxUsedSize), old(availableSize), old(next), r - HEADER, RoundUp(size))
      ensures size > 0 && r != NULL ==>
        && (r == ptr || r - HEADER !in old(Live()))
        && Live() == old(Live()) - (if ptr == NULL then {} else {ptr - HEADER}) + {r - HEADER}
        && r - HEADER in next && RoundUp(size) <= SizeOf(r - HEADER) <= RoundUp(size) + HEADER + MINIALLOC
        && (ptr != NULL ==> Resized(ptr - HEADER, r - HEADER, RoundUp(size)))
        && (ptr == NULL ==>
              && r - HEADER in old(next)
              && availableSize == old(availableSize) - Charge(old(SizeOf(r - HEADER)), RoundUp(size)))
        && (ptr != NULL ==> Moved(ptr - HEADER, r - HEADER, Min(old(SizeOf(ptr - HEADER)), RoundUp(size))))
    {
      RoundUpTwice(size);
      hide Valid, IsRing, WellFormed, SameBlocks, FreeBytes, FirstFit, RoundUp, RoomBehind, NoFit, Charge, Max;
      if size == 0 {
        Free(ptr);
        return NULL;
      }
      if ptr == NULL {
        ghost var live := Live();
        r := Alloc(RoundUp(size));
        SameBlocksSub(live, live - {ptr - HEADER}, old(next), next, old(mem[..]), mem[..], start);
      } else {
        r := Resize(ptr, size);
      }
    }
  }

  /** The only free block of a fresh heap holds the request exactly, and the allocation is refused all the same. */
  method ExactFitRefused(start: int, size: nat, freeHeader: int) returns (heap: MemHeap, r: int)
    requires start > 0 && start % ALIGN == 0 && 2 * HEADER + MINIALLOC <= size < 0x1_0000_0000
    requires !(start <= freeHeader < start + size)
    ensures fresh(heap) && heap.Valid() && r == NULL
    ensures heap.frees == [start] && start in heap.next && heap.SizeOf(start) == RoundUp(heap.poolSize - 2 * HEADER)
  {
    heap := new MemHeap(start, size, freeHeader);
    Neighbours(heap.next, heap.prev, heap.blocks, 0);
    r := heap.Alloc(heap.poolSize - 2 * HEADER);
  }

  function Min(a: int, b: int): (r: int)
    ensures r <= a && r <= b && (r == a || r == b)
  {
    if a < b then a else b
  }

  /** Rounding an already rounded request changes nothing, so realloc may pass it on to alloc. */
  lemma RoundUpTwice(size: nat)
    ensures RoundUp(RoundUp(size)) == RoundUp(size) && RoundUp(size) <= size + MINIALLOC
    ensures size + 2 * ALIGN < 0x1_0000_0000 ==> RoundUp(size) + ALIGN - 1 < 0x1_0000_0000
  {
  }

  /** h is the first header of the free list whose block holds size bytes. It leaves the list, and what it leaves over
      goes to the front. */
  ghost predicate FirstFit(frees: seq<int>, next: Links, size: int, h: int, frees': seq<int>) {
    exists j ::
      && 0 <= j < |frees| && frees[j] == h && h in next && next[h] - h - HEADER >= size
      && (forall i :: 0 <= i < j ==> frees[i] in next && next[frees[i]] - frees[i] - HEADER < size)
      && frees' == (if Splits(next[h] - h - HEADER, size) then [h + HEADER + size] else []) + RemoveAt(frees, j)
  }
}
