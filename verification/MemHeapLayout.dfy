/** The block layout of memheap.c as values: which addresses carry a block header, which of them
    are in use, and in which order the free list visits the others. */
module MemHeapLayout {
  import opened ChainList
  import opened Ring

  const ALIGN: int := 4        // RT_ALIGN_SIZE
  const HEADER: int := 24      // RT_MEMHEAP_SIZE, six 32-bit words
  const MINIALLOC: int := 12   // RT_MEMHEAP_MINIALLOC

  /** The headers tile the pool: the first sits at the pool start, the last is the tailer, every
      header is aligned and every payload but the tailer's holds at least MINIALLOC bytes. */
  ghost predicate Tiles(b: seq<int>, start: int, pool: int) {
    && |b| >= 2
    && b[0] == start
    && b[|b| - 1] == start + pool - HEADER
    && (forall i :: 0 <= i < |b| ==> b[i] % ALIGN == 0)
    && (forall i, j :: 0 <= i < j < |b| ==> b[i] + HEADER + MINIALLOC <= b[j])
  }

  ghost predicate Coalesced(b: seq<int>, used: set<int>) {
    forall i :: 0 <= i < |b| - 1 ==> b[i] in used || b[i + 1] in used
  }

  ghost predicate FreeIndex(b: seq<int>, used: set<int>, frees: seq<int>) {
    && NoDup(frees)
    && (forall x :: x in frees <==> x in b && x !in used)
  }

  ghost predicate WellFormed(b: seq<int>, used: set<int>, frees: seq<int>, start: int, pool: int) {
    && Tiles(b, start, pool)
    && b[|b| - 1] in used
    && (forall x :: x in used ==> x in b)
    && Coalesced(b, used)
    && FreeIndex(b, used, frees)
  }

  // ---------------------------------------------------------------- byte counts

  /** Payload bytes of the free blocks of a chain (the last header of b closes the chain). */
  function FreeBytes(b: seq<int>, used: set<int>): int {
    if |b| < 2 then 0
    else (if b[0] in used then 0 else b[1] - b[0] - HEADER) + FreeBytes(b[1..], used)
  }

  function UsedBytes(b: seq<int>, used: set<int>): int {
    if |b| < 2 then 0
    else (if b[0] in used then b[1] - b[0] - HEADER else 0) + UsedBytes(b[1..], used)
  }

  /** Conservation: the pool is its used payloads, its free payloads and one header per block. */
  lemma {:induction false} PoolConserved(b: seq<int>, used: set<int>)
    requires |b| > 0
    ensures UsedBytes(b, used) + FreeBytes(b, used) + HEADER * |b| == b[|b| - 1] - b[0] + HEADER
  {
    if |b| >= 2 {
      PoolConserved(b[1..], used);
    }
  }

  lemma {:induction false} FreeBytesSplit(b: seq<int>, used: set<int>, i: nat)
    requires i < |b|
    ensures FreeBytes(b, used) == FreeBytes(b[..i + 1], used) + FreeBytes(b[i..], used)
  {
    if i == 0 {
      assert b[0..] == b;
    } else {
      FreeBytesSplit(b[1..], used, i - 1);
      assert b[..i + 1][1..] == b[1..][..i];
      assert b[1..][i - 1..] == b[i..];
    }
  }

  lemma {:induction false} FreeBytesFrame(b: seq<int>, used: set<int>, used': set<int>)
    requires forall i :: 0 <= i < |b| - 1 ==> (b[i] in used <==> b[i] in used')
    ensures FreeBytes(b, used) == FreeBytes(b, used')
  {
    if |b| >= 2 {
      FreeBytesFrame(b[1..], used, used');
    }
  }

  lemma FreeBytesMark(b: seq<int>, used: set<int>, used': set<int>, k: nat)
    requires NoDup(b) && k + 1 < |b| && b[k] !in used && used' == used + {b[k]}
    ensures FreeBytes(b, used') == FreeBytes(b, used) - (b[k + 1] - b[k] - HEADER)
  {
    FreeBytesSplit(b, used, k);
    FreeBytesSplit(b, used', k);
    FreeBytesFrame(b[..k + 1], used, used');
    FreeBytesFrame(b[k..][1..], used, used');
  }

  /** A new free header inside block k: inside a free block it costs a header, inside a used block
      it gives back what lies behind the new header. */
  lemma FreeBytesInsert(b: seq<int>, used: set<int>, k: nat, a: int)
    requires k + 1 < |b| && a !in used
    ensures FreeBytes(InsertAt(b, k + 1, a), used) == FreeBytes(b, used) +
      (if b[k] in used then b[k + 1] - a - HEADER else -HEADER)
  {
    var c := InsertAt(b, k + 1, a);
    FreeBytesSplit(b, used, k);
    FreeBytesSplit(c, used, k);
    assert c[..k + 1] == b[..k + 1];
    assert b[k..][1..] == b[k + 1..];
    assert c[k..][1..][1..] == b[k + 1..];
  }

  lemma InsertRemove(b: seq<int>, k: nat)
    requires k < |b|
    ensures InsertAt(RemoveAt(b, k), k, b[k]) == b
  {
  }

  lemma FreeBytesRemove(b: seq<int>, used: set<int>, k: nat)
    requires 0 < k && k + 1 < |b| && b[k] !in used
    ensures FreeBytes(RemoveAt(b, k), used) == FreeBytes(b, used) +
      (if b[k - 1] in used then -(b[k + 1] - b[k] - HEADER) else HEADER)
  {
    InsertRemove(b, k);
    FreeBytesInsert(RemoveAt(b, k), used, k - 1, b[k]);
  }

  // ---------------------------------------------------------------- the layout steps

  /** Two headers that are not neighbours in address are not the same block. */
  lemma TilesNoDup(b: seq<int>, start: int, pool: int)
    requires Tiles(b, start, pool)
    ensures NoDup(b)
  {
  }

  lemma RemoveAtMembers(s: seq<int>, j: nat)
    requires j < |s| && NoDup(s)
    ensures NoDup(RemoveAt(s, j))
    ensures forall x :: x in RemoveAt(s, j) <==> x in s && x != s[j]
  {
    var r := RemoveAt(s, j);
    forall x | x in s && x != s[j] ensures x in r {
      var i :| 0 <= i < |s| && s[i] == x;
      assert r[if i < j then i else i - 1] == x;
    }
  }

  lemma InsertAtMembers(s: seq<int>, k: nat, a: int)
    requires k <= |s|
    ensures forall x :: x in InsertAt(s, k, a) <==> x in s || x == a
  {
    var r := InsertAt(s, k, a);
    assert r[k] == a;
    forall x | x in s ensures x in r {
      var i :| 0 <= i < |s| && s[i] == x;
      assert r[if i < k then i else i + 1] == x;
    }
  }

  lemma TilesBounds(b: seq<int>, start: int, pool: int, i: nat)
    requires Tiles(b, start, pool) && i < |b|
    ensures start <= b[i] <= start + pool - HEADER
    ensures i + 1 < |b| ==> b[i] + HEADER + MINIALLOC <= b[i + 1] <= start + pool - HEADER
  {
    assert i == 0 || b[0] <= b[i];
    assert i == |b| - 1 || b[i] <= b[|b| - 1];
    assert i + 1 >= |b| - 1 || b[i + 1] <= b[|b| - 1];
  }

  lemma TilesInsert(b: seq<int>, start: int, pool: int, k: nat, a: int)
    requires Tiles(b, start, pool) && k + 1 < |b|
    requires a % ALIGN == 0 && b[k] + HEADER + MINIALLOC <= a && a + HEADER + MINIALLOC <= b[k + 1]
    ensures Tiles(InsertAt(b, k + 1, a), start, pool) && a !in b
    ensures start < a && a + HEADER < start + pool
  {
    TilesBounds(b, start, pool, k);
    TilesBounds(b, start, pool, k + 1);
    var c := InsertAt(b, k + 1, a);
    forall i, j | 0 <= i < j < |c| ensures c[i] + HEADER + MINIALLOC <= c[j] {
      if j == k + 1 {
        assert c[i] == b[i] && c[j] == a && (i == k || b[i] + HEADER + MINIALLOC <= b[k]);
      } else if i == k + 1 {
        assert c[j] == b[j - 1] && (j - 1 == k + 1 || b[k + 1] + HEADER + MINIALLOC <= b[j - 1]);
      } else {
        assert c[i] == b[if i <= k then i else i - 1] && c[j] == b[if j <= k then j else j - 1];
      }
    }
  }

  lemma TilesRemove(b: seq<int>, start: int, pool: int, k: nat)
    requires Tiles(b, start, pool) && 0 < k < |b| - 1
    ensures Tiles(RemoveAt(b, k), start, pool)
  {
  }

  lemma CoalescedInsert(b: seq<int>, used: set<int>, k: nat, a: int)
    requires Coalesced(b, used) && k + 1 < |b| && b[k] in used && b[k + 1] in used
    ensures Coalesced(InsertAt(b, k + 1, a), used)
  {
    var c := InsertAt(b, k + 1, a);
    forall i | 0 <= i < |c| - 1 ensures c[i] in used || c[i + 1] in used {
      if i > k + 1 { assert c[i] == b[i - 1] && c[i + 1] == b[i]; }
    }
  }

  lemma CoalescedRemove(b: seq<int>, used: set<int>, k: nat)
    requires Coalesced(b, used) && k + 2 < |b| && b[k] in used && b[k + 1] !in used
    ensures Coalesced(RemoveAt(b, k + 1), used)
  {
    var c := RemoveAt(b, k + 1);
    forall i | 0 <= i < |c| - 1 ensures c[i] in used || c[i + 1] in used {
      if i > k { assert c[i] == b[i + 1] && c[i + 1] == b[i + 2]; }
    }
  }

  lemma FreeIndexInsert(b: seq<int>, used: set<int>, frees: seq<int>, k: nat, a: int)
    requires FreeIndex(b, used, frees) && k <= |b| && a !in b && a !in used
    ensures FreeIndex(InsertAt(b, k, a), used, [a] + frees)
  {
    InsertAtMembers(b, k, a);
  }

  lemma FreeIndexRemove(b: seq<int>, used: set<int>, frees: seq<int>, k: nat, j: nat)
    requires FreeIndex(b, used, frees) && NoDup(b) && k < |b| && j < |frees| && frees[j] == b[k]
    ensures FreeIndex(RemoveAt(b, k), used, RemoveAt(frees, j))
  {
    RemoveAtMembers(b, k);
    RemoveAtMembers(frees, j);
  }

  /** rt_memheap_alloc taking a whole block. */
  lemma TakeWhole(b: seq<int>, used: set<int>, frees: seq<int>, start: int, pool: int, k: nat, j: nat)
    requires WellFormed(b, used, frees, start, pool)
    requires j < |frees| && k < |b| && frees[j] == b[k]
    ensures WellFormed(b, used + {b[k]}, RemoveAt(frees, j), start, pool)
    ensures k + 1 < |b|
    ensures FreeBytes(b, used + {b[k]}) == FreeBytes(b, used) - (b[k + 1] - b[k] - HEADER)
  {
    RemoveAtMembers(frees, j);
    assert b[k] in frees;
    FreeBytesMark(b, used, used + {b[k]}, k);
  }

  /** rt_memheap_alloc splitting a block: the front is taken, the rest becomes a free block. */
  lemma TakeSplit(b: seq<int>, used: set<int>, frees: seq<int>, start: int, pool: int, k: nat, j: nat, a: int)
    requires WellFormed(b, used, frees, start, pool)
    requires j < |frees| && k + 1 < |b| && frees[j] == b[k]
    requires a % ALIGN == 0 && b[k] + HEADER + MINIALLOC <= a && a + HEADER + MINIALLOC <= b[k + 1]
    ensures WellFormed(InsertAt(b, k + 1, a), used + {b[k]}, [a] + RemoveAt(frees, j), start, pool)
    ensures FreeBytes(InsertAt(b, k + 1, a), used + {b[k]}) == FreeBytes(b, used) - (a - b[k] - HEADER) - HEADER
    ensures a !in b && start < a && a + HEADER < start + pool
  {
    TakeWhole(b, used, frees, start, pool, k, j);
    GiveBack(b, used + {b[k]}, RemoveAt(frees, j), start, pool, k, a);
  }

  /** The split half of rt_memheap_realloc: the tail of a used block becomes a free block of its own. */
  lemma GiveBack(b: seq<int>, used: set<int>, frees: seq<int>, start: int, pool: int, k: nat, a: int)
    requires WellFormed(b, used, frees, start, pool)
    requires k + 1 < |b| && b[k] in used && b[k + 1] in used
    requires a % ALIGN == 0 && b[k] + HEADER + MINIALLOC <= a && a + HEADER + MINIALLOC <= b[k + 1]
    ensures WellFormed(InsertAt(b, k + 1, a), used, [a] + frees, start, pool)
    ensures FreeBytes(InsertAt(b, k + 1, a), used) == FreeBytes(b, used) + (b[k + 1] - a - HEADER)
    ensures a !in b && start < a && a + HEADER < start + pool
  {
    TilesInsert(b, start, pool, k, a);
    assert a !in used;
    InsertAtMembers(b, k + 1, a);
    FreeBytesInsert(b, used, k, a);
    CoalescedInsert(b, used, k, a);
    FreeIndexInsert(b, used, frees, k + 1, a);
  }

  function MoveAt(b: seq<int>, k: nat, a: int): (r: seq<int>)
    requires k < |b|
  {
    InsertAt(RemoveAt(b, k), k, a)
  }

  /** The free block behind block k gets its header moved to a (grown or shrunk neighbour). */
  lemma MoveBoundary(b: seq<int>, used: set<int>, frees: seq<int>, start: int, pool: int, k: nat, j: nat, a: int)
    requires WellFormed(b, used, frees, start, pool)
    requires k + 2 < |b| && b[k] in used && j < |frees| && frees[j] == b[k + 1]
    requires a % ALIGN == 0 && b[k] + HEADER + MINIALLOC <= a && a + HEADER + MINIALLOC <= b[k + 2]
    ensures WellFormed(MoveAt(b, k + 1, a), used, [a] + RemoveAt(frees, j), start, pool)
    ensures FreeBytes(MoveAt(b, k + 1, a), used) == FreeBytes(b, used) + b[k + 1] - a
    ensures a !in RemoveAt(b, k + 1) && start < a && a + HEADER < start + pool
  {
    hide WellFormed, FreeBytes;
    var c := RemoveAt(b, k + 1);
    assert c[k] == b[k] && c[k + 1] == b[k + 2] && |c| == |b| - 1;
    Absorb(b, used, frees, start, pool, k, j);
    GiveBack(c, used, RemoveAt(frees, j), start, pool, k, a);
  }

  /** Dropping the free header behind block k. */
  lemma Absorb(b: seq<int>, used: set<int>, frees: seq<int>, start: int, pool: int, k: nat, j: nat)
    requires WellFormed(b, used, frees, start, pool)
    requires k + 2 < |b| && b[k] in used && j < |frees| && frees[j] == b[k + 1]
    ensures WellFormed(RemoveAt(b, k + 1), used, RemoveAt(frees, j), start, pool)
    ensures FreeBytes(RemoveAt(b, k + 1), used) == FreeBytes(b, used) - (b[k + 2] - b[k + 1] - HEADER)
    ensures b[k + 2] in used
  {
    assert b[k + 1] in frees;
    TilesRemove(b, start, pool, k + 1);
    TilesNoDup(b, start, pool);
    RemoveAtMembers(b, k + 1);
    FreeBytesRemove(b, used, k + 1);
    CoalescedRemove(b, used, k);
    FreeIndexRemove(b, used, frees, k + 1, j);
  }

  lemma CoalescedRelease(b: seq<int>, used: set<int>, k: nat)
    requires NoDup(b) && Coalesced(b, used)
    requires k + 1 < |b| && b[k + 1] in used && (k > 0 ==> b[k - 1] in used)
    ensures Coalesced(b, used - {b[k]})
  {
  }

  lemma CoalescedReleaseLeft(b: seq<int>, used: set<int>, k: nat)
    requires NoDup(b) && Coalesced(b, used)
    requires 0 < k && k + 1 < |b| && b[k + 1] in used && b[k - 1] !in used
    ensures Coalesced(RemoveAt(b, k), used - {b[k]})
  {
    var c := RemoveAt(b, k);
    forall i | 0 <= i < |c| - 1 ensures c[i] in used - {b[k]} || c[i + 1] in used - {b[k]} {
      if i >= k { assert c[i] == b[i + 1] && c[i + 1] == b[i + 2]; }
      else if i + 1 == k { assert c[i + 1] == b[k + 1]; }
      else { assert c[i] == b[i] && c[i + 1] == b[i + 1]; }
    }
  }

  lemma FreeIndexRelease(b: seq<int>, used: set<int>, frees: seq<int>, k: nat)
    requires FreeIndex(b, used, frees) && k < |b| && b[k] in used
    ensures FreeIndex(b, used - {b[k]}, [b[k]] + frees)
  {
  }

  lemma FreeIndexReleaseLeft(b: seq<int>, used: set<int>, frees: seq<int>, k: nat)
    requires FreeIndex(b, used, frees) && NoDup(b) && k < |b| && b[k] in used
    ensures FreeIndex(RemoveAt(b, k), used - {b[k]}, frees)
  {
    RemoveAtMembers(b, k);
  }

  /** rt_memheap_free when neither neighbour is free. */
  lemma ReleaseAlone(b: seq<int>, used: set<int>, frees: seq<int>, start: int, pool: int, k: nat)
    requires WellFormed(b, used, frees, start, pool)
    requires k + 1 < |b| && b[k] in used && b[k + 1] in used && (k > 0 ==> b[k - 1] in used)
    ensures WellFormed(b, used - {b[k]}, [b[k]] + frees, start, pool)
    ensures FreeBytes(b, used - {b[k]}) == FreeBytes(b, used) + (b[k + 1] - b[k] - HEADER)
  {
    var used' := used - {b[k]};
    assert used == used' + {b[k]};
    TilesNoDup(b, start, pool);
    FreeBytesMark(b, used', used, k);
    CoalescedRelease(b, used, k);
    FreeIndexRelease(b, used, frees, k);
    assert b[|b| - 1] in used';
  }

  /** rt_memheap_free when the left neighbour is free: the header of block k disappears. */
  lemma ReleaseLeft(b: seq<int>, used: set<int>, frees: seq<int>, start: int, pool: int, k: nat)
    requires WellFormed(b, used, frees, start, pool)
    requires 0 < k && k + 1 < |b| && b[k] in used && b[k + 1] in used && b[k - 1] !in used
    ensures WellFormed(RemoveAt(b, k), used - {b[k]}, frees, start, pool)
    ensures FreeBytes(RemoveAt(b, k), used - {b[k]}) == FreeBytes(b, used) + (b[k + 1] - b[k] - HEADER) + HEADER
  {
    var used' := used - {b[k]};
    assert used == used' + {b[k]};
    TilesNoDup(b, start, pool);
    TilesRemove(b, start, pool, k);
    FreeBytesMark(b, used', used, k);
    FreeBytesRemove(b, used', k);
    CoalescedReleaseLeft(b, used, k);
    FreeIndexReleaseLeft(b, used, frees, k);
    RemoveAtMembers(b, k);
    assert RemoveAt(b, k)[|b| - 2] == b[|b| - 1] && b[|b| - 1] in used';
  }

  /** Once nothing but the tailer is in use, the heap is the single initial free block again. */
  lemma AllFreed(b: seq<int>, used: set<int>, frees: seq<int>, start: int, pool: int)
    requires WellFormed(b, used, frees, start, pool) && used == {start + pool - HEADER}
    ensures b == [start, start + pool - HEADER] && frees == [start]
    ensures FreeBytes(b, used) == pool - 2 * HEADER
  {
    TilesNoDup(b, start, pool);
    TilesBounds(b, start, pool, 0);
    assert b[1] == b[|b| - 1];
    assert b == [b[0], b[1]];
    assert start in frees;
    assert frees[0] in frees && frees[|frees| - 1] in frees;
    assert frees == [start];
  }

  // ---------------------------------------------------------------- what a header write leaves alone

  /** A header written inside block k does not meet the payload of another block i. */
  lemma HeaderAway(b: seq<int>, start: int, pool: int, i: nat, k: nat, a: int)
    requires Tiles(b, start, pool) && i != k && i + 1 < |b| && k + 1 < |b|
    requires b[k] + HEADER <= a && a + HEADER <= b[k + 1]
    ensures b[i + 1] <= a || a + HEADER <= b[i] + HEADER
    ensures start <= b[i] && b[i + 1] <= start + pool - HEADER
  {
    assert i == 0 || b[0] <= b[i];
    assert i + 1 == |b| - 1 || b[i + 1] <= b[|b| - 1];
    if i < k { assert i + 1 == k || b[i + 1] <= b[k]; }
    else { assert k + 1 == i || b[k + 1] <= b[i]; }
  }

  /** Inserting a header behind block k leaves the size of every other block. */
  lemma NextInserted(next: Links, prev: Links, b: seq<int>, next': Links, prev': Links, k: nat, a: int, i: nat)
    requires IsRing(next, prev, b) && k < |b| && IsRing(next', prev', InsertAt(b, k + 1, a))
    requires i + 1 < |b| && i != k
    ensures next[b[i]] == b[i + 1] && b[i] in next' && next'[b[i]] == b[i + 1]
  {
    var c := InsertAt(b, k + 1, a);
    Neighbours(next, prev, b, i);
    var j := if i < k then i else i + 1;
    assert c[j] == b[i] && c[j + 1] == b[i + 1];
    Neighbours(next', prev', c, j);
  }

  /** Dropping the header of block k leaves the size of every block but k - 1 and k. */
  lemma NextRemoved(next: Links, prev: Links, b: seq<int>, next': Links, prev': Links, k: nat, i: nat)
    requires IsRing(next, prev, b) && 0 < k < |b| && IsRing(next', prev', RemoveAt(b, k))
    requires i + 1 < |b| && i != k && i != k - 1
    ensures next[b[i]] == b[i + 1] && b[i] in next' && next'[b[i]] == b[i + 1]
  {
    var c := RemoveAt(b, k);
    Neighbours(next, prev, b, i);
    var j := if i < k then i else i - 1;
    assert c[j] == b[i] && c[j + 1] == b[i + 1];
    Neighbours(next', prev', c, j);
  }

  /** The blocks of `keep` have the size and the payload bytes they had. */
  ghost predicate SameBlocks(keep: set<int>, next: Links, next': Links, m: seq<bv8>, m': seq<bv8>, start: int) {
    && |m| == |m'|
    && forall b :: b in keep ==>
      && b in next && b in next' && next'[b] == next[b]
      && 0 <= b + HEADER - start <= next[b] - start <= |m|
      && m'[b + HEADER - start..next[b] - start] == m[b + HEADER - start..next[b] - start]
  }

  /** What hangs together around the k-th header. */
  lemma AtIndex(b: seq<int>, used: set<int>, frees: seq<int>, start: int, pool: int, next: Links, prev: Links, k: nat)
    requires WellFormed(b, used, frees, start, pool) && IsRing(next, prev, b) && k + 1 < |b|
    ensures b[k] in next && next[b[k]] == b[k + 1]
    ensures start <= b[k] && b[k] + HEADER + MINIALLOC <= b[k + 1] <= start + pool - HEADER
    ensures b[k] % ALIGN == 0
  {
    TilesBounds(b, start, pool, k);
    Neighbours(next, prev, b, k);
  }

  lemma IndexOfUsed(b: seq<int>, used: set<int>, frees: seq<int>, start: int, pool: int, h: int) returns (k: nat)
    requires WellFormed(b, used, frees, start, pool) && h in used && h != start + pool - HEADER
    ensures k + 1 < |b| && b[k] == h
  {
    k :| 0 <= k < |b| && b[k] == h;
  }

  lemma IndexOfFree(b: seq<int>, used: set<int>, frees: seq<int>, start: int, pool: int, j: nat) returns (k: nat)
    requires WellFormed(b, used, frees, start, pool) && j < |frees|
    ensures k + 1 < |b| && b[k] == frees[j] && b[k] !in used
  {
    assert frees[j] in frees;
    k :| 0 <= k < |b| && b[k] == frees[j];
  }

  lemma FreshFree(b: seq<int>, used: set<int>, frees: seq<int>, start: int, pool: int, j: nat, a: int)
    requires WellFormed(b, used, frees, start, pool) && j < |frees| && a !in b
    ensures a !in frees && a !in used && a !in RemoveAt(frees, j)
  {
    RemoveAtMembers(frees, j);
  }

  lemma SplitKeeps(b: seq<int>, used: set<int>, frees: seq<int>, start: int, pool: int, next: Links, prev: Links,
                   next': Links, prev': Links, k: nat, a: int, m: seq<bv8>, m': seq<bv8>, keep: set<int>)
    requires WellFormed(b, used, frees, start, pool) && IsRing(next, prev, b) && k + 1 < |b|
    requires b[k] + HEADER <= a && a + HEADER <= b[k + 1]
    requires IsRing(next', prev', InsertAt(b, k + 1, a))
    requires |m| == |m'| == pool
    requires forall x :: 0 <= x < pool && !(a - start <= x < a - start + HEADER) ==> m'[x] == m[x]
    requires keep <= used - {start + pool - HEADER} && b[k] !in keep
    ensures SameBlocks(keep, next, next', m, m', start)
  {
    forall x | x in keep
      ensures x in next && x in next' && next'[x] == next[x]
      ensures 0 <= x + HEADER - start <= next[x] - start <= |m|
      ensures m'[x + HEADER - start..next[x] - start] == m[x + HEADER - start..next[x] - start]
    {
      var i := IndexOfUsed(b, used, frees, start, pool, x);
      NextInserted(next, prev, b, next', prev', k, a, i);
      HeaderAway(b, start, pool, i, k, a);
      TilesBounds(b, start, pool, i);
    }
  }

  lemma DropKeeps(b: seq<int>, used: set<int>, frees: seq<int>, start: int, pool: int, next: Links, prev: Links,
                  next': Links, prev': Links, k: nat, m: seq<bv8>, keep: set<int>)
    requires WellFormed(b, used, frees, start, pool) && IsRing(next, prev, b) && 0 < k < |b| - 1
    requires IsRing(next', prev', RemoveAt(b, k))
    requires |m| == pool
    requires keep <= used - {start + pool - HEADER} && b[k] !in keep && b[k - 1] !in keep
    ensures SameBlocks(keep, next, next', m, m, start)
  {
    forall x | x in keep
      ensures x in next && x in next' && next'[x] == next[x]
      ensures 0 <= x + HEADER - start <= next[x] - start <= |m|
    {
      var i := IndexOfUsed(b, used, frees, start, pool, x);
      NextRemoved(next, prev, b, next', prev', k, i);
      TilesBounds(b, start, pool, i);
    }
  }

  /** A block nobody touches keeps its bounds. */
  lemma SteadyKeeps(b: seq<int>, used: set<int>, frees: seq<int>, start: int, pool: int, next: Links, prev: Links,
                    m: seq<bv8>, keep: set<int>)
    requires WellFormed(b, used, frees, start, pool) && IsRing(next, prev, b) && |m| == pool
    requires keep <= used - {start + pool - HEADER}
    ensures SameBlocks(keep, next, next, m, m, start)
  {
    forall x | x in keep
      ensures x in next
      ensures 0 <= x + HEADER - start <= next[x] - start <= |m|
    {
      var i := IndexOfUsed(b, used, frees, start, pool, x);
      AtIndex(b, used, frees, start, pool, next, prev, i);
    }
  }

  lemma SameBlocksChain(keep: set<int>, next: Links, next1: Links, next2: Links, m: seq<bv8>, m1: seq<bv8>,
                        m2: seq<bv8>, start: int)
    requires SameBlocks(keep, next, next1, m, m1, start) && SameBlocks(keep, next1, next2, m1, m2, start)
    ensures SameBlocks(keep, next, next2, m, m2, start)
  {
  }

  /** rt_memheap_free when only the right neighbour is free. */
  lemma ReleaseRight(b: seq<int>, used: set<int>, frees: seq<int>, start: int, pool: int, k: nat, j: nat)
    requires WellFormed(b, used, frees, start, pool)
    requires k + 2 < |b| && b[k] in used && j < |frees| && frees[j] == b[k + 1] && (k > 0 ==> b[k - 1] in used)
    ensures WellFormed(RemoveAt(b, k + 1), used - {b[k]}, [b[k]] + RemoveAt(frees, j), start, pool)
    ensures FreeBytes(RemoveAt(b, k + 1), used - {b[k]}) == FreeBytes(b, used) + (b[k + 1] - b[k] - HEADER) + HEADER
  {
    hide WellFormed, FreeBytes;
    var c := RemoveAt(b, k + 1);
    assert c[k] == b[k] && c[k + 1] == b[k + 2] && (k > 0 ==> c[k - 1] == b[k - 1]) && |c| == |b| - 1;
    Absorb(b, used, frees, start, pool, k, j);
    ReleaseAlone(c, used, RemoveAt(frees, j), start, pool, k);
  }

  /** rt_memheap_free when both neighbours are free: two headers disappear. */
  lemma ReleaseBoth(b: seq<int>, used: set<int>, frees: seq<int>, start: int, pool: int, k: nat, j: nat)
    requires WellFormed(b, used, frees, start, pool)
    requires 0 < k && k + 2 < |b| && b[k] in used && j < |frees| && frees[j] == b[k + 1] && b[k - 1] !in used
    ensures WellFormed(RemoveAt(RemoveAt(b, k), k), used - {b[k]}, RemoveAt(frees, j), start, pool)
    ensures FreeBytes(RemoveAt(RemoveAt(b, k), k), used - {b[k]}) ==
            FreeBytes(b, used) + (b[k + 1] - b[k] - HEADER) + 2 * HEADER
  {
    hide WellFormed, FreeBytes;
    var c := RemoveAt(b, k + 1);
    assert c[k] == b[k] && c[k + 1] == b[k + 2] && c[k - 1] == b[k - 1] && |c| == |b| - 1;
    Absorb(b, used, frees, start, pool, k, j);
    ReleaseLeft(c, used, RemoveAt(frees, j), start, pool, k);
    assert RemoveAt(c, k) == RemoveAt(RemoveAt(b, k), k);
  }

  /** Dropping the headers k and k + 1 leaves the size and the bytes of every block elsewhere. */
  lemma DropBothKeeps(b: seq<int>, used: set<int>, frees: seq<int>, start: int, pool: int, next: Links, prev: Links,
                      next': Links, prev': Links, k: nat, m: seq<bv8>, keep: set<int>)
    requires WellFormed(b, used, frees, start, pool) && IsRing(next, prev, b) && 0 < k < |b| - 2
    requires IsRing(next', prev', RemoveAt(RemoveAt(b, k), k))
    requires |m| == pool
    requires keep <= used - {start + pool - HEADER} && b[k + 1] !in keep && b[k] !in keep && b[k - 1] !in keep
    ensures SameBlocks(keep, next, next', m, m, start)
  {
    var c := RemoveAt(RemoveAt(b, k), k);
    forall x | x in keep
      ensures x in next && x in next' && next'[x] == next[x]
      ensures 0 <= x + HEADER - start <= next[x] - start <= |m|
    {
      var i := IndexOfUsed(b, used, frees, start, pool, x);
      AtIndex(b, used, frees, start, pool, next, prev, i);
      var i' := if i < k then i else i - 2;
      assert c[i'] == b[i] && c[i' + 1] == b[i + 1];
      Neighbours(next', prev', c, i');
    }
  }

  /** The free list position of every unused header, and what the neighbours of block k look like. */
  lemma AroundUsed(b: seq<int>, used: set<int>, frees: seq<int>, start: int, pool: int, next: Links, prev: Links,
                   k: nat)
    requires WellFormed(b, used, frees, start, pool) && IsRing(next, prev, b) && k + 1 < |b| && b[k] in used
    ensures b[k] in next && next[b[k]] == b[k + 1] && b[k] in prev
    ensures k > 0 ==> prev[b[k]] == b[k - 1]
    ensures k == 0 ==> prev[b[k]] in used && prev[b[k]] != b[k]
    ensures k > 0 ==> b[k - 1] != b[k]
    ensures b[k + 1] != b[k] && (k > 0 ==> b[k + 1] != b[k - 1])
    ensures k > 0 && b[k - 1] !in used ==> b[k - 1] in frees
    ensures b[k + 1] !in used ==> k + 2 < |b|
    ensures b[k] !in frees && start <= b[k] < start + pool
  {
    Neighbours(next, prev, b, k);
    TilesNoDup(b, start, pool);
    TilesBounds(b, start, pool, k);
  }

  function RemoveIf(s: seq<int>, j: nat, drop: bool): (r: seq<int>)
    requires drop ==> j < |s|
  {
    if drop then RemoveAt(s, j) else s
  }

  /** The free list after block h melted into its free neighbours. */
  function FreedList(frees: seq<int>, h: int, j: nat, left: bool, right: bool): (r: seq<int>)
    requires right ==> j < |frees|
  {
    if left then RemoveIf(frees, j, right) else [h] + RemoveIf(frees, j, right)
  }

  /** The chain after block k melted into its free neighbours. */
  function FreedChain(b: seq<int>, k: nat, left: bool, right: bool): (r: seq<int>)
    requires k < |b| && (left ==> k > 0) && (right ==> k + 2 < |b|)
  {
    var c := if left then RemoveAt(b, k) else b;
    if right then RemoveAt(c, if left then k else k + 1) else c
  }

  lemma UsedFacts(b: seq<int>, used: set<int>, frees: seq<int>, start: int, pool: int, k: nat)
    requires WellFormed(b, used, frees, start, pool) && k + 1 < |b| && b[k] in used
    ensures b[k] !in frees && (b[k + 1] !in used ==> k + 2 < |b|)
  {
  }

  lemma FreedKeeps(b: seq<int>, used: set<int>, frees: seq<int>, start: int, pool: int, next: Links, prev: Links,
                   next': Links, prev': Links, k: nat, left: bool, right: bool, m: seq<bv8>, keep: set<int>)
    requires WellFormed(b, used, frees, start, pool) && IsRing(next, prev, b)
    requires k + 1 < |b| && (left ==> k > 0 && b[k - 1] !in used) && (right ==> k + 2 < |b| && b[k + 1] !in used)
    requires IsRing(next', prev', FreedChain(b, k, left, right))
    requires |m| == pool && keep <= used - {start + pool - HEADER} && b[k] !in keep
    ensures SameBlocks(keep, next, next', m, m, start)
  {
    hide WellFormed, IsRing;
    if left && right { DropBothKeeps(b, used, frees, start, pool, next, prev, next', prev', k, m, keep); }
    else if left { DropKeeps(b, used, frees, start, pool, next, prev, next', prev', k, m, keep); }
    else if right { DropKeeps(b, used, frees, start, pool, next, prev, next', prev', k + 1, m, keep); }
    else {
      forall x | x in keep
        ensures x in next && x in next' && next'[x] == next[x]
        ensures 0 <= x + HEADER - start <= next[x] - start <= |m|
      {
        var i := IndexOfUsed(b, used, frees, start, pool, x);
        AtIndex(b, used, frees, start, pool, next, prev, i);
        AtIndex(b, used, frees, start, pool, next', prev', i);
      }
    }
  }

  /** Moving the free header behind block k leaves the size and the bytes of every other used block. */
  lemma MoveKeeps(b: seq<int>, used: set<int>, frees: seq<int>, start: int, pool: int, next: Links, prev: Links,
                  next': Links, prev': Links, k: nat, a: int, m: seq<bv8>, m': seq<bv8>, keep: set<int>)
    requires WellFormed(b, used, frees, start, pool) && IsRing(next, prev, b) && k + 2 < |b|
    requires b[k] + HEADER <= a && a + HEADER <= b[k + 2]
    requires IsRing(next', prev', MoveAt(b, k + 1, a))
    requires |m| == |m'| == pool
    requires forall x :: 0 <= x < pool && !(a - start <= x < a - start + HEADER) ==> m'[x] == m[x]
    requires keep <= used - {start + pool - HEADER} && b[k] !in keep && b[k + 1] !in keep
    ensures SameBlocks(keep, next, next', m, m', start)
  {
    hide WellFormed, IsRing;
    forall x | x in keep
      ensures x in next && x in next' && next'[x] == next[x]
      ensures 0 <= x + HEADER - start <= next[x] - start <= |m|
      ensures m'[x + HEADER - start..next[x] - start] == m[x + HEADER - start..next[x] - start]
    {
      var i := IndexOfUsed(b, used, frees, start, pool, x);
      AtIndex(b, used, frees, start, pool, next, prev, i);
      MoveNext(b, used, frees, start, pool, next', prev', k, a, i);
    }
  }

  lemma MoveNext(b: seq<int>, used: set<int>, frees: seq<int>, start: int, pool: int, next': Links, prev': Links,
                 k: nat, a: int, i: nat)
    requires WellFormed(b, used, frees, start, pool) && k + 2 < |b| && i + 1 < |b| && i != k && i != k + 1
    requires b[k] + HEADER <= a && a + HEADER <= b[k + 2]
    requires IsRing(next', prev', MoveAt(b, k + 1, a))
    ensures b[i] in next' && next'[b[i]] == b[i + 1]
    ensures b[i + 1] <= a || a + HEADER <= b[i]
  {
    var c := MoveAt(b, k + 1, a);
    assert c[i] == b[i] && c[i + 1] == b[i + 1];
    Neighbours(next', prev', c, i);
    if i < k { TilesOrder(b, start, pool, i + 1, k); }
    else { TilesOrder(b, start, pool, k + 2, i); }
  }

  lemma TilesOrder(b: seq<int>, start: int, pool: int, i: nat, j: nat)
    requires Tiles(b, start, pool) && i <= j < |b|
    ensures b[i] <= b[j]
  {
    assert i == j || b[i] <= b[j];
  }

  lemma FreshMove(b: seq<int>, used: set<int>, frees: seq<int>, start: int, pool: int, k: nat, j: nat, a: int)
    requires WellFormed(b, used, frees, start, pool) && k + 1 < |b| && j < |frees| && frees[j] == b[k + 1]
    requires a !in RemoveAt(b, k + 1)
    ensures a !in used && a !in RemoveAt(frees, j) && b[k + 1] !in used
  {
    TilesNoDup(b, start, pool);
    assert frees[j] in frees;
    RemoveAtMembers(b, k + 1);
    RemoveAtMembers(frees, j);
  }

  /** The chain after the tail of used block k was cut off at a, melted with a free right neighbour. */
  function CutChain(b: seq<int>, k: nat, a: int, merge: bool): (r: seq<int>)
    requires k + 1 < |b|
    ensures |r| > k + 1 && r[k + 1] == a && r[k] == b[k]
    ensures |r| == if merge then |b| else |b| + 1
    ensures merge && k + 2 < |b| ==> r[k + 2] == b[k + 2]
    ensures !merge ==> r[k + 2] == b[k + 1]
  {
    if merge then MoveAt(b, k + 1, a) else InsertAt(b, k + 1, a)
  }

  lemma Absent(b: seq<int>, used: set<int>, frees: seq<int>, start: int, pool: int, k: nat, a: int)
    requires WellFormed(b, used, frees, start, pool) && k + 1 < |b|
    requires a % ALIGN == 0 && b[k] + HEADER + MINIALLOC <= a && a + HEADER + MINIALLOC <= b[k + 1]
    ensures a !in b && a !in used && a !in frees && start < a && a + HEADER < start + pool
  {
    TilesInsert(b, start, pool, k, a);
  }

  lemma AtMove(b: seq<int>, used: set<int>, frees: seq<int>, start: int, pool: int, k: nat)
    requires WellFormed(b, used, frees, start, pool) && k + 2 < |b|
    ensures b[k + 1] <= b[k + 2]
  {
    TilesOrder(b, start, pool, k + 1, k + 2);
  }

  lemma CutKeeps(b: seq<int>, used: set<int>, frees: seq<int>, start: int, pool: int, next: Links, prev: Links,
                 next': Links, prev': Links, k: nat, a: int, merge: bool, m: seq<bv8>, m': seq<bv8>, keep: set<int>)
    requires WellFormed(b, used, frees, start, pool) && IsRing(next, prev, b) && k + 1 < |b|
    requires b[k] + HEADER <= a && a + HEADER <= b[k + 1]
    requires merge ==> k + 2 < |b| && b[k + 1] !in used
    requires IsRing(next', prev', CutChain(b, k, a, merge))
    requires |m| == |m'| == pool
    requires forall x :: 0 <= x < pool && !(a - start <= x < a - start + HEADER) ==> m'[x] == m[x]
    requires keep <= used - {start + pool - HEADER} && b[k] !in keep
    ensures SameBlocks(keep, next, next', m, m', start)
  {
    hide WellFormed, IsRing, SameBlocks;
    if merge {
      AtMove(b, used, frees, start, pool, k);
      MoveKeeps(b, used, frees, start, pool, next, prev, next', prev', k, a, m, m', keep);
    } else {
      SplitKeeps(b, used, frees, start, pool, next, prev, next', prev', k, a, m, m', keep);
    }
  }

  /** The payloads of two different used blocks do not meet. */
  lemma PayloadsApart(b: seq<int>, used: set<int>, frees: seq<int>, start: int, pool: int, next: Links, prev: Links,
                      x: int, y: int)
    requires WellFormed(b, used, frees, start, pool) && IsRing(next, prev, b)
    requires x in used - {start + pool - HEADER} && y in used - {start + pool - HEADER} && x != y
    ensures x in next && y in next && (next[x] <= y || next[y] <= x)
    ensures start <= x && x + HEADER + MINIALLOC <= next[x] <= start + pool
    ensures start <= y && y + HEADER + MINIALLOC <= next[y] <= start + pool
    ensures x % ALIGN == 0 && y % ALIGN == 0
  {
    var i := IndexOfUsed(b, used, frees, start, pool, x);
    var j := IndexOfUsed(b, used, frees, start, pool, y);
    AtIndex(b, used, frees, start, pool, next, prev, i);
    AtIndex(b, used, frees, start, pool, next, prev, j);
    if i < j { TilesOrder(b, start, pool, i + 1, j); } else { TilesOrder(b, start, pool, j + 1, i); }
  }

  /** Writing into the payload of block y leaves every other used block alone. */
  lemma WriteKeeps(b: seq<int>, used: set<int>, frees: seq<int>, start: int, pool: int, next: Links, prev: Links,
                   y: int, n: int, m: seq<bv8>, m': seq<bv8>, keep: set<int>)
    requires WellFormed(b, used, frees, start, pool) && IsRing(next, prev, b)
    requires y in used - {start + pool - HEADER} && y in next && y + HEADER + n <= next[y]
    requires |m| == |m'| == pool
    requires forall x :: 0 <= x < pool && !(y + HEADER - start <= x < y + HEADER - start + n) ==> m'[x] == m[x]
    requires keep <= used - {start + pool - HEADER} - {y}
    ensures SameBlocks(keep, next, next, m, m', start)
  {
    hide WellFormed, IsRing;
    forall x | x in keep
      ensures x in next
      ensures 0 <= x + HEADER - start <= next[x] - start <= |m|
      ensures m'[x + HEADER - start..next[x] - start] == m[x + HEADER - start..next[x] - start]
    {
      PayloadsApart(b, used, frees, start, pool, next, prev, x, y);
    }
  }

  lemma SameBlocksSub(keep: set<int>, sub: set<int>, next: Links, next': Links, m: seq<bv8>, m': seq<bv8>, start: int)
    requires SameBlocks(keep, next, next', m, m', start) && sub <= keep
    ensures SameBlocks(sub, next, next', m, m', start)
  {
  }

  lemma SameBlockAt(keep: set<int>, next: Links, next': Links, m: seq<bv8>, m': seq<bv8>, start: int, h: int)
    requires SameBlocks(keep, next, next', m, m', start) && h in keep
    ensures |m| == |m'| && h in next && h in next' && next'[h] == next[h]
    ensures 0 <= h + HEADER - start <= next[h] - start <= |m|
    ensures forall x :: h + HEADER - start <= x < next[h] - start ==> m'[x] == m[x]
  {
    var lo, hi := h + HEADER - start, next[h] - start;
    forall x | lo <= x < hi ensures m'[x] == m[x] {
      assert m'[lo..hi][x - lo] == m[lo..hi][x - lo];
    }
  }
}
