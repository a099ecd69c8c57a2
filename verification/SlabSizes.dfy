/** Size classes and zone layout of the slab allocator: pure arithmetic. */
module SlabSizes {

  const PAGE: int := 4096
  const HEADER: int := 36
  const NZONES: int := 72
  const MIN_CHUNK: int := 8

  function RoundUp(n: int, a: int): (r: int)
    requires a > 0
    ensures r % a == 0 && n <= r < n + a
  {
    Multiple((n + a - 1) / a, a);
    (n + a - 1) / a * a
  }

  lemma Small(d: int, a: int, r: int)
    requires a > 0 && d * a == r && 0 <= r < a
    ensures d == 0
  {
    assert d >= 1 ==> d * a >= a;
    assert d <= -1 ==> d * a <= -a;
  }

  lemma Multiple(q: int, a: int)
    requires a > 0
    ensures q * a % a == 0
  {
    var d, r := q * a / a, q * a % a;
    Small(q - d, a, r);
  }

  /** The chunk size of each class: 16 classes 8 apart, then 7 rows of 8 classes, each row twice as coarse. */
  function ClassSize(zi: nat): int {
    if zi < 16 then 8 * (zi + 1)
    else if zi < 24 then 16 * (zi - 7)
    else if zi < 32 then 32 * (zi - 15)
    else if zi < 40 then 64 * (zi - 23)
    else if zi < 48 then 128 * (zi - 31)
    else if zi < 56 then 256 * (zi - 39)
    else if zi < 64 then 512 * (zi - 47)
    else 1024 * (zi - 55)
  }

  /** zoneindex: the class is the smallest one that holds the request, and the request grows to its size. */
  method ZoneIndex(bytes: int) returns (zi: nat, size: int)
    requires 0 < bytes < 16384
    ensures zi < NZONES && size == ClassSize(zi) && bytes <= size && size % MIN_CHUNK == 0
    ensures zi > 0 ==> ClassSize(zi - 1) < bytes
  {
    if bytes < 512 {
      zi, size := FineIndex(bytes);
    } else if bytes < 4096 {
      zi, size := MiddleIndex(bytes);
    } else {
      zi, size := CoarseIndex(bytes);
    }
  }

  method FineIndex(bytes: int) returns (zi: nat, size: int)
    requires 0 < bytes < 512
    ensures zi <= 31 && size == ClassSize(zi) && bytes <= size && size % MIN_CHUNK == 0
    ensures zi > 0 ==> ClassSize(zi - 1) < bytes
  {
    if bytes < 128 {
      size := (bytes + 7) / 8 * 8;
      zi := size / 8 - 1;
    } else if bytes < 256 {
      size := (bytes + 15) / 16 * 16;
      zi := size / 16 + 7;
    } else {
      size := (bytes + 31) / 32 * 32;
      zi := size / 32 + 15;
    }
  }

  method MiddleIndex(bytes: int) returns (zi: nat, size: int)
    requires 512 <= bytes < 4096
    ensures 30 < zi <= 55 && size == ClassSize(zi) && bytes <= size && size % MIN_CHUNK == 0
    ensures ClassSize(zi - 1) < bytes
  {
    if bytes < 1024 {
      size := (bytes + 63) / 64 * 64;
      zi := size / 64 + 23;
    } else if bytes < 2048 {
      size := (bytes + 127) / 128 * 128;
      zi := size / 128 + 31;
    } else {
      size := (bytes + 255) / 256 * 256;
      zi := size / 256 + 39;
    }
  }

  method CoarseIndex(bytes: int) returns (zi: nat, size: int)
    requires 4096 <= bytes < 16384
    ensures 54 < zi < NZONES && size == ClassSize(zi) && bytes <= size && size % MIN_CHUNK == 0
    ensures ClassSize(zi - 1) < bytes
  {
    if bytes < 8192 {
      size := (bytes + 511) / 512 * 512;
      zi := size / 512 + 47;
    } else {
      size := (bytes + 1023) / 1024 * 1024;
      zi := size / 1024 + 55;
    }
  }

  lemma ClassesGrow(i: nat, j: nat)
    requires i < j < NZONES
    ensures 8 <= ClassSize(i) < ClassSize(j) <= 16384
  {
  }

  predicate IsPow2(n: int) {
    n == 1 || (n > 1 && n % 2 == 0 && IsPow2(n / 2))
  }

  /** Where the first chunk lies behind the zone header. */
  function Offset(size: int): (off: int)
    requires size > 0
    ensures HEADER <= off && (off <= 40 || off < HEADER + size)
  {
    if IsPow2(size) then RoundUp(HEADER, size) else RoundUp(HEADER, MIN_CHUNK)
  }

  function Capacity(zoneSize: int, size: int): int
    requires size > 0
  {
    (zoneSize - Offset(size)) / size
  }

  predicate ZoneSizeOk(zoneSize: int) {
    zoneSize == 0x8000 || zoneSize == 0x10000 || zoneSize == 0x20000
  }

  /** Requests of at least this size go straight to the page allocator. */
  function Limit(zoneSize: int): (l: int)
    ensures l <= 16384 && l <= zoneSize / 4 && (l == 16384 || l == zoneSize / 4)
  {
    if zoneSize / 4 > 16384 then 16384 else zoneSize / 4
  }

  /** A zone has room for its header and for at least two chunks of every class it can serve. */
  lemma ZoneHasRoom(zoneSize: int, size: int)
    requires ZoneSizeOk(zoneSize) && 0 < size <= Limit(zoneSize)
    ensures Capacity(zoneSize, size) >= 2 && Offset(size) + Capacity(zoneSize, size) * size <= zoneSize
  {
    var room := zoneSize - Offset(size);
    assert room >= 2 * size;
    DivFits(room, size);
  }

  lemma DivFits(room: int, size: int)
    requires size > 0 && room >= 2 * size
    ensures room / size >= 2 && room / size * size <= room
  {
  }

  // ---------------------------------------------------------------- chunks

  function ChunkAt(base: int, size: int, k: int): int {
    base + k * size
  }

  lemma Grows(a: int, b: int, size: int)
    requires size > 0 && a <= b
    ensures a * size <= b * size
  {
  }

  lemma ChunksApart(base: int, size: int, j: int, k: int)
    requires size > 0 && j < k
    ensures ChunkAt(base, size, j) + size <= ChunkAt(base, size, k)
  {
    Grows(j + 1, k, size);
  }

  lemma ChunkInside(base: int, size: int, k: int, n: int)
    requires size > 0 && 0 <= k < n
    ensures base <= ChunkAt(base, size, k) && ChunkAt(base, size, k) + size <= base + n * size
  {
    Grows(0, k, size);
    Grows(k + 1, n, size);
  }

  lemma {:induction false} Pow2Divides(n: int, m: int)
    requires IsPow2(n) && IsPow2(m) && n <= m
    ensures m % n == 0
  {
    if n > 1 {
      Pow2Divides(n / 2, m / 2);
      var q := m / 2 / (n / 2);
      assert m / 2 == q * (n / 2);
      assert m == q * n;
      Multiple(q, n);
    }
  }

  /** "Small power-of-2 sized allocations are power-of-2 aligned", up to the page size that aligns the zone. */
  lemma ChunkAligned(z: int, size: int, k: int)
    requires IsPow2(size) && size <= PAGE
    ensures ChunkAt(z * PAGE + Offset(size), size, k) % size == 0
  {
    PageIsPow2();
    Pow2Divides(size, PAGE);
    SumAligned(z, PAGE, Offset(size), k, size);
  }

  lemma SumAligned(z: int, page: int, off: int, k: int, size: int)
    requires size > 0 && page % size == 0 && off % size == 0
    ensures (z * page + off + k * size) % size == 0
  {
    var q, o := page / size, off / size;
    assert z * page == z * q * size by { assert page == q * size; }
    assert z * page + off + k * size == (z * q + o + k) * size;
    Multiple(z * q + o + k, size);
  }

  lemma PageIsPow2()
    ensures IsPow2(PAGE)
  {
    assert IsPow2(16) && IsPow2(256);
  }
}
