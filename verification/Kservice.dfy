/** rt_memcpy of kservice.c, which rt_memheap_realloc moves blocks with. */
module Kservice {

  /** Relative to its former contents `was`, m has the first n bytes at src copied over those at dst. */
  ghost predicate Copied(was: seq<bv8>, m: array<bv8>, dst: nat, src: nat, n: nat)
    reads m
  {
    && |was| == m.Length && dst + n <= m.Length && src + n <= m.Length
    && (forall x :: dst <= x < dst + n ==> m[x] == was[x - dst + src])
    && (forall x :: 0 <= x < m.Length && !(dst <= x < dst + n) ==> m[x] == was[x])
  }

  /** Copy the next aligned 32-bit word. */
  method CopyWord(m: array<bv8>, dst: nat, src: nat, done: nat, ghost was: seq<bv8>)
    requires Copied(was, m, dst, src, done)
    requires dst + done + 4 <= m.Length && src + done + 4 <= m.Length
    requires dst + done + 4 <= src || src + done + 4 <= dst
    modifies m
    ensures Copied(was, m, dst, src, done + 4)
  {
    var (d, s) := (dst + done, src + done);
    m[d], m[d + 1], m[d + 2], m[d + 3] := m[s], m[s + 1], m[s + 2], m[s + 3];
  }

  /** The unrolled body of the first loop. */
  method CopyFourWords(m: array<bv8>, dst: nat, src: nat, done: nat, ghost was: seq<bv8>)
    requires Copied(was, m, dst, src, done)
    requires dst + done + 16 <= m.Length && src + done + 16 <= m.Length
    requires dst + done + 16 <= src || src + done + 16 <= dst
    modifies m
    ensures Copied(was, m, dst, src, done + 16)
  {
    hide Copied;
    CopyWord(m, dst, src, done, was);
    CopyWord(m, dst, src, done + 4, was);
    CopyWord(m, dst, src, done + 8, was);
    CopyWord(m, dst, src, done + 12, was);
  }

  method CopyByte(m: array<bv8>, dst: nat, src: nat, done: nat, ghost was: seq<bv8>)
    requires Copied(was, m, dst, src, done)
    requires dst + done < m.Length && src + done < m.Length
    requires dst + done < src || src + done < dst
    modifies m
    ensures Copied(was, m, dst, src, done + 1)
  {
    m[dst + done] := m[src + done];
  }

  /** rt_memcpy on two areas that do not overlap: four words at a time, then words, then bytes,
      with the byte loop alone for short or unaligned copies. `base` is the address of m[0]. */
  method MemCopy(m: array<bv8>, base: int, dst: nat, src: nat, count: nat)
    requires dst + count <= m.Length && src + count <= m.Length
    requires dst + count <= src || src + count <= dst
    modifies m
    ensures Copied(old(m[..]), m, dst, src, count)
  {
    ghost var was := m[..];
    var done: nat := 0;
    assert Copied(was, m, dst, src, 0);
    hide Copied;
    if count >= 16 && (base + src) % 4 == 0 && (base + dst) % 4 == 0 {
      while count - done >= 16
        invariant done <= count && Copied(was, m, dst, src, done)
      {
        CopyFourWords(m, dst, src, done, was);
        done := done + 16;
      }
      while count - done >= 4
        invariant done <= count && Copied(was, m, dst, src, done)
      {
        CopyWord(m, dst, src, done, was);
        done := done + 4;
      }
    }
    while done < count
      invariant done <= count && Copied(was, m, dst, src, done)
    {
      CopyByte(m, dst, src, done, was);
      done := done + 1;
    }
  }
}
