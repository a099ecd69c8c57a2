/** The ready bitmap of scheduler.c: unsigned words with their bit operations written out on numbers, the
    table lookup __rt_ffs, and the one- and two-level ready tables. */
module Bitmap {

  /** Bit i of a non-negative number. */
  predicate Bit(g: nat, i: nat) {
    if i == 0 then g % 2 == 1 else Bit(g / 2, i - 1)
  }

  /** g | (1 << p) */
  function SetBit(g: nat, p: nat): nat {
    if p == 0 then g / 2 * 2 + 1 else SetBit(g / 2, p - 1) * 2 + g % 2
  }

  /** g & ~(1 << p) */
  function ClearBit(g: nat, p: nat): nat {
    if p == 0 then g / 2 * 2 else ClearBit(g / 2, p - 1) * 2 + g % 2
  }

  lemma {:induction false} SetBitAt(g: nat, p: nat, q: nat)
    ensures Bit(SetBit(g, p), q) <==> q == p || Bit(g, q)
    decreases p
  {
    if p > 0 && q > 0 {
      SetBitAt(g / 2, p - 1, q - 1);
      assert SetBit(g, p) / 2 == SetBit(g / 2, p - 1);
    }
  }

  lemma {:induction false} ClearBitAt(g: nat, p: nat, q: nat)
    ensures Bit(ClearBit(g, p), q) <==> q != p && Bit(g, q)
    decreases p
  {
    if p > 0 && q > 0 {
      ClearBitAt(g / 2, p - 1, q - 1);
      assert ClearBit(g, p) / 2 == ClearBit(g / 2, p - 1);
    }
  }

  lemma {:induction false} ZeroBit(i: nat)
    ensures !Bit(0, i)
  {
    if i > 0 { ZeroBit(i - 1); }
  }

  lemma {:induction false} SomeBit(g: nat) returns (i: nat)
    requires g > 0
    ensures Bit(g, i)
  {
    if g % 2 == 1 { i := 0; } else {
      i := SomeBit(g / 2);
      i := i + 1;
    }
  }

  function Pow2(n: nat): nat {
    if n == 0 then 1 else 2 * Pow2(n - 1)
  }

  lemma {:induction false} WidthKept(g: nat, width: nat, p: nat)
    requires g < Pow2(width) && p < width
    ensures SetBit(g, p) < Pow2(width) && ClearBit(g, p) < Pow2(width)
    decreases p
  {
    if p > 0 { WidthKept(g / 2, width - 1, p - 1); }
  }

  // ---------------------------------------------------------------- __rt_ffs

  /** The 256 entries of __lowest_bit_bitmap: all sixteen rows agree except in their first column. */
  const ROW: seq<nat> := [0, 0, 1, 0, 2, 0, 1, 0, 3, 0, 1, 0, 2, 0, 1, 0]
  const COLUMN: seq<nat> := [0, 4, 5, 4, 6, 4, 5, 4, 7, 4, 5, 4, 6, 4, 5, 4]

  function LowestBitmap(v: nat): nat
    requires v < 256
  {
    if v % 16 != 0 then ROW[v % 16] else COLUMN[v / 16]
  }

  /** i is the position of the lowest bit of g. */
  ghost predicate Lowest(g: nat, i: nat) {
    Bit(g, i) && forall j: nat :: j < i ==> !Bit(g, j)
  }

  lemma {:induction false} LowestHalf(g: nat, i: nat)
    requires g % 2 == 0
    ensures Lowest(g, i + 1) <==> Lowest(g / 2, i)
  {
    if Lowest(g / 2, i) {
      forall j: nat | j < i + 1 ensures !Bit(g, j) {
        if j > 0 { assert !Bit(g / 2, j - 1); }
      }
    }
    if Lowest(g, i + 1) {
      forall j: nat | j < i ensures !Bit(g / 2, j) {
        assert !Bit(g, j + 1);
      }
    }
  }

  lemma {:induction false} LowestQuarter(g: nat, i: nat)
    requires g % 4 == 0
    ensures Lowest(g, i + 2) <==> Lowest(g / 4, i)
  {
    hide Lowest;
    var q := g / 4;
    assert g == 4 * q && g / 2 == 2 * q;
    LowestHalf(g, i + 1);
    LowestHalf(g / 2, i);
  }

  lemma {:induction false} LowestNibble(g: nat, i: nat)
    requires g % 16 == 0
    ensures Lowest(g, i + 4) <==> Lowest(g / 16, i)
  {
    hide Lowest;
    var q := g / 16;
    assert g == 16 * q && g / 4 == 4 * q;
    LowestQuarter(g, i + 2);
    LowestQuarter(g / 4, i);
  }

  lemma {:induction false} LowestByte(g: nat, i: nat)
    requires g % 256 == 0
    ensures Lowest(g, i + 8) <==> Lowest(g / 256, i)
  {
    hide Lowest;
    var q := g / 256;
    assert g == 256 * q && g / 16 == 16 * q;
    LowestNibble(g, i + 4);
    LowestNibble(g / 16, i);
  }

  lemma {:induction false} OddLowest(g: nat)
    requires g % 2 == 1
    ensures Lowest(g, 0)
  {
  }

  /** A row of the table answers by the low four bits. */
  lemma {:induction false} RowRight(g: nat)
    requires g % 16 != 0
    ensures Lowest(g, ROW[g % 16])
  {
    hide Lowest;
    if g % 2 == 1 {
      OddLowest(g);
    } else if g % 4 == 2 {
      LowestHalf(g, 0);
      OddLowest(g / 2);
    } else if g % 8 == 4 {
      LowestQuarter(g, 0);
      OddLowest(g / 4);
    } else {
      LowestQuarter(g, 1);
      LowestHalf(g / 4, 0);
      OddLowest(g / 4 / 2);
    }
  }

  lemma TableRight(g: nat)
    requires g % 256 != 0
    ensures Lowest(g, LowestBitmap(g % 256))
  {
    var v := g % 256;
    if v % 16 != 0 {
      assert g % 16 == v % 16;
      RowRight(g);
    } else {
      assert g % 16 == 0 && (g / 16) % 16 == v / 16 != 0;
      RowRight(g / 16);
      LowestNibble(g, ROW[v / 16]);
      ColumnIsRow(v / 16);
    }
  }

  lemma ColumnIsRow(n: nat)
    requires 0 < n < 16
    ensures COLUMN[n] == ROW[n] + 4
  {
  }

  /** __rt_ffs: one plus the position of the lowest bit, zero for zero. */
  function Ffs(value: nat): (r: nat)
    requires value < 0x1_0000_0000
  {
    if value == 0 then 0
    else if value % 0x100 != 0 then LowestBitmap(value % 0x100) + 1
    else if value / 0x100 % 0x100 != 0 then LowestBitmap(value / 0x100 % 0x100) + 9
    else if value / 0x1_0000 % 0x100 != 0 then LowestBitmap(value / 0x1_0000 % 0x100) + 17
    else LowestBitmap(value / 0x100_0000 % 0x100) + 25
  }

  lemma FfsRight(value: nat)
    requires value < 0x1_0000_0000
    ensures value == 0 <==> Ffs(value) == 0
    ensures value > 0 ==> Lowest(value, Ffs(value) - 1)
  {
    if value == 0 {
    } else if value % 0x100 != 0 {
      TableRight(value);
    } else if value / 0x100 % 0x100 != 0 {
      TableRight(value / 0x100);
      LowestByte(value, Ffs(value) - 9);
    } else {
      FfsHigh(value);
    }
  }

  lemma FfsHigh(value: nat)
    requires 0 < value < 0x1_0000_0000 && value % 0x1_0000 == 0
    ensures Lowest(value, Ffs(value) - 1)
  {
    var b := value / 0x100;
    var c := b / 0x100;
    assert b % 0x100 == 0 && c == value / 0x1_0000;
    if c % 0x100 != 0 {
      TableRight(c);
      LowestByte(b, Ffs(value) - 17);
      LowestByte(value, Ffs(value) - 9);
    } else {
      var d := c / 0x100;
      assert d == value / 0x100_0000 && 0 < d < 0x100;
      TableRight(d);
      LowestByte(c, Ffs(value) - 25);
      LowestByte(b, Ffs(value) - 17);
      LowestByte(value, Ffs(value) - 9);
    }
  }

  // ---------------------------------------------------------------- the ready tables

  /** Up to 32 priorities: bit p of the group word says that priority p has a ready thread. */
  ghost predicate Flat(group: nat, ready: set<nat>) {
    && group < 0x1_0000_0000
    && (forall p :: p in ready ==> p < 32)
    && (forall p: nat :: Bit(group, p) <==> p in ready)
  }

  /** Up to 256 priorities: bit p % 8 of byte p / 8, and a group word that says which bytes are not 0. */
  ghost predicate TwoLevel(group: nat, table: seq<nat>, ready: set<nat>) {
    && group < 0x1_0000_0000 && |table| == 32
    && (forall p :: p in ready ==> p < 256)
    && (forall n :: 0 <= n < 32 ==> table[n] < 256)
    && (forall n, k: nat :: 0 <= n < 32 ==> (Bit(table[n], k) <==> k < 8 && n * 8 + k in ready))
    && (forall n: nat :: Bit(group, n) <==> n < 32 && table[n] != 0)
  }

  lemma WordWidth()
    ensures Pow2(32) == 0x1_0000_0000 && Pow2(8) == 256
  {
    assert Pow2(8) == 256;
    assert Pow2(16) == 0x1_0000;
    assert Pow2(24) == 0x100_0000;
  }

  lemma FlatInsert(group: nat, ready: set<nat>, p: nat)
    requires Flat(group, ready) && p < 32
    ensures Flat(SetBit(group, p), ready + {p})
  {
    WordWidth();
    WidthKept(group, 32, p);
    forall q: nat ensures Bit(SetBit(group, p), q) <==> q in ready + {p} {
      SetBitAt(group, p, q);
    }
  }

  lemma FlatRemove(group: nat, ready: set<nat>, p: nat)
    requires Flat(group, ready) && p < 32
    ensures Flat(ClearBit(group, p), ready - {p})
  {
    WordWidth();
    WidthKept(group, 32, p);
    forall q: nat ensures Bit(ClearBit(group, p), q) <==> q in ready - {p} {
      ClearBitAt(group, p, q);
    }
  }

  /** The most urgent ready priority, as rt_schedule computes it. */
  lemma FlatHighest(group: nat, ready: set<nat>)
    requires Flat(group, ready) && ready != {}
    ensures Ffs(group) > 0 && Ffs(group) - 1 in ready && forall p :: p in ready ==> Ffs(group) - 1 <= p
  {
    var p :| p in ready;
    if group == 0 { ZeroBit(p); }
    FfsRight(group);
    forall q | q in ready ensures Ffs(group) - 1 <= q {
      assert Bit(group, q);
    }
  }

  lemma SplitPriority(p: nat)
    ensures p / 8 * 8 + p % 8 == p && p % 8 < 8
    ensures p < 256 ==> p / 8 < 32
  {
  }

  lemma TwoLevelInsert(group: nat, table: seq<nat>, ready: set<nat>, p: nat)
    requires TwoLevel(group, table, ready) && p < 256
    ensures p / 8 < 32 && TwoLevel(SetBit(group, p / 8), table[p / 8 := SetBit(table[p / 8], p % 8)], ready + {p})
  {
    SplitPriority(p);
    WordWidth();
    var n0, k0 := p / 8, p % 8;
    var table' := table[n0 := SetBit(table[n0], k0)];
    WidthKept(group, 32, n0);
    WidthKept(table[n0], 8, k0);
    forall n, k: nat | 0 <= n < 32 ensures Bit(table'[n], k) <==> k < 8 && n * 8 + k in ready + {p} {
      if n == n0 { SetBitAt(table[n0], k0, k); }
      assert k < 8 ==> (n * 8 + k == p <==> n == n0 && k == k0);
    }
    assert table'[n0] != 0 by { SetBitAt(table[n0], k0, k0); ZeroBit(k0); }
    forall n: nat ensures Bit(SetBit(group, n0), n) <==> n < 32 && table'[n] != 0 {
      SetBitAt(group, n0, n);
    }
  }

  /** Removing clears the group bit only when the whole byte became zero. */
  function RemoveGroup(group: nat, byte: nat, n: nat): nat {
    if byte == 0 then ClearBit(group, n) else group
  }

  lemma TwoLevelRemove(group: nat, table: seq<nat>, ready: set<nat>, p: nat)
    requires TwoLevel(group, table, ready) && p < 256
    ensures p / 8 < 32
    ensures var byte := ClearBit(table[p / 8], p % 8);
      TwoLevel(RemoveGroup(group, byte, p / 8), table[p / 8 := byte], ready - {p})
  {
    SplitPriority(p);
    WordWidth();
    var n0, k0 := p / 8, p % 8;
    var byte := ClearBit(table[n0], k0);
    var table' := table[n0 := byte];
    WidthKept(group, 32, n0);
    WidthKept(table[n0], 8, k0);
    forall n, k: nat | 0 <= n < 32 ensures Bit(table'[n], k) <==> k < 8 && n * 8 + k in ready - {p} {
      if n == n0 { ClearBitAt(table[n0], k0, k); }
      assert k < 8 ==> (n * 8 + k == p <==> n == n0 && k == k0);
    }
    if byte != 0 { SomethingWas(table[n0], k0); }
    forall n: nat ensures Bit(RemoveGroup(group, byte, n0), n) <==> n < 32 && table'[n] != 0 {
      ClearBitAt(group, n0, n);
    }
  }

  lemma SomethingWas(g: nat, p: nat)
    requires ClearBit(g, p) != 0
    ensures g != 0
  {
    var i := SomeBit(ClearBit(g, p));
    ClearBitAt(g, p, i);
    if g == 0 { ZeroBit(i); }
  }

  lemma TwoLevelHighest(group: nat, table: seq<nat>, ready: set<nat>)
    requires TwoLevel(group, table, ready) && ready != {}
    ensures 0 < Ffs(group) <= 32
    ensures var n := Ffs(group) - 1;
      && table[n] < 256 && Ffs(table[n]) > 0
      && n * 8 + Ffs(table[n]) - 1 in ready
      && forall p :: p in ready ==> n * 8 + Ffs(table[n]) - 1 <= p
  {
    hide Bit, Ffs;
    var p :| p in ready;
    ReadyShows(group, table, ready, p);
    NonZero(group, p / 8);
    FfsRight(group);
    var n := Ffs(group) - 1;
    assert Bit(group, n);
    FfsRight(table[n]);
    var k := Ffs(table[n]) - 1;
    assert Bit(table[n], k);
    forall q | q in ready ensures n * 8 + k <= q {
      NoneBelow(group, table, ready, n, k, q);
    }
  }

  lemma NonZero(g: nat, i: nat)
    requires Bit(g, i)
    ensures g != 0
  {
    if g == 0 { ZeroBit(i); }
  }

  lemma NoneBelow(group: nat, table: seq<nat>, ready: set<nat>, n: nat, k: nat, q: nat)
    requires TwoLevel(group, table, ready) && Lowest(group, n) && n < 32 && Lowest(table[n], k) && q in ready
    ensures n * 8 + k <= q
  {
    hide Bit;
    ReadyShows(group, table, ready, q);
    SplitPriority(q);
    assert Bit(group, q / 8) && n <= q / 8;
    assert Bit(table[q / 8], q % 8);
    assert k < 8;
  }

  lemma ReadyShows(group: nat, table: seq<nat>, ready: set<nat>, p: nat)
    requires TwoLevel(group, table, ready) && p in ready
    ensures p < 256 && p / 8 < 32 && Bit(table[p / 8], p % 8) && Bit(group, p / 8)
  {
    SplitPriority(p);
    assert Bit(table[p / 8], p % 8);
    if table[p / 8] == 0 { ZeroBit(p % 8); }
  }

  /** The two-level table denotes the same set as a flat one over all 256 priorities. */
  lemma TwoLevelDenotes(group: nat, table: seq<nat>, ready: set<nat>, p: nat)
    requires TwoLevel(group, table, ready) && p < 256
    ensures p / 8 < 32 && (p in ready <==> Bit(group, p / 8) && Bit(table[p / 8], p % 8))
  {
    SplitPriority(p);
    if p in ready { ReadyShows(group, table, ready, p); }
  }

  /** The two lookups of the two-level table find what the one lookup of a flat table finds. */
  lemma TwoLevelIsFlat(flat: nat, group: nat, table: seq<nat>, ready: set<nat>)
    requires Flat(flat, ready) && TwoLevel(group, table, ready) && ready != {}
    ensures 0 < Ffs(group) <= 32
    ensures var n := Ffs(group) - 1; Ffs(flat) - 1 == n * 8 + Ffs(table[n]) - 1
  {
    FlatHighest(flat, ready);
    TwoLevelHighest(group, table, ready);
  }

  /** Either table, by the number of priorities the kernel is built with. */
  ghost predicate Marked(wide: bool, group: nat, table: seq<nat>, ready: set<nat>) {
    if wide then TwoLevel(group, table, ready) else Flat(group, ready)
  }
}
