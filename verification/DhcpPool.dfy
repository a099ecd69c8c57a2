/** The DHCP server's address arithmetic and its lease list, as values. Addresses are in host order. */
module DhcpPool {

  const TWO32: int := 0x1_0000_0000

  /** The same address as the server's little-endian CPU sees its network-order bytes. */
  function Net(a: int): int {
    (a % 256) * 16777216 + (a / 256 % 256) * 65536 + (a / 65536 % 256) * 256 + a / 16777216
  }

  /** Inside one /24 the raw comparison of network-order words is the comparison of addresses. */
  lemma NetOrder(a: int, b: int)
    requires 0 <= a < TWO32 && 0 <= b < TWO32 && a / 256 == b / 256
    ensures Net(a) < Net(b) <==> a < b
  {
    assert a / 65536 == b / 65536 && a / 16777216 == b / 16777216 by { Higher(a); Higher(b); }
    assert a == a / 256 * 256 + a % 256 && b == b / 256 * 256 + b % 256;
  }

  lemma Higher(a: int)
    ensures a / 65536 == a / 256 / 256 && a / 16777216 == a / 256 / 65536
  {
  }

  /** One past the last address of a /24 compares below everything in it that is not its first address. */
  lemma NetWraps(a: int, b: int)
    requires 0 <= a < TWO32 - 1 && a % 256 == 255 && a / 256 == b / 256 && b % 256 > 0
    ensures Net(a + 1) < Net(b)
  {
    assert (a + 1) % 256 == 0;
    var x := a + 1;
    assert Net(x) == (x / 256 % 256) * 65536 + (x / 65536 % 256) * 256 + x / 16777216;
    assert Net(x) < 16777216 <= (b % 256) * 16777216 <= Net(b);
  }

  datatype Lease = Lease(ip: int, mac: int, timer: int)

  ghost predicate SortedByIp(s: seq<Lease>) {
    forall i, j :: 0 <= i < j < |s| ==> s[i].ip < s[j].ip
  }

  ghost predicate UniqueMacs(s: seq<Lease>) {
    forall i, j :: 0 <= i < j < |s| ==> s[i].mac != s[j].mac
  }

  ghost predicate InPool(s: seq<Lease>, lo: int, hi: int) {
    forall i :: 0 <= i < |s| ==> lo <= s[i].ip <= hi && 0 < s[i].timer < TWO32
  }

  ghost predicate Leased(s: seq<Lease>, a: int) {
    exists i :: 0 <= i < |s| && s[i].ip == a
  }

  ghost predicate HasMac(s: seq<Lease>, mac: int) {
    exists i :: 0 <= i < |s| && s[i].mac == mac
  }

  // ---------------------------------------------------------------- choosing an address

  /** Where the rotating pointer ends up: pushed along by every lease it meets. */
  function Skip(s: seq<Lease>, a: int): int
    decreases |s|
  {
    if s == [] then a else Skip(s[1..], if s[0].ip == a then a + 1 else a)
  }

  /** The search for the first unused address: it counts up until it is below the next lease. */
  function Gap(s: seq<Lease>, a: int): int
    decreases |s|
  {
    if s == [] || a < s[0].ip then a else Gap(s[1..], a + 1)
  }

  /** The least address from a on that is not leased. */
  ghost predicate NextFree(s: seq<Lease>, a: int, r: int) {
    a <= r && !Leased(s, r) && forall x :: a <= x < r ==> Leased(s, x)
  }

  lemma LeasedTail(s: seq<Lease>, x: int)
    requires s != []
    ensures Leased(s, x) <==> s[0].ip == x || Leased(s[1..], x)
  {
    if Leased(s[1..], x) {
      var i :| 0 <= i < |s[1..]| && s[1..][i].ip == x;
      assert s[i + 1].ip == x;
    }
    if Leased(s, x) && s[0].ip != x {
      var i :| 0 <= i < |s| && s[i].ip == x;
      assert s[1..][i - 1].ip == x;
    }
  }

  lemma TailSorted(s: seq<Lease>)
    requires s != [] && SortedByIp(s)
    ensures SortedByIp(s[1..]) && forall x :: Leased(s[1..], x) ==> s[0].ip < x
  {
    forall x | Leased(s[1..], x) ensures s[0].ip < x {
      var i :| 0 <= i < |s[1..]| && s[1..][i].ip == x;
      assert s[i + 1].ip == x;
    }
  }

  lemma {:induction false} SkipIsNextFree(s: seq<Lease>, a: int)
    requires SortedByIp(s)
    ensures NextFree(s, a, Skip(s, a))
    decreases |s|
  {
    if s != [] {
      TailSorted(s);
      var a' := if s[0].ip == a then a + 1 else a;
      SkipIsNextFree(s[1..], a');
      var r := Skip(s[1..], a');
      forall x | a <= x < r ensures Leased(s, x) { LeasedTail(s, x); }
      LeasedTail(s, r);
      assert a' == a && a < r ==> Leased(s[1..], a) && s[0].ip < a;
    }
  }

  lemma {:induction false} GapIsNextFree(s: seq<Lease>, a: int)
    requires SortedByIp(s) && forall x :: Leased(s, x) ==> a <= x
    ensures NextFree(s, a, Gap(s, a))
    decreases |s|
  {
    if s != [] {
      TailSorted(s);
      LeasedTail(s, s[0].ip);
      if s[0].ip == a {
        GapIsNextFree(s[1..], a + 1);
        var r := Gap(s[1..], a + 1);
        forall x | a <= x < r ensures Leased(s, x) { LeasedTail(s, x); }
        LeasedTail(s, r);
      } else {
        LeasedTail(s, a);
      }
    }
  }

  /** The address an unknown station gets; past the end of the pool the first gap is used instead. */
  function Pick(s: seq<Lease>, lo: int, hi: int, plus: int): int {
    if s == [] then lo
    else if Net(Skip(s, plus)) > Net(hi) then Gap(s, lo)
    else Skip(s, plus)
  }

  ghost predicate Full(s: seq<Lease>, lo: int, hi: int) {
    forall x :: lo <= x <= hi ==> Leased(s, x)
  }

  /** The pool lies in one /24. */
  predicate PoolOk(lo: int, hi: int) {
    0 < lo <= hi < TWO32 && lo / 256 == hi / 256
  }

  ghost predicate ListOk(s: seq<Lease>, lo: int, hi: int, plus: int) {
    SortedByIp(s) && UniqueMacs(s) && InPool(s, lo, hi) && lo <= plus <= hi
  }

  lemma LeasedInPool(s: seq<Lease>, lo: int, hi: int, x: int)
    requires InPool(s, lo, hi) && Leased(s, x)
    ensures lo <= x <= hi
  {
  }

  lemma NextFreeBound(s: seq<Lease>, lo: int, hi: int, a: int, r: int)
    requires InPool(s, lo, hi) && NextFree(s, a, r) && lo <= a <= hi
    ensures a <= r <= hi + 1 && (r == hi + 1 <==> forall x :: a <= x <= hi ==> Leased(s, x))
  {
    if r > hi + 1 { LeasedInPool(s, lo, hi, hi + 1); }
  }

  /** While the pool ends below .255: the choice is a free pool address, unless the pool is full, in which case it
      lies past the end and is refused. */
  lemma PickInPool(s: seq<Lease>, lo: int, hi: int, plus: int)
    requires PoolOk(lo, hi) && ListOk(s, lo, hi, plus) && hi % 256 < 255
    ensures var c := Pick(s, lo, hi, plus);
      && lo <= c <= hi + 1 && !Leased(s, c)
      && (c == hi + 1 <==> Full(s, lo, hi)) && (Net(c) > Net(hi) <==> c == hi + 1)
  {
    var p, g := Skip(s, plus), Gap(s, lo);
    SkipIsNextFree(s, plus);
    forall x | Leased(s, x) ensures lo <= x { LeasedInPool(s, lo, hi, x); }
    GapIsNextFree(s, lo);
    NextFreeBound(s, lo, hi, plus, p);
    NextFreeBound(s, lo, hi, lo, g);
    SameBlock(lo, hi, p);
    SameBlock(lo, hi, g);
    SameBlock(lo, hi, lo);
    NetOrder(hi, p);
    NetOrder(hi, g);
    NetOrder(hi, lo);
  }

  lemma SameBlock(lo: int, hi: int, x: int)
    requires PoolOk(lo, hi) && hi % 256 < 255 && lo <= x <= hi + 1
    ensures x / 256 == hi / 256 && 0 <= x < TWO32
  {
  }

  /** The choice is a free address of the pool, or is refused because there is none. */
  ghost predicate Right(s: seq<Lease>, lo: int, hi: int, c: int) {
    (lo <= c <= hi && !Leased(s, c)) || (Net(c) > Net(hi) && Full(s, lo, hi))
  }

  /** A pool that ends at .255 gives the choice away: once everything from the pointer to the end is leased, the
      pointer steps into the next /24, and the raw comparison takes that for an address below the end. */
  lemma PickRight(s: seq<Lease>, lo: int, hi: int, plus: int)
    requires PoolOk(lo, hi) && ListOk(s, lo, hi, plus) && hi < TWO32 - 1
    ensures Right(s, lo, hi, Pick(s, lo, hi, plus)) <==>
        hi % 256 < 255 || s == [] || exists x :: plus <= x <= hi && !Leased(s, x)
  {
    if hi % 256 < 255 {
      PickInPool(s, lo, hi, plus);
    } else if s != [] {
      var p := Skip(s, plus);
      SkipIsNextFree(s, plus);
      NextFreeBound(s, lo, hi, plus, p);
      if p == hi + 1 { NetWraps(hi, hi); } else { NetOrder(hi, p); }
    }
  }

  /** Pool 192.168.4.255 only, leased: the next station gets 192.168.5.0. */
  lemma EscapeExample()
    ensures var hi := 0xC0A804FF; var s := [Lease(hi, 1, 60)];
      ListOk(s, hi, hi, hi) && Pick(s, hi, hi, hi) == hi + 1 && !Right(s, hi, hi, hi + 1)
  {
    var hi := 0xC0A804FF;
    var s := [Lease(hi, 1, 60)];
    assert s[1..] == [];
    assert Skip(s, hi) == hi + 1;
    NetWraps(hi, hi);
  }

  // ---------------------------------------------------------------- steps of the scan

  lemma {:induction false} SkipSplit(s: seq<Lease>, i: nat, a: int)
    requires i <= |s|
    ensures Skip(s, a) == Skip(s[i..], Skip(s[..i], a))
    decreases i
  {
    if i > 0 {
      SkipSplit(s[1..], i - 1, if s[0].ip == a then a + 1 else a);
      assert s[1..][i - 1..] == s[i..] && s[1..][..i - 1] == s[..i][1..];
    } else {
      assert s[0..] == s;
    }
  }

  lemma SkipSnoc(s: seq<Lease>, i: nat, a: int)
    requires i < |s|
    ensures var p := Skip(s[..i], a); Skip(s[..i + 1], a) == if s[i].ip == p then p + 1 else p
  {
    SkipSplit(s[..i + 1], i, a);
    assert s[..i + 1][..i] == s[..i] && s[..i + 1][i..] == [s[i]];
    assert [s[i]][1..] == [];
  }

  /** The pointer never overtakes the lease it is about to be compared with. */
  lemma {:induction false} SkipStaysBelow(s: seq<Lease>, i: nat, a: int)
    requires SortedByIp(s) && i <= |s|
    ensures a <= Skip(s[..i], a) && (Skip(s[..i], a) == a || (i > 0 && Skip(s[..i], a) <= s[i - 1].ip + 1))
    decreases i
  {
    if i > 0 {
      SkipStaysBelow(s, i - 1, a);
      SkipSnoc(s, i - 1, a);
      assert i > 1 ==> s[i - 2].ip < s[i - 1].ip;
    } else {
      assert s[..0] == [];
    }
  }

  /** Where the search for the first gap stands after i leases. */
  ghost predicate Searching(s: seq<Lease>, lo: int, i: nat, first: int, found: bool) {
    && i <= |s| && Gap(s, lo) == (if found then first else Gap(s[i..], first))
    && (!found ==> first == lo + i && forall j :: 0 <= j < i ==> s[j].ip == lo + j)
  }

  lemma SearchStart(s: seq<Lease>, lo: int)
    ensures Searching(s, lo, 0, lo, false)
  {
    assert s[0..] == s;
  }

  lemma {:induction false} SortedFrom(s: seq<Lease>, lo: int, hi: int, i: nat)
    requires SortedByIp(s) && InPool(s, lo, hi) && i < |s|
    ensures lo + i <= s[i].ip
  {
    if i > 0 {
      SortedFrom(s, lo, hi, i - 1);
      assert s[i - 1].ip < s[i].ip;
    }
  }

  lemma SearchStep(s: seq<Lease>, lo: int, hi: int, plus: int, i: nat, first: int, found: bool)
    requires PoolOk(lo, hi) && hi % 256 < 255 && ListOk(s, lo, hi, plus) && Searching(s, lo, i, first, found) && i < |s|
    ensures found ==> Searching(s, lo, i + 1, first, true)
    ensures !found && Net(first) < Net(s[i].ip) ==> Searching(s, lo, i + 1, first, true)
    ensures !found && !(Net(first) < Net(s[i].ip)) ==> Searching(s, lo, i + 1, first + 1, false)
  {
    if !found {
      SortedFrom(s, lo, hi, i);
      SameBlock(lo, hi, first);
      SameBlock(lo, hi, s[i].ip);
      NetOrder(first, s[i].ip);
      assert s[i..][0] == s[i] && s[i..][1..] == s[i + 1..];
    }
  }

  lemma SearchEnd(s: seq<Lease>, lo: int, first: int, found: bool)
    requires Searching(s, lo, |s|, first, found)
    ensures first == Gap(s, lo)
  {
    assert s[|s|..] == [];
  }

  lemma PointerInPool(s: seq<Lease>, lo: int, hi: int, plus: int, i: nat)
    requires ListOk(s, lo, hi, plus) && i < |s|
    ensures lo <= Skip(s[..i], plus) <= hi
  {
    SkipStaysBelow(s, i, plus);
    assert i > 0 ==> s[i - 1].ip < s[i].ip;
  }

  // ---------------------------------------------------------------- list updates

  function InsertAt(s: seq<Lease>, k: nat, l: Lease): seq<Lease>
    requires k <= |s|
  {
    s[..k] + [l] + s[k..]
  }

  ghost predicate Slot(s: seq<Lease>, k: nat, ip: int) {
    k <= |s| && (forall i :: 0 <= i < k ==> s[i].ip < ip) && (forall i :: k <= i < |s| ==> ip < s[i].ip)
  }

  lemma InsertKeeps(s: seq<Lease>, lo: int, hi: int, plus: int, plus': int, k: nat, l: Lease)
    requires ListOk(s, lo, hi, plus) && Slot(s, k, l.ip) && !HasMac(s, l.mac)
    requires lo <= l.ip <= hi && 0 < l.timer < TWO32 && lo <= plus' <= hi
    ensures ListOk(InsertAt(s, k, l), lo, hi, plus')
  {
    var r := InsertAt(s, k, l);
    forall i | 0 <= i < |r| ensures r[i] == if i < k then s[i] else if i == k then l else s[i - 1] {}
  }

  function DropAt(s: seq<Lease>, k: nat): seq<Lease>
    requires k < |s|
  {
    s[..k] + s[k + 1..]
  }

  lemma DropKeeps(s: seq<Lease>, lo: int, hi: int, plus: int, k: nat)
    requires ListOk(s, lo, hi, plus) && k < |s|
    ensures ListOk(DropAt(s, k), lo, hi, plus)
  {
    var r := DropAt(s, k);
    forall i | 0 <= i < |r| ensures r[i] == s[if i < k then i else i + 1] {}
  }

  lemma RefreshKeeps(s: seq<Lease>, lo: int, hi: int, plus: int, plus': int, k: nat, timer: int)
    requires ListOk(s, lo, hi, plus) && k < |s| && 0 < timer < TWO32 && lo <= plus' <= hi
    ensures ListOk(s[k := s[k].(timer := timer)], lo, hi, plus')
  {
  }
}
