/** The DHCP server's lease table: one packet, or one second, at a time. */
module Dhcp {
  import opened DhcpPool
  import opened Options

  const MAX_LEASE: int := 0x64
  const MAX_STATIONS: int := 8

  datatype Kind = Discover | Request | Decline | Release | OtherKind

  datatype Reply = Offer | Ack | Nak | Idle | Released

  /** parse_options: the answer, given the address the station has and whether it asked for just that address. */
  function Answer(kind: Kind, requested: Option<int>, client: int, renew: bool): Reply {
    var asked := if requested == None then Idle else if requested == Some(client) then Ack else Nak;
    match kind
    case Discover => Offer
    case Request => if asked == Idle then (if renew then Ack else Nak) else asked
    case Decline => Idle
    case Release => Released
    case OtherKind => asked
  }

  /** What a station is told, given the address it holds: an offer when it asks around; when it requests an address,
      whether that is the one it holds; without a requested address, whether it named its own lease. */
  ghost predicate Told(kind: Kind, requested: Option<int>, client: int, renew: bool, reply: Reply) {
    && (kind == Discover ==> reply == Offer)
    && (kind == Request && requested.Some? && requested.value == client ==> reply == Ack)
    && (kind == Request && requested.Some? && requested.value != client ==> reply == Nak)
    && (kind == Request && requested.None? ==> reply == if renew then Ack else Nak)
    && (kind == Decline ==> reply == Idle)
    && (kind == Release ==> reply == Released)
    && (kind == OtherKind && requested.None? ==> reply == Idle)
    && (kind == OtherKind && requested.Some? && requested.value == client ==> reply == Ack)
    && (kind == OtherKind && requested.Some? && requested.value != client ==> reply == Nak)
  }

  /** The station holds the address, or is the one to get it: it is new, and the pool is not full. */
  ghost predicate Entitled(s: seq<Lease>, lo: int, hi: int, plus: int, mac: int, ip: int) {
    if HasMac(s, mac) then Holds(s, mac, ip) else !Full(s, lo, hi) && ip == Pick(s, lo, hi, plus)
  }

  // ---------------------------------------------------------------- the address pool

  /** A pool the server may hand out of: in its own /24, without its own address, at most 101 addresses. */
  predicate PoolFits(lo: int, hi: int, server: int) {
    lo <= hi && lo / 256 == server / 256 && hi / 256 == server / 256 && !(lo <= server <= hi) && hi - lo <= MAX_LEASE
  }

  /** dhcps_poll_set: a configured pool is used exactly when it fits; otherwise a hundred addresses beside the
      server's own. */
  method PollSet(enabled: bool, lo: int, hi: int, server: int) returns (lo': int, hi': int)
    requires 0 <= lo < TWO32 && 0 <= hi < TWO32 && 0 <= server < TWO32
    ensures PoolFits(lo', hi', server) && 0 <= lo' <= hi' < TWO32
    ensures enabled && PoolFits(lo, hi, server) ==> lo' == lo && hi' == hi
    ensures !(enabled && PoolFits(lo, hi, server)) ==>
      && lo' == (if server % 256 >= 0x80 then server - MAX_LEASE else server + 1)
      && hi' - lo' == 99 && hi' % 256 <= 254 && lo' % 256 > 0
  {
    var enable := enabled;
    if enable {
      if lo <= server <= hi {
        enable := false;
      } else if lo / 256 != server / 256 || hi / 256 != server / 256 || (hi - lo) % TWO32 > MAX_LEASE {
        enable := false;
      }
    }
    if enable { return lo, hi; }
    lo', hi' := DefaultPool(server);
  }

  method DefaultPool(server: int) returns (lo: int, hi: int)
    requires 0 <= server < TWO32
    ensures PoolFits(lo, hi, server) && 0 <= lo <= hi < TWO32
    ensures lo == (if server % 256 >= 0x80 then server - MAX_LEASE else server + 1)
    ensures hi - lo == 99 && hi % 256 <= 254 && lo % 256 > 0
  {
    var net, local := server / 256 * 256, server % 256;
    if local >= 0x80 {
      local := local - MAX_LEASE;
    } else {
      local := local + 1;
    }
    lo, hi := net + local, net + (local + MAX_LEASE - 1);
    InNet(server / 256, local);
    InNet(server / 256, local + MAX_LEASE - 1);
  }

  lemma InNet(net: int, local: int)
    requires 0 <= local < 256
    ensures (net * 256 + local) / 256 == net && (net * 256 + local) % 256 == local
  {
  }

  // ---------------------------------------------------------------- aging

  function Aged(s: seq<Lease>): seq<Lease> {
    if s == [] then []
    else
      var l := s[0].(timer := (s[0].timer - 1) % TWO32);
      (if l.timer == 0 then [] else [l]) + Aged(s[1..])
  }

  /** k is the first of the shortest remaining times in s[from..]. */
  ghost predicate Oldest(s: seq<Lease>, from: nat, k: nat) {
    && from <= k < |s|
    && (forall i :: from <= i < |s| ==> s[k].timer <= s[i].timer)
    && (forall i :: from <= i < k ==> s[k].timer < s[i].timer)
  }

  class Server {
    const server: int
    const lo: int
    const hi: int
    const leaseTimer: int
    var leases: seq<Lease>
    var plus: int

    ghost predicate Valid()
      reads this
    {
      && PoolOk(lo, hi) && hi % 256 < 255 && !(lo <= server <= hi) && 0 < leaseTimer < TWO32
      && ListOk(leases, lo, hi, plus)
    }

    constructor (server: int, lo: int, hi: int, leaseTimer: int)
      requires PoolOk(lo, hi) && hi % 256 < 255 && !(lo <= server <= hi) && 0 < leaseTimer < TWO32
      ensures Valid() && leases == [] && plus == lo && this.lo == lo && this.hi == hi && this.server == server
      ensures this.leaseTimer == leaseTimer
    {
      this.server, this.lo, this.hi, this.leaseTimer := server, lo, hi, leaseTimer;
      leases := [];
      plus := lo;
    }

    /** The walk over the list: where the station's lease is, or -1; the pointer and the first gap as they came out. */
    method Scan(mac: int) returns (at: int, pointer: int, first: int)
      requires Valid()
      ensures -1 <= at < |leases|
      ensures at >= 0 ==> leases[at].mac == mac && pointer == Skip(leases[..at], plus) && lo <= pointer <= hi
      ensures at < 0 ==> !HasMac(leases, mac) && pointer == Skip(leases, plus) && first == Gap(leases, lo)
    {
      hide ListOk, PoolOk, Net, Skip, Gap, Searching;
      pointer, first := plus, lo;
      var flag := false;
      var i := 0;
      SearchStart(leases, lo);
      assert pointer == Skip(leases[..0], plus) by { SkipNone(leases, plus); }
      while i < |leases|
        invariant 0 <= i <= |leases| && forall j :: 0 <= j < i ==> leases[j].mac != mac
        invariant pointer == Skip(leases[..i], plus) && Searching(leases, lo, i, first, flag)
      {
        if leases[i].mac == mac {
          PointerInPool(leases, lo, hi, plus, i);
          return i, pointer, first;
        }
        SkipSnoc(leases, i, plus);
        SearchStep(leases, lo, hi, plus, i, first, flag);
        if leases[i].ip == pointer { pointer := pointer + 1; }
        if !flag {
          if Net(first) < Net(leases[i].ip) { flag := true; } else { first := first + 1; }
        }
        i := i + 1;
      }
      SearchEnd(leases, lo, first, flag);
      assert leases[..i] == leases;
      at := -1;
    }

    /** node_insert_to_list: in front of the first lease with a higher address. */
    method Insert(l: Lease) returns (k: nat)
      requires Valid() && lo <= l.ip <= hi && !Leased(leases, l.ip)
      modifies `leases
      ensures k <= |old(leases)| && Slot(old(leases), k, l.ip) && leases == InsertAt(old(leases), k, l)
    {
      hide ListOk, PoolOk, Net, Leased;
      var i := 0;
      while i < |leases| && !(Net(l.ip) < Net(leases[i].ip))
        invariant 0 <= i <= |leases| && leases == old(leases) && forall j :: 0 <= j < i ==> leases[j].ip < l.ip
      {
        Compare(leases, lo, hi, plus, i, l.ip);
        i := i + 1;
      }
      if i < |leases| { Compare(leases, lo, hi, plus, i, l.ip); }
      k := i;
      leases := leases[..i] + [l] + leases[i..];
    }

    /** parse_msg, from a packet's hardware address, ciaddr, message type and requested address. */
    method Handle(mac: int, ciaddr: int, kind: Kind, requested: Option<int>) returns (reply: Reply, client: int)
      requires Valid()
      modifies this
      ensures Valid()
      ensures forall k :: 0 <= k < |old(leases)| && old(leases)[k].mac == mac ==>
        && reply == Answer(kind, requested, old(leases)[k].ip, ciaddr == old(leases)[k].ip)
        && leases == Known(old(leases), k, kind, leaseTimer) && (kind != Release ==> client == old(leases)[k].ip)
        && plus == Skip(old(leases)[..k], old(plus))
      ensures !HasMac(old(leases), mac) && Full(old(leases), lo, hi) ==>
          reply == Nak && leases == old(leases) && plus == lo
      ensures !HasMac(old(leases), mac) && !Full(old(leases), lo, hi) ==>
          Granted(old(leases), leases, Pick(old(leases), lo, hi, old(plus)), mac, leaseTimer, kind)
      ensures !HasMac(old(leases), mac) && !Full(old(leases), lo, hi) ==>
          var ip := Pick(old(leases), lo, hi, old(plus));
        && lo <= ip <= hi && !Leased(old(leases), ip) && reply == Answer(kind, requested, ip, false)
        && (kind != Release ==> client == ip) && plus == if ip == hi then lo else ip + 1
      ensures reply == Offer || reply == Ack ==> Holds(leases, mac, client)
      ensures forall ip :: Entitled(old(leases), lo, hi, old(plus), mac, ip) ==>
        Told(kind, requested, ip, HasMac(old(leases), mac) && ciaddr == ip, reply)
    {
      hide ListOk, PoolOk, Net, Skip, Gap, Full, Leased, Slot, SortedByIp, UniqueMacs;
      var at, pointer, first := Scan(mac);
      if at >= 0 {
        reply, client := HandleKnown(at, pointer, ciaddr, kind, requested);
        OneMac(old(leases), lo, hi, old(plus), mac, at);
        if kind != Release { assert leases[at].mac == mac && leases[at].ip == client; }
      } else {
        reply, client := HandleUnknown(mac, pointer, first, kind, requested);
        if !Full(old(leases), lo, hi) && kind != Release {
          GrantedHolds(old(leases), leases, client, mac, leaseTimer, kind);
        }
      }
    }

    method HandleKnown(at: nat, pointer: int, ciaddr: int, kind: Kind, requested: Option<int>)
        returns (reply: Reply, client: int)
      requires Valid() && at < |leases| && lo <= pointer <= hi
      modifies this
      ensures Valid() && plus == pointer && leases == Known(old(leases), at, kind, leaseTimer)
      ensures reply == Answer(kind, requested, old(leases)[at].ip, ciaddr == old(leases)[at].ip)
      ensures client == if kind == Release then 0 else old(leases)[at].ip
    {
      hide ListOk, PoolOk;
      client := leases[at].ip;
      RefreshKeeps(leases, lo, hi, plus, pointer, at, leaseTimer);
      plus := pointer;
      leases := leases[at := leases[at].(timer := leaseTimer)];
      reply := Answer(kind, requested, client, ciaddr == client);
      if reply == Released {
        DropKeeps(leases, lo, hi, plus, at);
        leases := leases[..at] + leases[at + 1..];
        client := 0;
      }
    }

    method HandleUnknown(mac: int, pointer: int, first: int, kind: Kind, requested: Option<int>)
        returns (reply: Reply, client: int)
      requires Valid() && !HasMac(leases, mac) && pointer == Skip(leases, plus) && first == Gap(leases, lo)
      modifies this
      ensures Valid()
      ensures Full(old(leases), lo, hi) ==> reply == Nak && leases == old(leases) && plus == lo
      ensures !Full(old(leases), lo, hi) ==>
          Granted(old(leases), leases, Pick(old(leases), lo, hi, old(plus)), mac, leaseTimer, kind)
      ensures !Full(old(leases), lo, hi) ==> var ip := Pick(old(leases), lo, hi, old(plus));
        && lo <= ip <= hi && !Leased(old(leases), ip) && reply == Answer(kind, requested, ip, false)
        && client == (if kind == Release then 0 else ip) && plus == if ip == hi then lo else ip + 1
    {
      hide ListOk, PoolOk, Net, Skip, Gap, Full, Leased, Slot;
      client := if leases == [] then lo else pointer;
      PickInPool(leases, lo, hi, plus);
      EmptyPointer(leases, lo, hi, plus);
      if Net(pointer) > Net(hi) { client := first; }
      assert client == Pick(leases, lo, hi, plus);
      if Net(client) > Net(hi) {
        plus := lo;
        PointerMoves(leases, lo, hi, old(plus), lo);
        return Nak, client;
      }
      var k := Insert(Lease(client, mac, leaseTimer));
      ghost var was := old(leases);
      plus := if client == hi then lo else client + 1;
      InsertKeeps(was, lo, hi, old(plus), plus, k, Lease(client, mac, leaseTimer));
      reply := Answer(kind, requested, client, false);
      if reply == Released {
        DropKeeps(leases, lo, hi, plus, k);
        assert leases[..k] == was[..k] && leases[k + 1..] == was[k..];
        leases := leases[..k] + leases[k + 1..];
        client := 0;
      }
    }

    /** dhcps_coarse_tmr: a second passes for every lease; with eight or more left, one has to go. */
    method CoarseTimer()
      requires Valid()
      modifies this
      ensures Valid() && plus == old(plus)
      ensures |Aged(old(leases))| < MAX_STATIONS ==> leases == Aged(old(leases))
      ensures |Aged(old(leases))| >= MAX_STATIONS ==>
        exists k: nat :: Oldest(Aged(old(leases)), 1, k) && leases == DropAt(Aged(old(leases)), k)
    {
      hide ListOk, PoolOk, Aged;
      var count := 0;
      var i := 0;
      AgedKeeps(leases, lo, hi, plus);
      assert leases[0..] == leases && leases[..0] == [];
      while i < |leases|
        invariant 0 <= i <= |leases| && count == i && plus == old(plus)
        invariant leases[..i] + Aged(leases[i..]) == Aged(old(leases))
        decreases |leases| - i
      {
        AgedStep(leases, i);
        var timer := (leases[i].timer - 1) % TWO32;
        if timer == 0 {
          leases := leases[..i] + leases[i + 1..];
        } else {
          leases := leases[i := leases[i].(timer := timer)];
          i, count := i + 1, count + 1;
        }
      }
      AgedNone(leases[i..]);
      assert leases == leases[..i] + [] == Aged(old(leases));
      if count >= MAX_STATIONS { KillOldest(); }
    }

    /** kill_oldest_dhcps_pool: the shortest remaining time behind the first lease. */
    method KillOldest()
      requires Valid() && |leases| >= 2
      modifies this
      ensures Valid() && plus == old(plus)
      ensures exists k: nat :: Oldest(old(leases), 1, k) && leases == DropAt(old(leases), k)
    {
      var min, p := 1, 1;
      while p < |leases|
        invariant 1 <= min < |leases| && 1 <= p <= |leases| && leases == old(leases) && plus == old(plus)
        invariant min == 1 || min < p
        invariant forall i :: 1 <= i < p ==> leases[min].timer <= leases[i].timer
        invariant forall i :: 1 <= i < min ==> leases[min].timer < leases[i].timer
      {
        if leases[p].timer < leases[min].timer { min := p; }
        p := p + 1;
      }
      assert Oldest(leases, 1, min);
      DropKeeps(leases, lo, hi, plus, min);
      leases := leases[..min] + leases[min + 1..];
    }
  }

  // ---------------------------------------------------------------- aging, step by step

  lemma AgedNone(s: seq<Lease>)
    requires s == []
    ensures Aged(s) == []
  {
  }

  /** What the loop does to lease i leaves the outcome the same. */
  lemma AgedStep(s: seq<Lease>, i: nat)
    requires i < |s|
    ensures var timer := (s[i].timer - 1) % TWO32;
      var dropped, kept := s[..i] + s[i + 1..], s[i := s[i].(timer := timer)];
      && (timer == 0 ==> dropped[..i] + Aged(dropped[i..]) == s[..i] + Aged(s[i..]))
      && (timer != 0 ==> kept[..i + 1] + Aged(kept[i + 1..]) == s[..i] + Aged(s[i..]))
  {
    var l := s[i].(timer := (s[i].timer - 1) % TWO32);
    var dropped, kept := s[..i] + s[i + 1..], s[i := l];
    assert s[i..][0] == s[i] && s[i..][1..] == s[i + 1..];
    assert Aged(s[i..]) == (if l.timer == 0 then [] else [l]) + Aged(s[i + 1..]);
    assert dropped[..i] == s[..i] && dropped[i..] == s[i + 1..];
    assert kept[i + 1..] == s[i + 1..] && kept[..i + 1] == s[..i] + [l];
  }

  /** The survivors keep their addresses, stations and order. */
  lemma {:induction false} AgedFrom(s: seq<Lease>, i: nat) returns (m: nat)
    requires i < |Aged(s)|
    ensures m < |s| && i <= m && Aged(s)[i] == s[m].(timer := (s[m].timer - 1) % TWO32) && Aged(s)[i].timer != 0
    decreases |s|
  {
    var l := s[0].(timer := (s[0].timer - 1) % TWO32);
    if l.timer != 0 && i == 0 {
      m := 0;
    } else {
      var i' := if l.timer == 0 then i else i - 1;
      m := AgedFrom(s[1..], i');
      m := m + 1;
    }
  }

  lemma {:induction false} AgedOrdered(s: seq<Lease>, i: nat, j: nat)
    requires SortedByIp(s) && UniqueMacs(s) && i < j < |Aged(s)|
    ensures Aged(s)[i].ip < Aged(s)[j].ip && Aged(s)[i].mac != Aged(s)[j].mac
    decreases |s|
  {
    var l := s[0].(timer := (s[0].timer - 1) % TWO32);
    var d := if l.timer == 0 then 0 else 1;
    var m := AgedFrom(s[1..], j - d);
    assert s[m + 1] == s[1..][m];
    if i >= d { AgedOrdered(s[1..], i - d, j - d); }
  }

  lemma AgedKeeps(s: seq<Lease>, lo: int, hi: int, plus: int)
    requires ListOk(s, lo, hi, plus)
    ensures ListOk(Aged(s), lo, hi, plus)
  {
    forall i, j | 0 <= i < j < |Aged(s)| ensures Aged(s)[i].ip < Aged(s)[j].ip && Aged(s)[i].mac != Aged(s)[j].mac {
      AgedOrdered(s, i, j);
    }
    forall i | 0 <= i < |Aged(s)| ensures lo <= Aged(s)[i].ip <= hi && 0 < Aged(s)[i].timer < TWO32 {
      var m := AgedFrom(s, i);
    }
  }

  /** The lease that goes is the oldest of all exactly when some lease behind the first has no more time
      left than it. */
  lemma OldestOfAll(s: seq<Lease>, k: nat)
    requires Oldest(s, 1, k)
    ensures (forall i :: 0 <= i < |s| ==> s[k].timer <= s[i].timer) <==>
        exists i :: 1 <= i < |s| && s[i].timer <= s[0].timer
  {
    if s[k].timer <= s[0].timer { assert 1 <= k < |s|; }
  }

  // ---------------------------------------------------------------- a run that evicts the wrong lease

  /** Stations 0 to n - 1 in a row from lo on; the first has t0 seconds left, the others t. */
  ghost predicate Row(s: seq<Lease>, lo: int, n: nat, t0: int, t: int) {
    |s| == n && forall i :: 0 <= i < n ==> s[i] == Lease(lo + i, i, if i == 0 then t0 else t)
  }

  lemma {:induction false} AgedAll(s: seq<Lease>)
    requires forall i :: 0 <= i < |s| ==> 1 < s[i].timer < TWO32
    ensures |Aged(s)| == |s| && forall i :: 0 <= i < |s| ==> Aged(s)[i] == s[i].(timer := s[i].timer - 1)
  {
    if s != [] { AgedAll(s[1..]); }
  }

  /** The next station asks and gets the next address. */
  method Join(srv: Server, n: nat, ghost t0: int)
    requires srv.Valid() && Row(srv.leases, srv.lo, n, t0, srv.leaseTimer) && srv.plus == srv.lo + n < srv.hi
    modifies srv
    ensures srv.Valid() && srv.plus == srv.lo + n + 1
    ensures Row(srv.leases, srv.lo, n + 1, if n == 0 then srv.leaseTimer else t0, srv.leaseTimer)
  {
    ghost var was := srv.leases;
    NextInRow(was, srv.lo, srv.hi, n, t0, srv.leaseTimer);
    hide Skip, Gap, Net, ListOk, PoolOk, NextFree, Known;
    var reply, client := srv.Handle(n, 0, Discover, None);
    AppendedInRow(was, srv.leases, srv.lo, n, t0, srv.leaseTimer);
  }

  lemma NextInRow(s: seq<Lease>, lo: int, hi: int, n: nat, t0: int, t: int)
    requires PoolOk(lo, hi) && hi % 256 < 255 && ListOk(s, lo, hi, lo + n) && Row(s, lo, n, t0, t) && lo + n < hi
    ensures !HasMac(s, n) && !Leased(s, lo + n) && !Full(s, lo, hi) && Pick(s, lo, hi, lo + n) == lo + n
  {
    SkipIsNextFree(s, lo + n);
    SameBlock(lo, hi, lo + n);
    NetOrder(hi, lo + n);
  }

  lemma AppendedInRow(s: seq<Lease>, s': seq<Lease>, lo: int, n: nat, t0: int, t: int)
    requires Row(s, lo, n, t0, t) && Granted(s, s', lo + n, n, t, Discover)
    ensures Row(s', lo, n + 1, if n == 0 then t else t0, t)
  {
    var k: nat :| Slot(s, k, lo + n) && s' == InsertAt(s, k, Lease(lo + n, n, t));
    if n > 0 {
      var i := if k < n then k else 0;
      assert s[i].ip == lo + i;
    }
  }

  /** Eight stations join, the first a second before the others. The timer evicts station 1 and spares station 0,
      which has less time left. */
  method OldestSpared() returns (srv: Server)
    ensures fresh(srv) && srv.Valid() && |srv.leases| == 7
    ensures srv.leases[0] == Lease(srv.lo, 0, 7198) && !HasMac(srv.leases, 1)
    ensures forall i :: 1 <= i < 7 ==> srv.leases[i] == Lease(srv.lo + i + 1, i + 1, 7199)
  {
    hide ListOk, PoolOk, Aged;
    srv := new Server(0xC0A80401, 0xC0A80402, 0xC0A80465, 7200);
    Join(srv, 0, 7200);
    AgedAll(srv.leases);
    srv.CoarseTimer();
    var n := 1;
    while n < 8
      invariant 1 <= n <= 8 && srv.Valid() && fresh(srv) && srv.lo == 0xC0A80402 && srv.hi == 0xC0A80465
      invariant srv.leaseTimer == 7200 && srv.plus == srv.lo + n && Row(srv.leases, srv.lo, n, 7199, 7200)
    {
      Join(srv, n, 7199);
      n := n + 1;
    }
    ghost var s := srv.leases;
    AgedAll(s);
    srv.CoarseTimer();
    ghost var k: nat :| Oldest(Aged(s), 1, k) && srv.leases == DropAt(Aged(s), k);
    assert Aged(s)[1].timer == Aged(s)[k].timer;
  }

  lemma Compare(s: seq<Lease>, lo: int, hi: int, plus: int, i: nat, ip: int)
    requires PoolOk(lo, hi) && hi % 256 < 255 && ListOk(s, lo, hi, plus) && i < |s| && lo <= ip <= hi && !Leased(s, ip)
    ensures Net(ip) < Net(s[i].ip) <==> ip < s[i].ip
    ensures ip != s[i].ip && forall j :: i < j < |s| ==> s[i].ip < s[j].ip
  {
    SameBlock(lo, hi, ip);
    SameBlock(lo, hi, s[i].ip);
    NetOrder(ip, s[i].ip);
  }

  /** A known station's lease after its packet: released, or running anew at the same address. */
  function Known(s: seq<Lease>, k: nat, kind: Kind, timer: int): seq<Lease>
    requires k < |s|
  {
    if kind == Release then DropAt(s, k) else s[k := s[k].(timer := timer)]
  }

  /** A new lease in its place, unless the packet was a release. */
  ghost predicate Granted(s: seq<Lease>, s': seq<Lease>, ip: int, mac: int, timer: int, kind: Kind) {
    if kind == Release then s' == s
    else exists k: nat :: Slot(s, k, ip) && s' == InsertAt(s, k, Lease(ip, mac, timer))
  }

  ghost predicate Holds(s: seq<Lease>, mac: int, ip: int) {
    exists i :: 0 <= i < |s| && s[i].mac == mac && s[i].ip == ip
  }

  lemma GrantedHolds(s: seq<Lease>, s': seq<Lease>, ip: int, mac: int, timer: int, kind: Kind)
    requires Granted(s, s', ip, mac, timer, kind) && kind != Release
    ensures Holds(s', mac, ip)
  {
    var k: nat :| Slot(s, k, ip) && s' == InsertAt(s, k, Lease(ip, mac, timer));
    assert s'[k] == Lease(ip, mac, timer);
  }

  lemma OneMac(s: seq<Lease>, lo: int, hi: int, plus: int, mac: int, at: nat)
    requires ListOk(s, lo, hi, plus) && at < |s| && s[at].mac == mac
    ensures forall k :: 0 <= k < |s| && s[k].mac == mac ==> k == at
  {
  }

  lemma EmptyPointer(s: seq<Lease>, lo: int, hi: int, plus: int)
    requires PoolOk(lo, hi) && hi % 256 < 255 && ListOk(s, lo, hi, plus)
    ensures lo <= hi && (s == [] ==> !(Net(Skip(s, plus)) > Net(hi)))
  {
    SameBlock(lo, hi, plus);
    NetOrder(hi, plus);
  }

  lemma PointerMoves(s: seq<Lease>, lo: int, hi: int, plus: int, plus': int)
    requires ListOk(s, lo, hi, plus) && lo <= plus' <= hi
    ensures ListOk(s, lo, hi, plus')
  {
  }

  lemma SkipNone(s: seq<Lease>, a: int)
    ensures Skip(s[..0], a) == a
  {
  }
}
