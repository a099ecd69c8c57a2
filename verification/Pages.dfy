/** The page allocator below the slab allocator: a list of free page runs, each headed by a record in its
    own first page. */
module Pages {
  import opened ChainList
  import opened PageRuns

  ghost function Starts(runs: seq<Run>): (s: seq<int>)
    ensures |s| == |runs| && forall i :: 0 <= i < |runs| ==> s[i] == runs[i].start
  {
    seq(|runs|, i requires 0 <= i < |runs| => runs[i].start)
  }

  /** The headers in memory spell out the runs. */
  ghost predicate Linked(next: Links, size: map<int, int>, head: int, runs: seq<Run>) {
    && IsList(next, head, Starts(runs))
    && forall i :: 0 <= i < |runs| ==> runs[i].start in size && size[runs[i].start] == runs[i].len
  }

  /** Only the first words of free pages changed. */
  ghost predicate OutsideKept(m: map<int, int>, m': map<int, int>, runs: seq<Run>) {
    forall p :: !Covers(runs, p) ==> (p in m <==> p in m') && (p in m && p in m' ==> m[p] == m'[p])
  }

  lemma LinkedReplace(next: Links, size: map<int, int>, head: int, runs: seq<Run>, i: nat, n: int, len: int)
    requires Linked(next, size, head, runs) && i < |runs| && n !in Starts(runs) && n != NULL
    ensures runs[i].start in next
    ensures Linked(StoreLink(next[n := next[runs[i].start]], Starts(runs), i, n), size[n := len], StoreHead(head, i, n),
                   Around(runs[..i], Run(n, len), runs[i + 1..]))
  {
    ReplaceAt(next, head, Starts(runs), i, n);
    var runs' := Around(runs[..i], Run(n, len), runs[i + 1..]);
    assert Starts(runs') == Starts(runs)[i := n];
    forall k | 0 <= k < |runs'| && k != i ensures runs'[k] == runs[k] && runs[k].start != n {
      assert Starts(runs)[k] == runs[k].start;
    }
  }

  lemma LinkedDrop(next: Links, size: map<int, int>, head: int, runs: seq<Run>, i: nat)
    requires Linked(next, size, head, runs) && i < |runs|
    ensures runs[i].start in next
    ensures Linked(StoreLink(next, Starts(runs), i, next[runs[i].start]), size, StoreHead(head, i, next[runs[i].start]),
                   runs[..i] + runs[i + 1..])
  {
    DropAt(next, head, Starts(runs), i);
    var runs' := runs[..i] + runs[i + 1..];
    assert Starts(runs') == Starts(runs)[..i] + Starts(runs)[i + 1..];
    forall k | 0 <= k < |runs'| ensures runs'[k] == runs[if k < i then k else k + 1] {}
  }

  lemma LinkedInsert(next: Links, size: map<int, int>, head: int, runs: seq<Run>, i: nat, n: int, len: int)
    requires Linked(next, size, head, runs) && i <= |runs| && n !in Starts(runs) && n != NULL
    ensures var b := if i < |runs| then runs[i].start else NULL;
      Linked(StoreLink(next[n := b], Starts(runs), i, n), size[n := len], StoreHead(head, i, n),
             Around(runs[..i], Run(n, len), runs[i..]))
  {
    InsertBefore(next, head, Starts(runs), i, n);
    var runs' := Around(runs[..i], Run(n, len), runs[i..]);
    assert Starts(runs') == Starts(runs)[..i] + [n] + Starts(runs)[i..];
    forall k | 0 <= k < |runs'| && k != i ensures runs'[k] == runs[if k < i then k else k - 1] && runs'[k].start != n {
      assert Starts(runs)[if k < i then k else k - 1] == runs'[k].start;
    }
  }

  lemma LinkedResize(next: Links, size: map<int, int>, head: int, runs: seq<Run>, i: nat, len: int)
    requires Linked(next, size, head, runs) && i < |runs|
    ensures Linked(next, size[runs[i].start := len], head, Around(runs[..i], Run(runs[i].start, len), runs[i + 1..]))
  {
    var runs' := Around(runs[..i], Run(runs[i].start, len), runs[i + 1..]);
    assert Starts(runs') == Starts(runs);
    var s := Starts(runs);
    forall k | 0 <= k < |runs'| && k != i ensures runs'[k] == runs[k] && runs[k].start != runs[i].start {
      assert s[k] == runs[k].start && s[i] == runs[i].start;
    }
  }

  lemma Split(runs: seq<Run>, i: nat)
    requires i < |runs|
    ensures runs == Around(runs[..i], runs[i], runs[i + 1..])
  {
  }

  /** An address strictly inside a run, or in no run, heads no run. */
  lemma NotAStart(runs: seq<Run>, n: int, i: nat)
    requires Canonical(runs) && i < |runs| && runs[i].start < n < End(runs[i])
    ensures n !in Starts(runs)
  {
  }

  lemma TakenNotAStart(runs: seq<Run>, x: int, n: int)
    requires Canonical(runs) && Taken(runs, x, n) && n > 0
    ensures x !in Starts(runs)
  {
    if x in Starts(runs) {
      var k :| 0 <= k < |runs| && Starts(runs)[k] == x;
      StartCovered(runs, k);
    }
  }

  lemma StartCovered(runs: seq<Run>, i: nat)
    requires Canonical(runs) && i < |runs|
    ensures Covers(runs, runs[i].start)
  {
    assert Holds(runs[i], runs[i].start);
  }

  /** All of [x, x + n) is free. */
  ghost predicate AllFree(runs: seq<Run>, x: int, n: int) {
    forall p :: x <= p < x + n ==> Covers(runs, p)
  }

  lemma RunIsFree(runs: seq<Run>, i: nat, n: int)
    requires i < |runs| && n <= runs[i].len
    ensures AllFree(runs, runs[i].start, n)
  {
    forall p | runs[i].start <= p < runs[i].start + n ensures Covers(runs, p) {
      assert Holds(runs[i], p);
    }
  }

  /** If the first i runs are too short, no fitting range starts below run i. */
  lemma NothingLower(runs: seq<Run>, i: nat, n: nat, x: int)
    requires Canonical(runs) && n > 0 && i <= |runs| && forall k :: 0 <= k < i ==> runs[k].len < n
    requires AllFree(runs, x, n)
    ensures i < |runs| && runs[i].start <= x
  {
    var k := InOneRun(runs, x, n);
    assert i < k ==> End(runs[i]) < runs[k].start;
  }

  ghost function At(runs: seq<Run>, i: nat): int {
    if i < |runs| then runs[i].start else NULL
  }

  class PageAllocator {
    var head: int
    var next: Links
    var size: map<int, int>
    ghost var runs: seq<Run>

    ghost var lists: seq<seq<Run>>   // every list since rt_page_init
    ghost var ops: seq<Op>           // what led from one to the next

    ghost predicate Shaped()
      reads this
    {
      Canonical(runs) && Linked(next, size, head, runs)
    }

    ghost predicate Valid()
      reads this
    {
      Shaped() && History(lists, ops) && lists[|ops|] == runs
    }

    /** rt_page_init: one run. */
    constructor (addr: int, npages: int)
      requires addr > 0 && npages > 0
      ensures Valid() && runs == [Run(addr, npages)] && lists == [runs] && ops == []
    {
      head := NULL;
      next := map[];
      size := map[];
      runs := [];
      ops := [];
      new;
      assert Linked(next, size, head, runs) && Canonical(runs);
      Give(addr, npages);
      assert runs == [Run(addr, npages)] by {
        var one := [Run(addr, npages)];
        forall p ensures Covers(runs, p) <==> Covers(one, p) {
          assert Covers(runs, p) <==> addr <= p < addr + npages;
          assert Holds(one[0], p) <==> addr <= p < addr + npages;
        }
        CanonicalUnique(runs, one);
      }
      lists := [runs];
    }

    /** rt_page_alloc: the lowest n consecutive free pages, or null when there are none. */
    method Alloc(npages: nat) returns (b: int)
      requires Valid()
      modifies this
      ensures Valid()
      ensures b >= 0 && (b == NULL <==> npages == 0 || forall x :: !AllFree(old(runs), x, npages))
      ensures b == NULL ==> runs == old(runs) && head == old(head) && next == old(next) && size == old(size)
      ensures b != NULL ==> AllFree(old(runs), b, npages) && Removes(old(runs), runs, b, npages)
      ensures b != NULL ==> forall x :: AllFree(old(runs), x, npages) ==> b <= x
      ensures OutsideKept(old(next), next, runs) && OutsideKept(old(size), size, runs)
      ensures ops == old(ops) + (if b == NULL then [] else [Took(b, npages)])
      ensures lists == old(lists) + (if b == NULL then [] else [runs])
    {
      hide Canonical, Linked, Covers, AllFree, Removes, OutsideKept, History;
      b := Take(npages);
      if b != NULL {
        OneMore(lists, ops, Took(b, npages), runs);
        lists, ops := lists + [runs], ops + [Took(b, npages)];
      }
    }

    /** rt_page_free: the pages [x, x + n) become free; touching runs melt into one. */
    method Free(x: int, npages: int)
      requires Valid() && x > 0 && npages > 0 && Taken(runs, x, npages)
      modifies this
      ensures Valid() && Adds(old(runs), runs, x, npages)
      ensures OutsideKept(old(next), next, runs) && OutsideKept(old(size), size, runs)
      ensures ops == old(ops) + [Gave(x, npages)] && lists == old(lists) + [runs]
    {
      hide Canonical, Linked, Covers, Taken, Adds, OutsideKept, History;
      Give(x, npages);
      OneMore(lists, ops, Gave(x, npages), runs);
      lists, ops := lists + [runs], ops + [Gave(x, npages)];
    }

    /** Whatever was taken from this allocator and given back, in whatever order and in whatever pieces: once every page
        is back, its list is the one rt_page_init made, merged runs and all. */
    lemma EverythingBack()
      requires Valid() && forall p :: Net(ops, p) == 0
      ensures runs == lists[0]
    {
      AllBack(lists, ops);
    }

    /** `*prev = v`; prev is null for the list head. */
    method Store(prev: int, v: int)
      modifies `head, `next
      ensures head == (if prev == NULL then v else old(head))
      ensures next == (if prev == NULL then old(next) else old(next)[prev := v])
    {
      if prev == NULL {
        head := v;
      } else {
        next := next[prev := v];
      }
    }

    method Take(npages: nat) returns (b: int)
      requires Shaped()
      modifies `head, `next, `size, `runs
      ensures Shaped()
      ensures b >= 0 && (b == NULL <==> npages == 0 || forall x :: !AllFree(old(runs), x, npages))
      ensures b == NULL ==> runs == old(runs) && head == old(head) && next == old(next) && size == old(size)
      ensures b != NULL ==> AllFree(old(runs), b, npages) && Removes(old(runs), runs, b, npages)
      ensures b != NULL ==> forall x :: AllFree(old(runs), x, npages) ==> b <= x
      ensures OutsideKept(old(next), next, runs) && OutsideKept(old(size), size, runs)
    {
      hide Canonical, IsList, Covers, AllFree, Removes;
      if npages == 0 { return NULL; }
      var prev := NULL;
      b := head;
      ghost var i := 0;
      assert b == At(runs, 0) by { HeadIs(); }
      while b != NULL
        invariant 0 <= i <= |runs| && b == At(runs, i) && prev == Before(runs, i)
        invariant forall k :: 0 <= k < i ==> runs[k].len < npages
        invariant Shaped() && runs == old(runs) && head == old(head) && next == old(next) && size == old(size)
        decreases |runs| - i
      {
        NodeAt(i);
        if size[b] > npages {
          SplitFront(prev, b, npages, i);
          FirstFit(old(runs), i, npages);
          return;
        }
        if size[b] == npages {
          TakeRun(prev, b, i);
          FirstFit(old(runs), i, npages);
          return;
        }
        prev := b;
        b := next[b];
        i := i + 1;
      }
      AtEnd(runs, i);
      NoFit(runs, npages);
    }

    lemma HeadIs()
      requires Linked(next, size, head, runs)
      ensures head == At(runs, 0)
    {
    }

    lemma NodeAt(i: nat)
      requires Shaped() && At(runs, i) != NULL && i <= |runs|
      ensures i < |runs| && runs[i].start in next && runs[i].start in size
      ensures size[runs[i].start] == runs[i].len && next[runs[i].start] == At(runs, i + 1) && runs[i].start > 0
      ensures runs[i].len > 0
    {
      Suffix(next, head, Starts(runs), i);
    }

    lemma FirstFit(runs: seq<Run>, i: nat, n: nat)
      requires Canonical(runs) && i < |runs| && 0 < n <= runs[i].len
      requires forall k :: 0 <= k < i ==> runs[k].len < n
      ensures AllFree(runs, runs[i].start, n) && forall x :: AllFree(runs, x, n) ==> runs[i].start <= x
    {
      RunIsFree(runs, i, n);
      forall x | AllFree(runs, x, n) ensures runs[i].start <= x {
        NothingLower(runs, i, n, x);
      }
    }

    lemma NoFit(runs: seq<Run>, n: nat)
      requires Canonical(runs) && n > 0 && forall k :: 0 <= k < |runs| ==> runs[k].len < n
      ensures forall x :: !AllFree(runs, x, n)
    {
      forall x ensures !AllFree(runs, x, n) {
        if AllFree(runs, x, n) { NothingLower(runs, |runs|, n, x); }
      }
    }

    method Give(x: int, npages: int)
      requires Shaped() && x > 0 && npages > 0 && Taken(runs, x, npages)
      modifies `head, `next, `size, `runs
      ensures Shaped() && Adds(old(runs), runs, x, npages)
      ensures OutsideKept(old(next), next, runs) && OutsideKept(old(size), size, runs)
    {
      hide Canonical, IsList, Covers, Taken, Adds, OutsideKept, Around;
      var prev := NULL;
      var b := head;
      ghost var i := 0;
      assert b == At(runs, 0) by { HeadIs(); }
      while b != NULL
        invariant 0 <= i <= |runs| && b == At(runs, i) && prev == Before(runs, i)
        invariant i > 0 ==> End(runs[i - 1]) < x
        invariant Shaped() && runs == old(runs) && head == old(head) && next == old(next) && size == old(size)
        decreases |runs| - i
      {
        NodeAt(i);
        TakenApart(runs, x, npages, i);
        if b + size[b] == x {
          JoinOrBridge(b, x, npages, i);
          return;
        }
        if b == x + npages {
          FrontStep(next, size, head, runs, i, x, npages);
          BeforeLink(runs, i);
          size := size[x := size[b] + npages];
          next := next[x := next[b]];
          Store(prev, x);
          runs := Around(runs[..i], Run(x, npages + runs[i].len), runs[i + 1..]);
          return;
        }
        if b > x + npages { break; }
        prev := b;
        b := next[b];
        i := i + 1;
      }
      if i < |runs| { NodeAtStart(i); }
      NewStep(next, size, head, runs, i, x, npages);
      BeforeLink(runs, i);
      size := size[x := npages];
      next := next[x := b];
      Store(prev, x);
      runs := Around(runs[..i], Run(x, npages), runs[i..]);
    }

    lemma NodeAtStart(i: nat)
      requires Shaped() && i < |runs|
      ensures At(runs, i) != NULL
    {
    }

    /** Run i ends at the freed range; the next run may begin at its end. */
    method JoinOrBridge(b: int, x: int, npages: int, ghost i: nat)
      requires Shaped() && x > 0 && npages > 0 && Taken(runs, x, npages)
      requires i < |runs| && b == runs[i].start && End(runs[i]) == x && b in size && b in next && size[b] == runs[i].len
      requires next[b] == At(runs, i + 1)
      modifies `head, `next, `size, `runs
      ensures Shaped() && Adds(old(runs), runs, x, npages)
      ensures OutsideKept(old(next), next, runs) && OutsideKept(old(size), size, runs)
    {
      hide Canonical, Linked, Covers, Taken, Adds, OutsideKept, Around;
      ghost var was := size;
      if i + 1 < |runs| { AfterJoin(runs, i, x, npages); NodeAt(i + 1); }
      size := size[b := size[b] + npages];
      if b + size[b] == next[b] {
        BridgeStep(next, was, head, runs, i, x, npages);
        size := size[b := size[b] + size[next[b]]];
        assert size == was[b := runs[i].len + npages + runs[i + 1].len];
        next := next[b := next[next[b]]];
        runs := Around(runs[..i], Run(b, runs[i].len + npages + runs[i + 1].len), runs[i + 2..]);
      } else {
        JoinStep(next, was, head, runs, i, x, npages);
        assert OutsideKept(next, next, Around(runs[..i], Run(b, runs[i].len + npages), runs[i + 1..])) by {
          Same(next, runs, i, npages);
        }
        runs := Around(runs[..i], Run(b, runs[i].len + npages), runs[i + 1..]);
      }
    }

    lemma Same(m: Links, runs: seq<Run>, i: nat, n: int)
      requires i < |runs|
      ensures OutsideKept(m, m, Around(runs[..i], Run(runs[i].start, runs[i].len + n), runs[i + 1..]))
    {
    }

    lemma AfterJoin(runs: seq<Run>, i: nat, x: int, n: int)
      requires Canonical(runs) && i + 1 < |runs| && n > 0 && End(runs[i]) == x && Taken(runs, x, n)
      ensures x + n <= runs[i + 1].start && At(runs, i + 1) != NULL
    {
      TakenApart(runs, x, n, i + 1);
    }

    /** The caller gets the front of run i; the header moves behind it. */
    method SplitFront(prev: int, b: int, npages: nat, ghost i: nat)
      requires Shaped() && i < |runs| && b == runs[i].start && 0 < npages < runs[i].len
      requires b in next && b in size && size[b] == runs[i].len && prev == Before(runs, i)
      modifies `head, `next, `size, `runs
      ensures Shaped() && Removes(old(runs), runs, b, npages)
      ensures OutsideKept(old(next), next, runs) && OutsideKept(old(size), size, runs)
    {
      hide Canonical, Linked, Covers, Removes, OutsideKept, Around;
      var n := b + npages;
      SplitStep(next, size, head, runs, i, npages);
      BeforeLink(runs, i);
      next := next[n := next[b]];
      size := size[n := size[b] - npages];
      Store(prev, n);
      runs := Around(runs[..i], Run(n, runs[i].len - npages), runs[i + 1..]);
    }

    /** Run i is an exact fit. */
    method TakeRun(prev: int, b: int, ghost i: nat)
      requires Shaped() && i < |runs| && b == runs[i].start && b in next && prev == Before(runs, i)
      modifies `head, `next, `size, `runs
      ensures Shaped() && Removes(old(runs), runs, b, old(runs)[i].len)
      ensures OutsideKept(old(next), next, runs) && size == old(size)
    {
      hide Canonical, Linked, Covers, Removes, OutsideKept, Around;
      TakeStep(next, size, head, runs, i);
      BeforeLink(runs, i);
      Store(prev, next[b]);
      runs := runs[..i] + runs[i + 1..];
    }
  }

  /** Run i ends where the freed range begins. */
  lemma JoinStep(next: Links, size: map<int, int>, head: int, runs: seq<Run>, i: nat, x: int, n: int)
    requires Canonical(runs) && Linked(next, size, head, runs) && i < |runs| && n > 0 && End(runs[i]) == x
    requires i + 1 < |runs| ==> x + n < runs[i + 1].start
    ensures var runs' := Around(runs[..i], Run(runs[i].start, runs[i].len + n), runs[i + 1..]);
      && Linked(next, size[runs[i].start := runs[i].len + n], head, runs')
      && Canonical(runs') && Adds(runs, runs', x, n)
      && OutsideKept(size, size[runs[i].start := runs[i].len + n], runs')
  {
    hide Canonical, Linked, Covers, Adds, OutsideKept;
    Split(runs, i);
    Neighbours(runs[..i], runs[i], runs[i + 1..]);
    Grow(runs[..i], runs[i], runs[i + 1..], x, n);
    LinkedResize(next, size, head, runs, i, runs[i].len + n);
    var runs' := Around(runs[..i], Run(runs[i].start, runs[i].len + n), runs[i + 1..]);
    assert runs'[i] == Run(runs[i].start, runs[i].len + n);
    StartCovered(runs', i);
    KeptOne(size, runs[i].start, runs[i].len + n, runs');
  }

  /** The freed range fills the whole gap between run i and run i + 1. */
  lemma BridgeStep(next: Links, size: map<int, int>, head: int, runs: seq<Run>, i: nat, x: int, n: int)
    requires Canonical(runs) && Linked(next, size, head, runs) && i + 1 < |runs| && n > 0
    requires End(runs[i]) == x && x + n == runs[i + 1].start
    ensures runs[i + 1].start in next && runs[i].start != runs[i + 1].start
    ensures var big := Run(runs[i].start, runs[i].len + n + runs[i + 1].len);
      var runs' := Around(runs[..i], big, runs[i + 2..]);
      && Linked(next[big.start := next[runs[i + 1].start]], size[big.start := big.len], head, runs')
      && Canonical(runs') && Adds(runs, runs', x, n)
      && OutsideKept(next, next[big.start := next[runs[i + 1].start]], runs')
      && OutsideKept(size, size[big.start := big.len], runs')
  {
    hide Canonical, Linked, Covers, Adds, OutsideKept;
    var big := Run(runs[i].start, runs[i].len + n + runs[i + 1].len);
    var runs' := Around(runs[..i], big, runs[i + 2..]);
    Split(runs, i);
    assert runs[i + 1..] == [runs[i + 1]] + runs[i + 2..];
    Positive(runs, i);
    Bridge(runs[..i], runs[i], runs[i + 1], runs[i + 2..], x, n);
    LinkedDrop(next, size, head, runs, i + 1);
    var mid := runs[..i + 1] + runs[i + 2..];
    assert mid[i] == runs[i] && mid[..i] == runs[..i] && mid[i + 1..] == runs[i + 2..];
    var v := next[runs[i + 1].start];
    LinkedResize(next[big.start := v], size, head, mid, i, big.len);
    assert runs'[i] == big;
    StartCovered(runs', i);
    KeptOne(next, big.start, v, runs');
    KeptOne(size, big.start, big.len, runs');
  }

  /** The freed range ends where run i begins. */
  lemma FrontStep(next: Links, size: map<int, int>, head: int, runs: seq<Run>, i: nat, x: int, n: int)
    requires Canonical(runs) && Linked(next, size, head, runs) && i < |runs| && n > 0 && x > 0 && Taken(runs, x, n)
    requires x + n == runs[i].start && (i > 0 ==> End(runs[i - 1]) < x)
    ensures runs[i].start in next
    ensures var runs' := Around(runs[..i], Run(x, n + runs[i].len), runs[i + 1..]);
      var next' := StoreLink(next[x := next[runs[i].start]], Starts(runs), i, x);
      && Linked(next', size[x := n + runs[i].len], StoreHead(head, i, x), runs')
      && Canonical(runs') && Adds(runs, runs', x, n)
      && OutsideKept(next, next', runs') && OutsideKept(size, size[x := n + runs[i].len], runs')
  {
    hide Canonical, Linked, Covers, Adds, OutsideKept, Taken;
    Split(runs, i);
    Neighbours(runs[..i], runs[i], runs[i + 1..]);
    Grow(runs[..i], runs[i], runs[i + 1..], x, n);
    TakenNotAStart(runs, x, n);
    LinkedReplace(next, size, head, runs, i, x, n + runs[i].len);
    var runs' := Around(runs[..i], Run(x, n + runs[i].len), runs[i + 1..]);
    NewHeader(next, size, runs, i, x, n + runs[i].len, next[runs[i].start], runs');
  }

  /** The freed range touches no run. */
  lemma NewStep(next: Links, size: map<int, int>, head: int, runs: seq<Run>, i: nat, x: int, n: int)
    requires Canonical(runs) && Linked(next, size, head, runs) && i <= |runs| && n > 0 && x > 0 && Taken(runs, x, n)
    requires (i > 0 ==> End(runs[i - 1]) < x) && (i < |runs| ==> x + n < runs[i].start)
    ensures var runs' := Around(runs[..i], Run(x, n), runs[i..]);
      var next' := StoreLink(next[x := At(runs, i)], Starts(runs), i, x);
      && Linked(next', size[x := n], StoreHead(head, i, x), runs')
      && Canonical(runs') && Adds(runs, runs', x, n)
      && OutsideKept(next, next', runs') && OutsideKept(size, size[x := n], runs')
  {
    hide Canonical, Linked, Covers, Adds, OutsideKept, Taken;
    assert runs == runs[..i] + runs[i..];
    InsertRun(runs[..i], Run(x, n), runs[i..]);
    TakenNotAStart(runs, x, n);
    LinkedInsert(next, size, head, runs, i, x, n);
    NewHeader(next, size, runs, i, x, n, At(runs, i), Around(runs[..i], Run(x, n), runs[i..]));
  }

  lemma NewHeader(next: Links, size: map<int, int>, runs: seq<Run>, i: nat, x: int, n: int, v: int, runs': seq<Run>)
    requires Canonical(runs) && Canonical(runs') && i <= |runs| && i < |runs'| && runs'[i] == Run(x, n)
    requires runs'[..i] == runs[..i]
    ensures OutsideKept(next, StoreLink(next[x := v], Starts(runs), i, x), runs')
    ensures OutsideKept(size, size[x := n], runs')
  {
    hide Canonical, Covers, OutsideKept;
    StartCovered(runs', i);
    KeptOne(next, x, v, runs');
    KeptOne(size, x, n, runs');
    KeptStore(next[x := v], runs, i, x, runs');
    KeptBoth(next, next[x := v], StoreLink(next[x := v], Starts(runs), i, x), runs');
  }

  // ---------------------------------------------------------------- whole runs of the allocator

  datatype Op = Took(x: int, n: int) | Gave(x: int, n: int)

  ghost predicate Step(runs: seq<Run>, op: Op, runs': seq<Run>) {
    match op
    case Took(x, n) => AllFree(runs, x, n) && Removes(runs, runs', x, n)
    case Gave(x, n) => Taken(runs, x, n) && Adds(runs, runs', x, n)
  }

  /** The lists an allocator goes through; every list is canonical, every step is an Alloc or a Free. */
  ghost predicate History(lists: seq<seq<Run>>, ops: seq<Op>) {
    && |lists| == |ops| + 1
    && (forall i :: 0 <= i < |lists| ==> Canonical(lists[i]))
    && (forall i :: 0 <= i < |ops| ==> Step(lists[i], ops[i], lists[i + 1]))
  }

  function InRange(x: int, n: int, p: int): int {
    if x <= p < x + n then 1 else 0
  }

  /** How often page p came back, less how often it was taken. */
  function Net(ops: seq<Op>, p: int): int {
    if ops == [] then 0 else
    var last := ops[|ops| - 1];
    Net(ops[..|ops| - 1], p) + if last.Took? then -InRange(last.x, last.n, p) else InRange(last.x, last.n, p)
  }

  ghost function Bit(runs: seq<Run>, p: int): int {
    if Covers(runs, p) then 1 else 0
  }

  lemma {:induction false} PageBalance(lists: seq<seq<Run>>, ops: seq<Op>, p: int)
    requires History(lists, ops)
    ensures Bit(lists[|ops|], p) == Bit(lists[0], p) + Net(ops, p)
    decreases |ops|
  {
    if ops != [] {
      var m := |ops| - 1;
      assert lists[..m + 1][m] == lists[m];
      PageBalance(lists[..m + 1], ops[..m], p);
      assert Step(lists[m], ops[m], lists[m + 1]);
    }
  }

  lemma AllBack(lists: seq<seq<Run>>, ops: seq<Op>)
    requires History(lists, ops) && forall p :: Net(ops, p) == 0
    ensures lists[|ops|] == lists[0]
  {
    var a, b := lists[|ops|], lists[0];
    forall p ensures Covers(a, p) <==> Covers(b, p) {
      PageBalance(lists, ops, p);
      assert Net(ops, p) == 0;
    }
    CanonicalUnique(a, b);
  }

  lemma OneMore(lists: seq<seq<Run>>, ops: seq<Op>, op: Op, runs: seq<Run>)
    requires History(lists, ops) && Canonical(runs) && Step(lists[|ops|], op, runs)
    ensures History(lists + [runs], ops + [op]) && (lists + [runs])[|ops| + 1] == runs
  {
  }

  lemma AtEnd(runs: seq<Run>, i: nat)
    requires Canonical(runs) && i <= |runs| && At(runs, i) == NULL
    ensures i == |runs|
  {
  }

  ghost function Before(runs: seq<Run>, i: nat): int
    requires i <= |runs|
  {
    if i == 0 then NULL else runs[i - 1].start
  }

  lemma BeforeLink(runs: seq<Run>, i: nat)
    requires Canonical(runs) && i <= |runs|
    ensures Before(runs, i) == NULL <==> i == 0
    ensures i > 0 ==> Before(runs, i) == Starts(runs)[i - 1]
  {
  }

  /** Headers written into pages that are free afterwards disturb nobody. */
  lemma KeptOne(m: map<int, int>, p: int, v: int, runs: seq<Run>)
    requires Covers(runs, p)
    ensures OutsideKept(m, m[p := v], runs)
  {
  }

  lemma KeptBoth(m: map<int, int>, m': map<int, int>, m'': map<int, int>, runs: seq<Run>)
    requires OutsideKept(m, m', runs) && OutsideKept(m', m'', runs)
    ensures OutsideKept(m, m'', runs)
  {
  }

  lemma KeptStore(next: Links, runs: seq<Run>, i: nat, v: int, runs': seq<Run>)
    requires Canonical(runs) && i <= |runs| && Canonical(runs') && i <= |runs'| && runs[..i] == runs'[..i]
    ensures OutsideKept(next, StoreLink(next, Starts(runs), i, v), runs')
  {
    if i > 0 {
      assert runs'[i - 1] == runs[..i][i - 1] == runs[i - 1];
      StartCovered(runs', i - 1);
      KeptOne(next, runs[i - 1].start, v, runs');
    }
  }

  lemma SplitStep(next: Links, size: map<int, int>, head: int, runs: seq<Run>, i: nat, n: int)
    requires Canonical(runs) && Linked(next, size, head, runs) && i < |runs| && 0 < n < runs[i].len
    ensures runs[i].start in next
    ensures var rest := Run(runs[i].start + n, runs[i].len - n); var runs' := Around(runs[..i], rest, runs[i + 1..]);
      && Linked(StoreLink(next[rest.start := next[runs[i].start]], Starts(runs), i, rest.start),
          size[rest.start := rest.len],
                StoreHead(head, i, rest.start), runs')
      && Canonical(runs') && Removes(runs, runs', runs[i].start, n)
      && OutsideKept(next, StoreLink(next[rest.start := next[runs[i].start]], Starts(runs), i, rest.start), runs')
      && OutsideKept(size, size[rest.start := rest.len], runs')
  {
    hide Canonical, Linked, Covers, Removes, OutsideKept;
    Split(runs, i);
    TakePart(runs[..i], runs[i], runs[i + 1..], n);
    NotAStart(runs, runs[i].start + n, i);
    assert runs[i].start > 0 by { Positive(runs, i); }
    LinkedReplace(next, size, head, runs, i, runs[i].start + n, runs[i].len - n);
    var rest := Run(runs[i].start + n, runs[i].len - n);
    var runs' := Around(runs[..i], rest, runs[i + 1..]);
    var next' := next[rest.start := next[runs[i].start]];
    assert runs'[i] == rest && runs'[..i] == runs[..i];
    StartCovered(runs', i);
    KeptOne(next, rest.start, next[runs[i].start], runs');
    KeptOne(size, rest.start, rest.len, runs');
    KeptStore(next', runs, i, rest.start, runs');
    KeptBoth(next, next', StoreLink(next', Starts(runs), i, rest.start), runs');
  }

  lemma Positive(runs: seq<Run>, i: nat)
    requires Canonical(runs) && i < |runs|
    ensures runs[i].start > 0 && runs[i].len > 0
  {
  }

  lemma TakeStep(next: Links, size: map<int, int>, head: int, runs: seq<Run>, i: nat)
    requires Canonical(runs) && Linked(next, size, head, runs) && i < |runs|
    ensures runs[i].start in next
    ensures var v := next[runs[i].start]; var runs' := runs[..i] + runs[i + 1..];
      && Linked(StoreLink(next, Starts(runs), i, v), size, StoreHead(head, i, v), runs')
      && Canonical(runs') && Removes(runs, runs', runs[i].start, runs[i].len)
      && OutsideKept(next, StoreLink(next, Starts(runs), i, v), runs')
  {
    hide Canonical, Linked, Covers, Removes, OutsideKept, Around;
    Split(runs, i);
    TakeWhole(runs[..i], runs[i], runs[i + 1..]);
    LinkedDrop(next, size, head, runs, i);
    var runs' := runs[..i] + runs[i + 1..];
    assert runs'[..i] == runs[..i];
    KeptStore(next, runs, i, next[runs[i].start], runs');
  }
}
