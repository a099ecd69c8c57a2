/** The intrusive circular doubly linked lists of rtservice.h.

    A list is a ring of nodes held together by two link maps. A node is an address;
    the ghost sequence that a ring spells starts at whichever node the owner names first
    (for a kernel list that is the list head itself). */
module Ring {
  import opened ChainList

  /** `next` and `prev` spell exactly the ring `s`, in both directions. */
  ghost predicate IsRing(next: Links, prev: Links, s: seq<int>) {
    && |s| > 0
    && NoDup(s)
    && (forall i :: 0 <= i < |s| ==> s[i] in next && s[i] in prev)
    && (forall i :: 0 < i < |s| ==> next[s[i - 1]] == s[i] && prev[s[i]] == s[i - 1])
    && next[s[|s| - 1]] == s[0]
    && prev[s[0]] == s[|s| - 1]
  }

  /** rt_list_insert_after: the four pointer stores, in order. */
  function LinkAfter(next: Links, prev: Links, l: int, n: int): (r: (Links, Links))
    requires l in next
  {
    var prev1 := prev[next[l] := n];
    var next1 := next[n := next[l]];
    (next1[l := n], prev1[n := l])
  }

  /** rt_list_insert_before: the four pointer stores, in order. */
  function LinkBefore(next: Links, prev: Links, l: int, n: int): (r: (Links, Links))
    requires l in prev
  {
    var next1 := next[prev[l] := n];
    var prev1 := prev[n := prev[l]];
    (next1[n := l], prev1[l := n])
  }

  /** The first two stores of rt_list_remove: the neighbours of n bypass it. */
  function Unlink(next: Links, prev: Links, n: int): (r: (Links, Links))
    requires n in next && n in prev
  {
    var prev1 := prev[next[n] := prev[n]];
    (next[prev1[n] := next[n]], prev1)
  }

  function InsertAt(s: seq<int>, k: nat, n: int): (r: seq<int>)
    requires k <= |s|
  {
    s[..k] + [n] + s[k..]
  }

  function RemoveAt(s: seq<int>, k: nat): (r: seq<int>)
    requires k < |s|
  {
    s[..k] + s[k + 1..]
  }

  /** Inserting a foreign node after the k-th node of a ring yields the ring with the node at k+1. */
  lemma InsertAfterRing(next: Links, prev: Links, s: seq<int>, k: nat, n: int)
    requires IsRing(next, prev, s) && k < |s| && n !in s
    ensures IsRing(LinkAfter(next, prev, s[k], n).0, LinkAfter(next, prev, s[k], n).1, InsertAt(s, k + 1, n))
  {
    var (next', prev') := LinkAfter(next, prev, s[k], n);
    var r := InsertAt(s, k + 1, n);
    assert forall i :: 0 <= i <= k ==> r[i] == s[i];
    assert r[k + 1] == n;
    assert forall i :: k + 1 < i < |r| ==> r[i] == s[i - 1];
    var after := if k + 1 < |s| then k + 1 else 0;
    assert next[s[k]] == s[after];
    assert next' == next[n := s[after]][s[k] := n] && prev' == prev[s[after] := n][n := s[k]];
    forall i | 0 < i < |r| ensures next'[r[i - 1]] == r[i] && prev'[r[i]] == r[i - 1] {
      if i > k + 2 { assert r[i - 1] == s[i - 2] && r[i] == s[i - 1]; }
    }
  }

  /** Inserting before the k-th node: at k in the middle, at the end of the ring for the head. */
  lemma InsertBeforeRing(next: Links, prev: Links, s: seq<int>, k: nat, n: int)
    requires IsRing(next, prev, s) && k < |s| && n !in s
    ensures IsRing(LinkBefore(next, prev, s[k], n).0, LinkBefore(next, prev, s[k], n).1,
                   if k == 0 then s + [n] else InsertAt(s, k, n))
  {
    var j := if k == 0 then |s| - 1 else k - 1;
    assert next[s[j]] == s[k] && prev[s[k]] == s[j];
    InsertAfterRing(next, prev, s, j, n);
    assert LinkBefore(next, prev, s[k], n).0 == LinkAfter(next, prev, s[j], n).0;
    assert LinkBefore(next, prev, s[k], n).1 == LinkAfter(next, prev, s[j], n).1;
    assert k == 0 ==> InsertAt(s, |s|, n) == s + [n];
  }

  /** Unlinking a node other than the first leaves the ring of the others. */
  lemma UnlinkRing(next: Links, prev: Links, s: seq<int>, k: nat)
    requires IsRing(next, prev, s) && 0 < k < |s|
    ensures IsRing(Unlink(next, prev, s[k]).0, Unlink(next, prev, s[k]).1, RemoveAt(s, k))
  {
    var (next', prev') := Unlink(next, prev, s[k]);
    var r := RemoveAt(s, k);
    assert forall i :: 0 <= i < k ==> r[i] == s[i];
    assert forall i :: k <= i < |r| ==> r[i] == s[i + 1];
    var after := if k + 1 < |s| then k + 1 else 0;
    assert next[s[k]] == s[after] && prev[s[k]] == s[k - 1] && after != k;
    assert prev' == prev[s[after] := s[k - 1]];
    assert next' == next[s[k - 1] := s[after]];
    forall i | 0 < i < |r| ensures next'[r[i - 1]] == r[i] && prev'[r[i]] == r[i - 1] {
      if i > k { assert r[i - 1] == s[i] && r[i] == s[i + 1]; }
    }
  }

  /** A ring only depends on the links of its own nodes. */
  lemma RingFrame(next: Links, prev: Links, next': Links, prev': Links, s: seq<int>)
    requires IsRing(next, prev, s)
    requires forall x :: x in s ==> x in next' && x in prev' && next'[x] == next[x] && prev'[x] == prev[x]
    ensures IsRing(next', prev', s)
  {
    assert forall i :: 0 <= i < |s| ==> s[i] in s;
  }

  lemma Neighbours(next: Links, prev: Links, s: seq<int>, k: nat)
    requires IsRing(next, prev, s) && k < |s|
    ensures s[k] in next && s[k] in prev
    ensures next[s[k]] == s[if k + 1 < |s| then k + 1 else 0]
    ensures prev[s[k]] == s[if k > 0 then k - 1 else |s| - 1]
  {
    if k + 1 < |s| { assert next[s[k + 1 - 1]] == s[k + 1]; }
  }

  /** The memory that holds every list node of the kernel, updated in place by the primitives of
      rtservice.h. The ghost arguments name the ring an operation works on and the position in it. */
  class ListMemory {
    var next: Links
    var prev: Links

    constructor ()
      ensures next == map[] && prev == map[]
    {
      next, prev := map[], map[];
    }

    /** Every ring that does not touch `touched` survived. */
    twostate predicate OthersKept(touched: seq<int>)
      reads this
    {
      forall t | old(IsRing(next, prev, t)) && (forall x :: x in t ==> x !in touched) :: IsRing(next, prev, t)
    }

    /** rt_list_init: the node is a ring of its own. */
    method Init(l: int)
      modifies this
      ensures IsRing(next, prev, [l])
      ensures OthersKept([l])
    {
      next, prev := next[l := l], prev[l := l];
      forall t | old(IsRing(next, prev, t)) && (forall x :: x in t ==> x !in [l]) ensures IsRing(next, prev, t) {
        RingFrame(old(next), old(prev), next, prev, t);
      }
    }

    method InsertAfter(l: int, n: int, ghost s: seq<int>, ghost k: nat)
      requires IsRing(next, prev, s) && k < |s| && s[k] == l && n !in s
      modifies this
      ensures IsRing(next, prev, InsertAt(s, k + 1, n))
      ensures OthersKept(s + [n])
    {
      InsertAfterRing(next, prev, s, k, n);
      Neighbours(next, prev, s, k);
      prev := prev[next[l] := n];
      next := next[n := next[l]];
      next := next[l := n];
      prev := prev[n := l];
      forall t | old(IsRing(next, prev, t)) && (forall x :: x in t ==> x !in s + [n]) ensures IsRing(next, prev, t) {
        RingFrame(old(next), old(prev), next, prev, t);
      }
    }

    method InsertBefore(l: int, n: int, ghost s: seq<int>, ghost k: nat)
      requires IsRing(next, prev, s) && k < |s| && s[k] == l && n !in s
      modifies this
      ensures IsRing(next, prev, if k == 0 then s + [n] else InsertAt(s, k, n))
      ensures OthersKept(s + [n])
    {
      InsertBeforeRing(next, prev, s, k, n);
      Neighbours(next, prev, s, k);
      next := next[prev[l] := n];
      prev := prev[n := prev[l]];
      prev := prev[l := n];
      next := next[n := l];
      forall t | old(IsRing(next, prev, t)) && (forall x :: x in t ==> x !in s + [n]) ensures IsRing(next, prev, t) {
        RingFrame(old(next), old(prev), next, prev, t);
      }
    }

    /** rt_list_remove: the node leaves its ring and becomes a ring of its own, so that removing
        it once more changes nothing. */
    method Remove(n: int, ghost s: seq<int>, ghost k: nat)
      requires IsRing(next, prev, s) && k < |s| && s[k] == n && (k == 0 ==> |s| == 1)
      modifies this
      ensures IsRing(next, prev, [n])
      ensures k > 0 ==> IsRing(next, prev, RemoveAt(s, k))
      ensures OthersKept(s)
    {
      if k > 0 { UnlinkRing(next, prev, s, k); }
      Neighbours(next, prev, s, k);
      prev := prev[next[n] := prev[n]];
      next := next[prev[n] := next[n]];
      ghost var (next1, prev1) := (next, prev);
      next := next[n := n];
      prev := prev[n := n];
      if k > 0 { RingFrame(next1, prev1, next, prev, RemoveAt(s, k)); }
      forall t | old(IsRing(next, prev, t)) && (forall x :: x in t ==> x !in s) ensures IsRing(next, prev, t) {
        RingFrame(old(next), old(prev), next, prev, t);
      }
    }

    /** rt_list_isempty, asked of a list head: no other node is in the ring. */
    method IsEmpty(l: int, ghost s: seq<int>) returns (r: bool)
      requires IsRing(next, prev, s) && s[0] == l
      ensures r <==> s == [l]
    {
      Neighbours(next, prev, s, 0);
      r := next[l] == l;
      assert |s| == 1 ==> s == [s[0]];
    }
  }
}
