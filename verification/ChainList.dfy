/** Null-terminated singly linked lists held together by one link map. */
module ChainList {

  const NULL: int := 0
  type Links = map<int, int>

  ghost predicate NoDup(s: seq<int>) {
    forall i, j :: 0 <= i < j < |s| ==> s[i] != s[j]
  }

  /** Following `next` from p visits exactly the nodes of s and then stops. */
  ghost predicate IsList(next: Links, p: int, s: seq<int>) {
    && NoDup(s)
    && p == (if s == [] then NULL else s[0])
    && (forall i :: 0 <= i < |s| ==> s[i] != NULL && s[i] in next)
    && (forall i :: 0 < i < |s| ==> next[s[i - 1]] == s[i])
    && (s != [] ==> next[s[|s| - 1]] == NULL)
  }

  lemma Pop(next: Links, p: int, s: seq<int>)
    requires IsList(next, p, s) && s != []
    ensures p != NULL && p in next && p == s[0] && IsList(next, next[p], s[1..])
    ensures p !in s[1..]
  {
    assert |s| > 1 ==> next[s[1 - 1]] == s[1];
    assert forall i :: 0 < i < |s[1..]| ==> s[1..][i - 1] == s[i] && s[1..][i] == s[i + 1];
  }

  lemma Push(next: Links, p: int, s: seq<int>, n: int)
    requires IsList(next, p, s) && n != NULL && n !in s
    ensures IsList(next[n := p], n, [n] + s)
  {
    var r := [n] + s;
    forall i | 0 < i < |r| ensures next[n := p][r[i - 1]] == r[i] {
      if i > 1 { assert r[i - 1] == s[i - 2] && r[i] == s[i - 1]; }
    }
  }

  /** Linking n, whose own link is already null, behind the last node. */
  lemma Append(next: Links, p: int, s: seq<int>, n: int)
    requires IsList(next, p, s) && n != NULL && n !in s && n in next && next[n] == NULL
    ensures s != [] ==> IsList(next[s[|s| - 1] := n], p, s + [n])
    ensures s == [] ==> IsList(next, n, s + [n])
  {
    if s != [] {
      var r, next' := s + [n], next[s[|s| - 1] := n];
      forall i | 0 < i < |r| ensures next'[r[i - 1]] == r[i] {
        if i < |s| { assert r[i - 1] == s[i - 1] && r[i] == s[i]; }
      }
    }
  }

  lemma Frame(next: Links, next': Links, p: int, s: seq<int>)
    requires IsList(next, p, s)
    requires forall x :: x in s ==> x in next' && (x in next ==> next'[x] == next[x])
    ensures IsList(next', p, s)
  {
    forall i | 0 <= i < |s| ensures s[i] in next' && next'[s[i]] == next[s[i]] {
      var x := s[i];
      assert x in s;
    }
  }

  lemma EmptyIffNull(next: Links, p: int, s: seq<int>)
    requires IsList(next, p, s)
    ensures p == NULL <==> s == []
  {
  }

  // ---------------------------------------------------------------- surgery through a pointer to a pointer

  /** `*prev = v`, where prev is the list head for i = 0 and the link of node i - 1 otherwise. */
  function StoreHead(p: int, i: nat, v: int): int {
    if i == 0 then v else p
  }

  function StoreLink(next: Links, s: seq<int>, i: nat, v: int): Links
    requires i <= |s|
  {
    if i == 0 then next else next[s[i - 1] := v]
  }

  /** Following the links from node i on. */
  lemma Suffix(next: Links, p: int, s: seq<int>, i: nat)
    requires IsList(next, p, s) && i < |s|
    ensures s[i] in next && s[i] != NULL && next[s[i]] == (if i + 1 < |s| then s[i + 1] else NULL)
  {
    assert i + 1 < |s| ==> next[s[i + 1 - 1]] == s[i + 1];
  }

  /** Dropping node i: `*prev = b->next`. */
  lemma DropAt(next: Links, p: int, s: seq<int>, i: nat)
    requires IsList(next, p, s) && i < |s|
    ensures s[i] in next
    ensures IsList(StoreLink(next, s, i, next[s[i]]), StoreHead(p, i, next[s[i]]), s[..i] + s[i + 1..])
  {
    Suffix(next, p, s, i);
    var r := s[..i] + s[i + 1..];
    var next' := StoreLink(next, s, i, next[s[i]]);
    forall k | 0 < k < |r| ensures next'[r[k - 1]] == r[k] {
      if k < i { assert r[k - 1] == s[k - 1] && r[k] == s[k]; }
      else if k > i { assert r[k - 1] == s[k] && r[k] == s[k + 1]; }
    }
  }

  /** Inserting node n in front of node i: `n->next = b; *prev = n`. */
  lemma InsertBefore(next: Links, p: int, s: seq<int>, i: nat, n: int)
    requires IsList(next, p, s) && i <= |s| && n !in s && n != NULL
    ensures var b := if i < |s| then s[i] else NULL;
      IsList(StoreLink(next[n := b], s, i, n), StoreHead(p, i, n), s[..i] + [n] + s[i..])
  {
    var b := if i < |s| then s[i] else NULL;
    var r := s[..i] + [n] + s[i..];
    var next' := StoreLink(next[n := b], s, i, n);
    assert forall k :: i < k < |r| ==> r[k] == s[k - 1];
    forall k | 0 < k < |r| ensures next'[r[k - 1]] == r[k] {
      if k < i { assert r[k - 1] == s[k - 1] && r[k] == s[k]; }
      else if k > i + 1 { assert r[k - 1] == s[k - 2] && r[k] == s[k - 1]; }
    }
    forall k | 0 <= k < |r| ensures r[k] != NULL && r[k] in next' {
      if k > i { assert r[k] == s[k - 1]; }
    }
    if i < |s| { Suffix(next, p, s, |s| - 1); assert r[|r| - 1] == s[|s| - 1]; }
  }

  /** Node n takes the place of node i: `n->next = b->next; *prev = n`. */
  lemma ReplaceAt(next: Links, p: int, s: seq<int>, i: nat, n: int)
    requires IsList(next, p, s) && i < |s| && n !in s && n != NULL
    ensures s[i] in next
    ensures IsList(StoreLink(next[n := next[s[i]]], s, i, n), StoreHead(p, i, n), s[i := n])
  {
    Suffix(next, p, s, i);
    var r := s[i := n];
    var next' := StoreLink(next[n := next[s[i]]], s, i, n);
    forall k | 0 < k < |r| ensures next'[r[k - 1]] == r[k] {
      if k != i && k != i + 1 { assert r[k - 1] == s[k - 1] && r[k] == s[k]; }
    }
  }
}
