/** Free page runs as values: an address-sorted list without touching neighbours is the canonical form of
    a set of pages. Addresses count pages. */
module PageRuns {

  datatype Run = Run(start: int, len: int)

  function End(r: Run): int {
    r.start + r.len
  }

  ghost predicate Canonical(runs: seq<Run>) {
    && (forall i :: 0 <= i < |runs| ==> runs[i].len > 0 && runs[i].start > 0)
    && (forall i, j :: 0 <= i < j < |runs| ==> End(runs[i]) < runs[j].start)
  }

  predicate Holds(r: Run, p: int) {
    r.start <= p < End(r)
  }

  /** Page p is free. */
  ghost predicate Covers(runs: seq<Run>, p: int) {
    exists i :: 0 <= i < |runs| && Holds(runs[i], p)
  }

  ghost predicate Removes(runs: seq<Run>, runs': seq<Run>, x: int, n: int) {
    forall p :: Covers(runs', p) <==> Covers(runs, p) && !(x <= p < x + n)
  }

  ghost predicate Adds(runs: seq<Run>, runs': seq<Run>, x: int, n: int) {
    forall p :: Covers(runs', p) <==> Covers(runs, p) || x <= p < x + n
  }

  /** No page of the range is free. */
  ghost predicate Taken(runs: seq<Run>, x: int, n: int) {
    forall p :: x <= p < x + n ==> !Covers(runs, p)
  }

  lemma TakenApart(runs: seq<Run>, x: int, n: int, i: nat)
    requires Canonical(runs) && Taken(runs, x, n) && n > 0 && i < |runs|
    ensures End(runs[i]) <= x || x + n <= runs[i].start
  {
    var p := if runs[i].start <= x then x else runs[i].start;
    if Holds(runs[i], p) { assert Covers(runs, p); }
  }

  // Covers and Canonical of a list taken apart around one run.

  lemma CoversAround(a: seq<Run>, r: Run, b: seq<Run>, p: int)
    ensures Covers(a + [r] + b, p) <==> Covers(a + b, p) || Holds(r, p)
  {
    var with, without := a + [r] + b, a + b;
    var k := |a|;
    if Covers(with, p) && !Holds(r, p) {
      var i :| 0 <= i < |with| && Holds(with[i], p);
      assert i != k && without[if i < k then i else i - 1] == with[i];
    }
    if Covers(without, p) {
      var i :| 0 <= i < |without| && Holds(without[i], p);
      assert with[if i < k then i else i + 1] == without[i];
    }
    assert with[k] == r;
  }

  lemma CanonicalWithout(a: seq<Run>, r: Run, b: seq<Run>)
    requires Canonical(a + [r] + b)
    ensures Canonical(a + b) && (forall p :: Holds(r, p) ==> !Covers(a + b, p))
  {
    var with, without := a + [r] + b, a + b;
    var k := |a|;
    assert with[k] == r;
    forall i | 0 <= i < |without| ensures without[i] == with[if i < k then i else i + 1] {}
    forall p | Holds(r, p) ensures !Covers(without, p) {}
  }

  ghost predicate Between(a: seq<Run>, r: Run, b: seq<Run>) {
    && r.start > 0 && r.len > 0
    && (|a| > 0 ==> End(a[|a| - 1]) < r.start)
    && (|b| > 0 ==> End(r) < b[0].start)
  }

  lemma PairWith(a: seq<Run>, r: Run, b: seq<Run>, i: nat, j: nat)
    requires Canonical(a + b) && Between(a, r, b) && i < j <= |a| + |b|
    ensures End((a + [r] + b)[i]) < (a + [r] + b)[j].start
  {
    var with, without := a + [r] + b, a + b;
    var k := |a|;
    var i', j' := if i <= k then i else i - 1, if j <= k then j else j - 1;
    if i == k {
      assert with[j] == without[j'] && without[k] == b[0];
      assert j' == k || End(without[k]) < without[j'].start;
    } else if j == k {
      assert with[i] == without[i] && without[k - 1] == a[k - 1];
      assert i == k - 1 || End(without[i]) < without[k - 1].start;
    } else {
      assert with[i] == without[i'] && with[j] == without[j'];
    }
  }

  lemma CanonicalWith(a: seq<Run>, r: Run, b: seq<Run>)
    requires Canonical(a + b) && Between(a, r, b)
    ensures Canonical(a + [r] + b)
  {
    var with, without := a + [r] + b, a + b;
    forall i | 0 <= i < |with| ensures with[i].len > 0 && with[i].start > 0 {
      if i != |a| { assert with[i] == without[if i < |a| then i else i - 1]; }
    }
    forall i, j | 0 <= i < j < |with| ensures End(with[i]) < with[j].start { PairWith(a, r, b, i, j); }
  }

  function Around(a: seq<Run>, r: Run, b: seq<Run>): seq<Run> {
    a + [r] + b
  }

  /** The first fit is too long: the caller gets its front. */
  lemma TakePart(a: seq<Run>, r: Run, b: seq<Run>, n: int)
    requires Canonical(Around(a, r, b)) && 0 < n < r.len
    ensures Canonical(Around(a, Run(r.start + n, r.len - n), b))
    ensures Removes(Around(a, r, b), Around(a, Run(r.start + n, r.len - n), b), r.start, n)
  {
    var rest := Run(r.start + n, r.len - n);
    Neighbours(a, r, b);
    CanonicalWithout(a, r, b);
    CanonicalWith(a, rest, b);
    forall p ensures Covers(a + [rest] + b, p) <==> Covers(a + [r] + b, p) && !(r.start <= p < r.start + n) {
      CoversAround(a, r, b, p);
      CoversAround(a, rest, b, p);
    }
  }

  lemma Neighbours(a: seq<Run>, r: Run, b: seq<Run>)
    requires Canonical(Around(a, r, b))
    ensures Between(a, r, b)
  {
    var with := a + [r] + b;
    var k := |a|;
    assert with[k] == r;
    if k > 0 { assert with[k - 1] == a[k - 1]; }
    if |b| > 0 { assert with[k + 1] == b[0]; }
  }

  /** The first fit is exact. */
  lemma TakeWhole(a: seq<Run>, r: Run, b: seq<Run>)
    requires Canonical(Around(a, r, b))
    ensures Canonical(a + b) && Removes(Around(a, r, b), a + b, r.start, r.len)
  {
    CanonicalWithout(a, r, b);
    forall p ensures Covers(a + b, p) <==> Covers(a + [r] + b, p) && !Holds(r, p) {
      CoversAround(a, r, b, p);
    }
  }

  lemma InsertRun(a: seq<Run>, r: Run, b: seq<Run>)
    requires Canonical(a + b) && Between(a, r, b)
    ensures Canonical(Around(a, r, b)) && Adds(a + b, Around(a, r, b), r.start, r.len)
  {
    CanonicalWith(a, r, b);
    forall p ensures Covers(a + [r] + b, p) <==> Covers(a + b, p) || Holds(r, p) {
      CoversAround(a, r, b, p);
    }
  }

  /** The freed range touches one neighbour. */
  lemma Grow(a: seq<Run>, r: Run, b: seq<Run>, x: int, n: int)
    requires Canonical(Around(a, r, b)) && n > 0 && (End(r) == x || x + n == r.start)
    requires Between(a, if End(r) == x then Run(r.start, r.len + n) else Run(x, n + r.len), b)
    ensures var big := if End(r) == x then Run(r.start, r.len + n) else Run(x, n + r.len);
      Canonical(Around(a, big, b)) && Adds(Around(a, r, b), Around(a, big, b), x, n)
  {
    var big := if End(r) == x then Run(r.start, r.len + n) else Run(x, n + r.len);
    Neighbours(a, r, b);
    CanonicalWithout(a, r, b);
    CanonicalWith(a, big, b);
    forall p ensures Covers(a + [big] + b, p) <==> Covers(a + [r] + b, p) || x <= p < x + n {
      CoversAround(a, r, b, p);
      CoversAround(a, big, b, p);
    }
  }

  /** The freed range closes the gap between two runs. */
  lemma Bridge(a: seq<Run>, r: Run, s: Run, b: seq<Run>, x: int, n: int)
    requires Canonical(Around(a, r, [s] + b)) && n > 0 && End(r) == x && x + n == s.start
    ensures var big := Run(r.start, r.len + n + s.len);
      Canonical(Around(a, big, b)) && Adds(Around(a, r, [s] + b), Around(a, big, b), x, n)
  {
    var big := Run(r.start, r.len + n + s.len);
    Neighbours(a, r, [s] + b);
    assert a + [r] + ([s] + b) == (a + [r]) + [s] + b;
    Neighbours(a + [r], s, b);
    CanonicalWithout(a + [r], s, b);
    CanonicalWithout(a, r, b);
    CanonicalWith(a, big, b);
    forall p ensures Covers(a + [big] + b, p) <==> Covers(a + [r] + ([s] + b), p) || x <= p < x + n {
      CoversAround(a + [r], s, b, p);
      CoversAround(a, r, b, p);
      CoversAround(a, big, b, p);
    }
  }

  /** A contiguous free range lies inside one run: a failed allocation means that there is none. */
  lemma {:induction false} InOneRun(runs: seq<Run>, x: int, n: nat) returns (k: nat)
    requires Canonical(runs) && n > 0 && forall p :: x <= p < x + n ==> Covers(runs, p)
    ensures k < |runs| && runs[k].start <= x && x + n <= End(runs[k])
  {
    if n == 1 {
      assert Covers(runs, x);
      k :| 0 <= k < |runs| && Holds(runs[k], x);
    } else {
      k := InOneRun(runs, x, n - 1);
      assert Covers(runs, x + n - 1);
      var j :| 0 <= j < |runs| && Holds(runs[j], x + n - 1);
    }
  }

  /** Canonical: the same free pages, the same list. */
  lemma {:induction false} CanonicalUnique(a: seq<Run>, b: seq<Run>)
    requires Canonical(a) && Canonical(b) && forall p :: Covers(a, p) <==> Covers(b, p)
    ensures a == b
    decreases |a|
  {
    if |a| == 0 || |b| == 0 {
      if |a| > 0 { FirstCovered(a); }
      if |b| > 0 { FirstCovered(b); }
    } else {
      SameFirst(a, b);
      SameFirst(b, a);
      assert a[0] == b[0];
      forall p ensures Covers(a[1..], p) <==> Covers(b[1..], p) {
        CoversTail(a, p);
        CoversTail(b, p);
      }
      CanonicalUnique(a[1..], b[1..]);
      assert a == [a[0]] + a[1..] && b == [b[0]] + b[1..];
    }
  }

  lemma FirstCovered(a: seq<Run>)
    requires Canonical(a) && |a| > 0
    ensures Covers(a, a[0].start) && !Covers(a, End(a[0])) && forall p :: Covers(a, p) ==> a[0].start <= p
  {
    assert Holds(a[0], a[0].start);
    forall p | Covers(a, p) ensures a[0].start <= p && p != End(a[0]) {
      var i :| 0 <= i < |a| && Holds(a[i], p);
      assert i == 0 || End(a[0]) < a[i].start;
    }
  }

  lemma SameFirst(a: seq<Run>, b: seq<Run>)
    requires Canonical(a) && Canonical(b) && |a| > 0 && |b| > 0 && forall p :: Covers(a, p) <==> Covers(b, p)
    ensures a[0].start == b[0].start && a[0].len >= b[0].len
  {
    FirstCovered(a);
    FirstCovered(b);
    assert Covers(b, a[0].start) && Covers(a, b[0].start);
    if a[0].len < b[0].len {
      var p := End(a[0]);
      assert Holds(b[0], p);
    }
  }

  lemma CoversTail(a: seq<Run>, p: int)
    requires Canonical(a) && |a| > 0
    ensures Covers(a[1..], p) <==> Covers(a, p) && !Holds(a[0], p)
  {
    if Covers(a[1..], p) {
      var i :| 0 <= i < |a[1..]| && Holds(a[1..][i], p);
      assert a[i + 1] == a[1..][i] && End(a[0]) < a[i + 1].start;
    }
    if Covers(a, p) && !Holds(a[0], p) {
      var i :| 0 <= i < |a| && Holds(a[i], p);
      assert a[1..][i - 1] == a[i];
    }
  }
}
