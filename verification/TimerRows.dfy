/** The rows of a timer skip list as values. Row 0 is the sparsest, the last row holds every timer.
    Timers are ordered by true deadline, then by the order in which they were started. */
module TimerRows {
  import opened Ticks

  /** When a timer is due, when it was started, and its place among all starts. */
  datatype Due = Due(deadline: int, stamp: int, start: int)

  predicate Before(a: Due, b: Due) {
    a.deadline < b.deadline || (a.deadline == b.deadline && a.stamp < b.stamp)
  }

  type Dues = map<int, Due>

  ghost predicate Sorted(row: seq<int>, due: Dues) {
    && (forall i :: 0 <= i < |row| ==> row[i] in due)
    && (forall i, j :: 0 <= i < j < |row| ==> Before(due[row[i]], due[row[j]]))
  }

  ghost predicate Within(a: seq<int>, b: seq<int>) {
    forall x :: x in a ==> x in b
  }

  /** Every row is sorted and every row's timers also are in the row below it. */
  ghost predicate Rows(rows: seq<seq<int>>, due: Dues) {
    && |rows| > 0
    && (forall l :: 0 <= l < |rows| ==> Sorted(rows[l], due))
    && (forall l :: 0 < l < |rows| ==> Within(rows[l - 1], rows[l]))
  }

  function BottomOf(rows: seq<seq<int>>): seq<int>
    requires |rows| > 0
  {
    rows[|rows| - 1]
  }

  /** Position p splits the row at deadline d: everything before is due by d, everything from p on later. */
  ghost predicate SplitsAt(row: seq<int>, due: Dues, d: int, p: nat) {
    && p <= |row|
    && (forall i :: 0 <= i < p ==> row[i] in due && due[row[i]].deadline <= d)
    && (forall i :: p <= i < |row| ==> row[i] in due && due[row[i]].deadline > d)
  }

  function InsertAt(row: seq<int>, p: nat, t: int): seq<int>
    requires p <= |row|
  {
    row[..p] + [t] + row[p..]
  }

  /** The reference: plain insertion into one list, behind every timer due no later. */
  function SortedInsert(row: seq<int>, due: Dues, t: int, d: int): (r: seq<int>)
    requires forall i :: 0 <= i < |row| ==> row[i] in due
  {
    if row == [] || due[row[0]].deadline > d then [t] + row
    else [row[0]] + SortedInsert(row[1..], due, t, d)
  }

  lemma {:induction false} SplitIsSortedInsert(row: seq<int>, due: Dues, t: int, d: int, p: nat)
    requires SplitsAt(row, due, d, p)
    ensures forall i :: 0 <= i < |row| ==> row[i] in due
    ensures InsertAt(row, p, t) == SortedInsert(row, due, t, d)
  {
    if row != [] && p > 0 {
      assert due[row[0]].deadline <= d;
      SplitIsSortedInsert(row[1..], due, t, d, p - 1);
      assert InsertAt(row, p, t) == [row[0]] + InsertAt(row[1..], p - 1, t);
    } else {
      assert p == 0;
      assert row == [] || due[row[0]].deadline > d;
    }
  }

  /** Without timer t, and without disturbing the order of the others. */
  function Without(row: seq<int>, t: int): (r: seq<int>)
    ensures t !in r && |r| <= |row|
    ensures forall x :: x in r <==> x in row && x != t
  {
    if row == [] then []
    else if row[0] == t then Without(row[1..], t)
    else [row[0]] + Without(row[1..], t)
  }

  lemma {:induction false} WithoutSorted(row: seq<int>, due: Dues, t: int)
    requires Sorted(row, due)
    ensures Sorted(Without(row, t), due)
  {
    if row != [] {
      WithoutSorted(row[1..], due, t);
      var w := Without(row[1..], t);
      forall j | 0 <= j < |w| ensures Before(due[row[0]], due[w[j]]) {
        assert w[j] in row[1..];
      }
    }
  }

  lemma {:induction false} WithoutAbsent(row: seq<int>, t: int)
    requires t !in row
    ensures Without(row, t) == row
  {
    if row != [] {
      assert row[0] in row;
      assert forall x :: x in row[1..] ==> x in row;
      WithoutAbsent(row[1..], t);
    }
  }

  lemma {:induction false} InsertSorted(row: seq<int>, due: Dues, p: nat, t: int)
    requires Sorted(row, due) && t in due && SplitsAt(row, due, due[t].deadline, p)
    requires forall i :: 0 <= i < |row| ==> due[row[i]].stamp < due[t].stamp
    ensures Sorted(InsertAt(row, p, t), due)
  {
    var r := InsertAt(row, p, t);
    forall i, j | 0 <= i < j < |r| ensures Before(due[r[i]], due[r[j]]) {
      if j == p { assert r[i] == row[i]; }
      else if i == p { assert r[j] == row[j - 1]; }
      else { assert r[i] == row[if i < p then i else i - 1] && r[j] == row[if j < p then j else j - 1]; }
    }
  }

  lemma InsertMembers(row: seq<int>, p: nat, t: int)
    requires p <= |row|
    ensures forall x :: x in InsertAt(row, p, t) <==> x in row || x == t
  {
    assert row == row[..p] + row[p..];
  }

  lemma HeadIn(a: seq<int>, b: seq<int>)
    requires |a| > 0 && forall x :: x in a ==> x in b
    ensures a[0] in b
  {
    var x := a[0];
    assert x in a;
  }

  /** Two sorted rows with the same timers are the same row. */
  lemma {:induction false} SortedUnique(a: seq<int>, b: seq<int>, due: Dues)
    requires Sorted(a, due) && Sorted(b, due)
    requires forall x :: x in a <==> x in b
    ensures a == b
  {
    if |a| > 0 { HeadIn(a, b); }
    if |b| > 0 { HeadIn(b, a); }
    if |a| > 0 {
      var i :| 0 <= i < |b| && b[i] == a[0];
      var j :| 0 <= j < |a| && a[j] == b[0];
      assert a[0] == b[0];
      forall x ensures x in a[1..] <==> x in b[1..] {
        if x in a[1..] { assert x in a; NotHead(a, due, x); }
        if x in b[1..] { assert x in b; NotHead(b, due, x); }
      }
      SortedUnique(a[1..], b[1..], due);
      assert a == [a[0]] + a[1..] && b == [b[0]] + b[1..];
    }
  }

  lemma NotHead(a: seq<int>, due: Dues, x: int)
    requires Sorted(a, due) && a != [] && x in a[1..]
    ensures x != a[0]
  {
    var i :| 0 <= i < |a[1..]| && a[1..][i] == x;
    assert a[i + 1] == x;
  }

  /** The timers of `row` that also are in `among`, in row order. */
  function Filter(row: seq<int>, among: seq<int>): (r: seq<int>)
    ensures forall x :: x in r <==> x in row && x in among
  {
    if row == [] then []
    else if row[0] in among then [row[0]] + Filter(row[1..], among)
    else Filter(row[1..], among)
  }

  lemma {:induction false} FilterSorted(row: seq<int>, due: Dues, among: seq<int>)
    requires Sorted(row, due)
    ensures Sorted(Filter(row, among), due)
  {
    if row != [] {
      FilterSorted(row[1..], due, among);
      var w := Filter(row[1..], among);
      forall j | 0 <= j < |w| ensures Before(due[row[0]], due[w[j]]) {
        assert w[j] in row[1..];
      }
    }
  }

  /** A row is the row below it with timers left out: a subsequence, ties included. */
  lemma RowIsSubsequence(rows: seq<seq<int>>, due: Dues, l: nat)
    requires Rows(rows, due) && l + 1 < |rows|
    ensures rows[l] == Filter(rows[l + 1], rows[l])
  {
    assert Within(rows[l + 1 - 1], rows[l + 1]);
    FilterSorted(rows[l + 1], due, rows[l]);
    SortedUnique(rows[l], Filter(rows[l + 1], rows[l]), due);
  }

  function WithoutAll(rows: seq<seq<int>>, t: int): (r: seq<seq<int>>)
    ensures |r| == |rows| && forall l :: 0 <= l < |rows| ==> r[l] == Without(rows[l], t)
  {
    seq(|rows|, l requires 0 <= l < |rows| => Without(rows[l], t))
  }

  lemma RowsWithout(rows: seq<seq<int>>, due: Dues, t: int)
    requires Rows(rows, due)
    ensures Rows(WithoutAll(rows, t), due)
  {
    var rows' := WithoutAll(rows, t);
    forall l | 0 <= l < |rows'| ensures Sorted(rows'[l], due) {
      WithoutSorted(rows[l], due, t);
    }
  }

  /** Giving an absent timer a new due date does not disturb the rows. */
  lemma RowsRedate(rows: seq<seq<int>>, due: Dues, t: int, d: Due)
    requires Rows(rows, due) && forall l :: 0 <= l < |rows| ==> t !in rows[l]
    ensures Rows(rows, due[t := d])
  {
    forall l | 0 <= l < |rows| ensures Sorted(rows[l], due[t := d]) {
      forall i | 0 <= i < |rows[l]| ensures rows[l][i] != t {
        var x := rows[l][i];
        assert x in rows[l];
      }
    }
  }

  /** The rows from h down receive timer t, each at its own split point. */
  ghost predicate Raised(rows: seq<seq<int>>, rows': seq<seq<int>>, heads: seq<nat>, h: nat, t: int) {
    && |rows'| == |rows| == |heads|
    && (forall l :: 0 <= l < |rows| ==> heads[l] <= |rows[l]|)
    && (forall l :: h <= l < |rows| ==> rows'[l] == InsertAt(rows[l], heads[l], t))
    && (forall l :: 0 <= l < h && l < |rows| ==> rows'[l] == rows[l])
  }

  lemma RowsRaised(rows: seq<seq<int>>, due: Dues, heads: seq<nat>, h: nat, t: int, rows': seq<seq<int>>)
    requires Rows(rows, due) && t in due && Raised(rows, rows', heads, h, t) && h < |rows|
    requires forall l :: 0 <= l < |rows| ==> SplitsAt(rows[l], due, due[t].deadline, heads[l])
    requires forall l :: 0 <= l < |rows| ==> forall x :: x in rows[l] ==> x in due && due[x].stamp < due[t].stamp
    ensures Rows(rows', due)
  {
    forall l | 0 <= l < |rows'| ensures Sorted(rows'[l], due) {
      if l >= h {
        forall i | 0 <= i < |rows[l]| ensures due[rows[l][i]].stamp < due[t].stamp {
          var x := rows[l][i];
          assert x in rows[l];
        }
        InsertSorted(rows[l], due, heads[l], t);
      }
    }
    forall l | 0 < l < |rows'| ensures Within(rows'[l - 1], rows'[l]) {
      if l - 1 >= h { InsertMembers(rows[l - 1], heads[l - 1], t); }
      if l >= h { InsertMembers(rows[l], heads[l], t); }
    }
  }

  /** All that an insertion does: the rows stay in order, and the bottom row is the plain sorted
      insertion, wherever the height h came out. */
  lemma Inserted(rows: seq<seq<int>>, due: Dues, heads: seq<nat>, h: nat, t: int, rows': seq<seq<int>>)
    requires Rows(rows, due) && t in due && Raised(rows, rows', heads, h, t) && h < |rows|
    requires forall l :: 0 <= l < |rows| ==> SplitsAt(rows[l], due, due[t].deadline, heads[l])
    requires forall l :: 0 <= l < |rows| ==> forall x :: x in rows[l] ==> x in due && due[x].stamp < due[t].stamp
    ensures |rows'| == |rows| && Rows(rows', due)
    ensures forall i :: 0 <= i < |BottomOf(rows)| ==> BottomOf(rows)[i] in due
    ensures BottomOf(rows') == SortedInsert(BottomOf(rows), due, t, due[t].deadline)
    ensures forall x :: x in BottomOf(rows') <==> x in BottomOf(rows) || x == t
  {
    var b := |rows| - 1;
    RowsRaised(rows, due, heads, h, t, rows');
    SplitIsSortedInsert(rows[b], due, t, due[t].deadline, heads[b]);
    InsertMembers(rows[b], heads[b], t);
  }

  // ---------------------------------------------------------------- what the search looks at

  function IndexOf(row: seq<int>, x: int): (i: nat)
    requires x in row
    ensures i < |row| && row[i] == x
  {
    if row[0] == x then 0 else 1 + IndexOf(row[1..], x)
  }

  lemma IndexUnique(row: seq<int>, due: Dues, x: int, i: nat)
    requires Sorted(row, due) && i < |row| && row[i] == x
    ensures x in row && IndexOf(row, x) == i
  {
    var j := IndexOf(row, x);
    assert i < j ==> Before(due[row[i]], due[row[j]]);
    assert j < i ==> Before(due[row[j]], due[row[i]]);
  }

  /** How many timers of the row are due by d. */
  function Past(row: seq<int>, due: Dues, d: int): (p: nat)
    requires forall i :: 0 <= i < |row| ==> row[i] in due
    ensures p <= |row|
  {
    if row == [] || due[row[0]].deadline > d then 0 else 1 + Past(row[1..], due, d)
  }

  lemma {:induction false} PastSplits(row: seq<int>, due: Dues, d: int)
    requires Sorted(row, due)
    ensures SplitsAt(row, due, d, Past(row, due, d))
  {
    if row != [] {
      if due[row[0]].deadline > d {
        forall i | 0 <= i < |row| ensures due[row[i]].deadline > d {
          assert i == 0 || Before(due[row[0]], due[row[i]]);
        }
      } else {
        PastSplits(row[1..], due, d);
        var p := Past(row[1..], due, d);
        forall i | 0 <= i < |row| ensures i < p + 1 <==> due[row[i]].deadline <= d {
          if i > 0 { assert row[i] == row[1..][i - 1]; }
        }
      }
    }
  }

  /** Where the search of row l begins: behind the timer at which the row above was left. */
  function Entry(rows: seq<seq<int>>, due: Dues, d: int, l: nat): (e: nat)
    requires Rows(rows, due) && l < |rows|
    ensures e <= |rows[l]|
  {
    if l == 0 || Past(rows[l - 1], due, d) == 0 then 0
    else
      var x := rows[l - 1][Past(rows[l - 1], due, d) - 1];
      assert Within(rows[l - 1], rows[l]) && x in rows[l - 1];
      IndexOf(rows[l], x) + 1
  }

  /** Every comparison that the descent for deadline d makes on its way tells the truth. */
  ghost predicate Searches(rows: seq<seq<int>>, due: Dues, d: int)
    requires Rows(rows, due)
  {
    forall l, i :: 0 <= l < |rows| && Entry(rows, due, d, l) <= i <= Past(rows[l], due, d) && i < |rows[l]| ==>
      Truthful(due[rows[l][i]].deadline, d)
  }

  /** The new timer at position p of the row would be on the wrong side of x. */
  ghost predicate Misplaced(row: seq<int>, due: Dues, d: int, p: nat, x: int) {
    && x in row && x in due
    && if Later(due[x].deadline, d) then due[x].deadline < d && p <= IndexOf(row, x)
       else due[x].deadline > d && IndexOf(row, x) < p
  }

  /** The search of one row: it stops at the first timer that compares as later. */
  ghost predicate Stopped(row: seq<int>, due: Dues, d: int, from: nat, p: nat) {
    && from <= p <= |row| && (forall i :: 0 <= i < |row| ==> row[i] in due)
    && (forall i :: from <= i < p ==> !Later(due[row[i]].deadline, d))
    && (p < |row| ==> Later(due[row[p]].deadline, d))
  }

  /** Truthful comparisons lead to the split; the first untruthful one leaves a timer on the wrong side. */
  lemma RowSearched(row: seq<int>, due: Dues, d: int, from: nat, p: nat) returns (x: int)
    requires Sorted(row, due) && from <= Past(row, due, d) && Stopped(row, due, d, from, p)
    ensures (forall i :: from <= i <= Past(row, due, d) && i < |row| ==> Truthful(due[row[i]].deadline, d)) ==>
        p == Past(row, due, d)
    ensures (exists i :: from <= i <= Past(row, due, d) && i < |row| && !Truthful(due[row[i]].deadline, d)) ==>
        Misplaced(row, due, d, p, x)
  {
    var q := Past(row, due, d);
    PastSplits(row, due, d);
    x := 0;
    if i :| from <= i < q && !Truthful(due[row[i]].deadline, d) {
      x := row[i];
      IndexUnique(row, due, x, i);
      EqualTicks(d);
    } else if q < |row| && !Truthful(due[row[q]].deadline, d) {
      x := row[q];
      IndexUnique(row, due, x, q);
    }
  }

  lemma EqualTicks(d: int)
    ensures !Later(d, d)
  {
  }

  /** Once a timer is on the wrong side in one row, it is on the wrong side in the next. */
  lemma StaysMisplaced(up: seq<int>, row: seq<int>, due: Dues, d: int, pUp: nat, from: nat, p: nat, x: int)
    requires Sorted(up, due) && Sorted(row, due) && Within(up, row) && pUp <= |up| && Misplaced(up, due, d, pUp, x)
    requires from == (if pUp == 0 then 0 else if up[pUp - 1] in row then IndexOf(row, up[pUp - 1]) + 1 else 0)
    requires Stopped(row, due, d, from, p)
    ensures Misplaced(row, due, d, p, x)
  {
    assert x in row;
    var k, i := IndexOf(up, x), IndexOf(row, x);
    if pUp > 0 {
      var y := up[pUp - 1];
      assert y in up && y in row;
      var j := IndexOf(row, y);
      assert pUp - 1 < k ==> Before(due[y], due[x]);
      assert k < pUp - 1 ==> Before(due[x], due[y]);
      assert j > i ==> Before(due[x], due[y]);
      assert j < i ==> Before(due[y], due[x]);
    }
  }

  /** All comparisons in row l tell the truth. */
  ghost predicate RowTruthful(rows: seq<seq<int>>, due: Dues, d: int, l: nat)
    requires Rows(rows, due) && l < |rows|
  {
    forall i :: Entry(rows, due, d, l) <= i <= Past(rows[l], due, d) && i < |rows[l]| ==>
        Truthful(due[rows[l][i]].deadline, d)
  }

  lemma EntryInPast(rows: seq<seq<int>>, due: Dues, d: int, l: nat)
    requires Rows(rows, due) && l < |rows|
    ensures Entry(rows, due, d, l) <= Past(rows[l], due, d)
  {
    PastSplits(rows[l], due, d);
    if l > 0 && Past(rows[l - 1], due, d) > 0 { PastSplits(rows[l - 1], due, d); }
  }

  /** From one row to the next: still at the split, or with a timer on the wrong side from here on down. */
  lemma Descend(rows: seq<seq<int>>, due: Dues, d: int, l: nat, up: nat, from: nat, p: nat, good: bool, x: int)
    returns (good': bool, x': int)
    requires Rows(rows, due) && l < |rows| && (l == 0 ==> up == 0 && good) && (l > 0 ==> up <= |rows[l - 1]|)
    requires from == if up == 0 then 0 else if rows[l - 1][up - 1] in rows[l]
        then IndexOf(rows[l], rows[l - 1][up - 1]) + 1 else 0
    requires Stopped(rows[l], due, d, from, p)
    requires good && l > 0 ==> up == Past(rows[l - 1], due, d)
    requires !good ==> !Searches(rows, due, d) && Misplaced(rows[l - 1], due, d, up, x)
    ensures good' ==> good && p == Past(rows[l], due, d) && RowTruthful(rows, due, d, l)
    ensures !good' ==> !Searches(rows, due, d) && Misplaced(rows[l], due, d, p, x')
  {
    good', x' := false, x;
    if l > 0 { assert Within(rows[l - 1], rows[l]); }
    if good {
      if up > 0 {
        var y := rows[l - 1][up - 1];
        assert y in rows[l - 1] && y in rows[l];
      }
      assert from == Entry(rows, due, d, l);
      EntryInPast(rows, due, d, l);
      x' := RowSearched(rows[l], due, d, from, p);
      good' := RowTruthful(rows, due, d, l);
    } else {
      StaysMisplaced(rows[l - 1], rows[l], due, d, up, from, p, x);
    }
  }

  /** A misplaced timer means that the row is no longer sorted. */
  lemma MisplacedUnsorted(row: seq<int>, due: Dues, d: int, p: nat, x: int, t: int)
    requires Misplaced(row, due, d, p, x) && p <= |row| && t in due && due[t].deadline == d
    ensures !Sorted(InsertAt(row, p, t), due)
  {
    var r := InsertAt(row, p, t);
    var i := IndexOf(row, x);
    assert r[p] == t && r[if i < p then i else i + 1] == x;
  }

  /** While true distances are below 2^32, truthful means inside the window of LaterExact. */
  lemma SearchesWithin(rows: seq<seq<int>>, due: Dues, d: int)
    requires Rows(rows, due) && forall x :: x in BottomOf(rows) ==>
        x in due && HALF - TICK_MOD <= due[x].deadline - d < HALF
    ensures Searches(rows, due, d)
  {
    forall l, i | 0 <= l < |rows| && 0 <= i < |rows[l]| ensures Truthful(due[rows[l][i]].deadline, d) {
      var x := rows[l][i];
      InBottomRow(rows, due, l, x);
      LaterExact(due[x].deadline, d);
    }
  }

  lemma {:induction false} InBottomRow(rows: seq<seq<int>>, due: Dues, l: nat, x: int)
    requires Rows(rows, due) && l < |rows| && x in rows[l]
    ensures x in BottomOf(rows)
    decreases |rows| - l
  {
    if l + 1 < |rows| {
      assert Within(rows[l + 1 - 1], rows[l + 1]);
      InBottomRow(rows, due, l + 1, x);
    }
  }

  lemma AbsentAbove(rows: seq<seq<int>>, due: Dues, t: int)
    requires Rows(rows, due) && t !in BottomOf(rows)
    ensures forall l :: 0 <= l < |rows| ==> t !in rows[l]
  {
    forall l | 0 <= l < |rows| ensures t !in rows[l] {
      if t in rows[l] { InBottomRow(rows, due, l, t); }
    }
  }

  lemma AllTruthful(rows: seq<seq<int>>, due: Dues, d: int)
    requires Rows(rows, due) && forall l :: 0 <= l < |rows| ==> RowTruthful(rows, due, d, l)
    ensures Searches(rows, due, d)
  {
    forall l, i | 0 <= l < |rows| && Entry(rows, due, d, l) <= i <= Past(rows[l], due, d) && i < |rows[l]|
      ensures Truthful(due[rows[l][i]].deadline, d)
    {
      assert RowTruthful(rows, due, d, l);
    }
  }

  lemma {:induction false} PastSame(row: seq<int>, due: Dues, due': Dues, d: int)
    requires forall i :: 0 <= i < |row| ==> row[i] in due && row[i] in due' && due[row[i]] == due'[row[i]]
    ensures Past(row, due, d) == Past(row, due', d)
  {
    if row != [] { PastSame(row[1..], due, due', d); }
  }

  /** Only the due dates of queued timers matter. */
  lemma SearchesSame(rows: seq<seq<int>>, due: Dues, due': Dues, d: int)
    requires Rows(rows, due) && Rows(rows, due')
    requires forall l, x :: 0 <= l < |rows| && x in rows[l] ==> x in due && x in due' && due[x] == due'[x]
    ensures Searches(rows, due, d) <==> Searches(rows, due', d)
  {
    forall l | 0 <= l < |rows|
      ensures Past(rows[l], due, d) == Past(rows[l], due', d)
      ensures forall i :: 0 <= i < |rows[l]| ==> due[rows[l][i]] == due'[rows[l][i]]
    {
      forall i | 0 <= i < |rows[l]|
        ensures rows[l][i] in due && rows[l][i] in due'
        ensures due[rows[l][i]] == due'[rows[l][i]]
      {
        var x := rows[l][i];
        assert x in rows[l];
      }
      PastSame(rows[l], due, due', d);
    }
    forall l | 0 <= l < |rows| ensures Entry(rows, due, d, l) == Entry(rows, due', d, l) {
      if l > 0 { assert Past(rows[l - 1], due, d) == Past(rows[l - 1], due', d); }
    }
  }

  /** The outcome of a search and an insertion, truthful or not. */
  lemma Placed(rows: seq<seq<int>>, due: Dues, heads: seq<nat>, h: nat, t: int, rows': seq<seq<int>>, x: int)
    requires Rows(rows, due) && t in due && Raised(rows, rows', heads, h, t) && h < |rows|
    requires Searches(rows, due, due[t].deadline) ==> forall l :: 0 <= l < |rows| ==>
        SplitsAt(rows[l], due, due[t].deadline, heads[l])
    requires !Searches(rows, due, due[t].deadline) ==>
        Misplaced(BottomOf(rows), due, due[t].deadline, heads[|rows| - 1], x)
    requires forall l :: 0 <= l < |rows| ==> forall x :: x in rows[l] ==> x in due && due[x].stamp < due[t].stamp
    ensures |rows'| == |rows| && (Rows(rows', due) <==> Searches(rows, due, due[t].deadline))
    ensures forall i :: 0 <= i < |BottomOf(rows)| ==> BottomOf(rows)[i] in due
    ensures Searches(rows, due, due[t].deadline) ==>
        BottomOf(rows') == SortedInsert(BottomOf(rows), due, t, due[t].deadline)
    ensures forall x :: x in BottomOf(rows') <==> x in BottomOf(rows) || x == t
  {
    hide Searches, Misplaced, SplitsAt;
    if Searches(rows, due, due[t].deadline) {
      Inserted(rows, due, heads, h, t, rows');
    } else {
      var b := |rows| - 1;
      MisplacedUnsorted(rows[b], due, due[t].deadline, heads[b], x, t);
      InsertMembers(rows[b], heads[b], t);
    }
  }

  /** While true distances are below 2^32: the search is truthful exactly when the timers it looks at are in the
      window. */
  lemma SearchesExact(rows: seq<seq<int>>, due: Dues, d: int)
    requires Rows(rows, due) && forall x :: x in BottomOf(rows) ==>
        x in due && -TICK_MOD < due[x].deadline - d < TICK_MOD
    ensures Searches(rows, due, d) <==>
      forall l, i :: 0 <= l < |rows| && Entry(rows, due, d, l) <= i <= Past(rows[l], due, d) && i < |rows[l]| ==>
        HALF - TICK_MOD <= due[rows[l][i]].deadline - d < HALF
  {
    forall l, i | 0 <= l < |rows| && 0 <= i < |rows[l]|
      ensures Truthful(due[rows[l][i]].deadline, d) <==> HALF - TICK_MOD <= due[rows[l][i]].deadline - d < HALF
    {
      var x := rows[l][i];
      InBottomRow(rows, due, l, x);
      LaterExact(due[x].deadline, d);
    }
  }

  /** A single timer half the tick range ahead is passed over. */
  lemma TooFar(rows: seq<seq<int>>, due: Dues, d: int)
    requires Rows(rows, due) && |rows| == 1 && rows[0] == [2] && 2 in due && due[2].deadline == d + HALF
    ensures !Searches(rows, due, d)
  {
    LaterExact(d + HALF, d);
    assert Entry(rows, due, d, 0) == 0 == Past(rows[0], due, d) && due[rows[0][0]].deadline == d + HALF;
  }

  /** A timer far ahead does no harm if a nearer one stops the search before it. */
  lemma FarTimerHarmless(d: int)
    ensures var due := map[1 := Due(d + 1, 0, d), 2 := Due(d + HALF, 1, d)];
      Rows([[1, 2]], due) && Searches([[1, 2]], due, d)
  {
    var due := map[1 := Due(d + 1, 0, d), 2 := Due(d + HALF, 1, d)];
    var row := [1, 2];
    LaterExact(d + 1, d);
    assert [row][0] == row;
  }

  /** A timer four ticks overdue, queued when one with the longest delay is started, is overtaken by it. */
  lemma Overtaken(now: int)
    ensures var due := map[1 := Due(now - 4, 0, now)];
      Rows([[1]], due) && !Searches([[1]], due, now + HALF - 1)
  {
    var due := map[1 := Due(now - 4, 0, now)];
    var row := [1];
    LaterExact(now - 4, now + HALF - 1);
    assert [row][0] == row && Past(row, due, now + HALF - 1) == 1 + Past(row[1..], due, now + HALF - 1);
    assert Entry([row], due, now + HALF - 1, 0) == 0;
  }
}
