/** Hard timers: rt_timer_start, rt_timer_stop and rt_timer_check of timer.c over a skip list with any
    number of rows, driven by the 32-bit tick of clock.c.

    The ghost clock `now` never wraps. Everything the code decides by 32-bit comparisons is shown to
    agree with true deadlines. */
module Timers {
  import opened Ticks
  import opened TimerRows
  import opened Options

  /** Where a search stands: at the list head or at a timer. */
  datatype Node = Head | At(timer: int)

  /** One call of a timeout function. */
  datatype Firing = Firing(timer: int, at: int, due: Due)

  /** The tick whose check has to fire a timer: its deadline, but never the tick it was inserted in. */
  function FireTick(d: Due): int {
    if d.deadline > d.start then d.deadline else d.start + 1
  }

  /** How far a thread got inside rt_timer_start: behind the first critical section, or behind the
      unlocked computation of the timeout tick as well. */
  datatype Stage = Cleared | Stamped

  /** The timeout ticks of the row are those of its due dates. */
  ghost predicate Described(row: seq<int>, due: Dues, timeoutTick: map<int, int>) {
    forall x :: x in row ==> x in due && x in timeoutTick && timeoutTick[x] == Wrap(due[x].deadline)
  }

  /** A queued timer is described by its 32-bit timeout tick and can be told to have expired by it.
      `since` is the last tick whose check is over. */
  ghost predicate Pending(due: Dues, timeoutTick: map<int, int>, initTick: map<int, int>, stamps: int, now: int,
                          since: int, t: int) {
    && t in due && t in timeoutTick && t in initTick
    && timeoutTick[t] == Wrap(due[t].deadline)
    && due[t].stamp < stamps
    && since + 1 - HALF < due[t].deadline < now + HALF
    && since < FireTick(due[t])
    && due[t].start <= now && (due[t].deadline <= due[t].start ==> due[t].start <= since)
  }

  ghost predicate Queued(bottom: seq<int>, due: Dues, timeoutTick: map<int, int>, initTick: map<int, int>,
                         stamps: int, now: int, since: int) {
    forall t :: t in bottom ==> Pending(due, timeoutTick, initTick, stamps, now, since, t)
  }

  /** Timers that are being started are not queued; a stamped one carries the deadline of its stamp. */
  ghost predicate Begun(starting: map<int, Stage>, stamped: map<int, int>, bottom: seq<int>,
                        timeoutTick: map<int, int>, initTick: map<int, int>, now: int) {
    forall t :: t in starting ==>
      && t !in bottom && t in initTick
      && (starting[t].Stamped? ==>
            && t in stamped && t in timeoutTick
            && timeoutTick[t] == Wrap(stamped[t]) && stamped[t] < now + HALF)
  }

  ghost predicate Settings(initTick: map<int, int>, periodic: set<int>) {
    forall t :: t in initTick ==> 0 <= initTick[t] < HALF && (t in periodic ==> initTick[t] >= 1)
  }

  ghost predicate Logged(fired: seq<Firing>) {
    forall f :: f in fired ==> f.at == FireTick(f.due)
  }

  /** The flag of every timer, but for the exempt ones, tells whether it is queued. */
  ghost predicate FlagsAgree(active: set<int>, bottom: seq<int>, exempt: set<int>) {
    forall t :: t !in exempt ==> (t in active <==> t in bottom)
  }

  /** At time `at`, a timer started with a delay up to the horizon compares truthfully with every queued one, and no
      period exceeds the horizon. */
  ghost predicate Spanned(bottom: seq<int>, due: Dues, periodic: set<int>, initTick: map<int, int>, at: int,
                          horizon: int) {
    && 0 <= horizon < HALF
    && (forall y :: y in bottom ==> y in due && at + horizon - due[y].deadline <= TICK_MOD - HALF)
    && (forall y :: y in bottom && y in periodic ==> y in initTick && initTick[y] <= horizon)
  }

  // ---------------------------------------------------------------- steps of the invariant

  lemma QueuedInsert(bottom: seq<int>, bottom': seq<int>, due: Dues, timeoutTick: map<int, int>,
                     initTick: map<int, int>, stamps: int, now: int, since: int, t: int, d: int)
    requires Queued(bottom, due, timeoutTick, initTick, stamps, now, since) && t !in bottom && t in initTick
    requires t in timeoutTick && timeoutTick[t] == Wrap(d) && d < now + HALF && since <= now
    requires (since == now || d > now)
    requires forall x :: x in bottom' <==> x in bottom || x == t
    ensures Queued(bottom', due[t := Due(d, stamps, now)], timeoutTick, initTick, stamps + 1, now, since) <==>
        since + 1 - d < HALF
  {
    var due' := due[t := Due(d, stamps, now)];
    assert t in bottom';
    assert Pending(due', timeoutTick, initTick, stamps + 1, now, since, t) <==> since + 1 - d < HALF;
    forall x | x in bottom' && x != t ensures Pending(due', timeoutTick, initTick, stamps + 1, now, since, x) {
      assert Pending(due, timeoutTick, initTick, stamps, now, since, x);
    }
  }

  lemma SpannedInsert(bottom: seq<int>, bottom': seq<int>, due: Dues, periodic: set<int>, initTick: map<int, int>,
                      now: int, horizon: int, t: int, d: Due)
    requires Spanned(bottom, due, periodic, initTick, now, horizon) && d.deadline > now && t in initTick
    requires initTick[t] <= horizon
    requires forall x :: x in bottom' ==> x in bottom || x == t
    ensures Spanned(bottom', due[t := d], periodic, initTick, now, horizon)
  {
  }

  /** Inside the horizon every search is truthful. */
  lemma SpannedSearch(rows: seq<seq<int>>, due: Dues, timeoutTick: map<int, int>, initTick: map<int, int>,
                      stamps: int, now: int, since: int, periodic: set<int>, horizon: int, t: int, delay: int)
    requires Rows(rows, due) && Queued(BottomOf(rows), due, timeoutTick, initTick, stamps, now, since)
    requires Spanned(BottomOf(rows), due, periodic, initTick, now, horizon) && 0 <= delay <= horizon
    ensures Rows(WithoutAll(rows, t), due) && Searches(WithoutAll(rows, t), due, now + delay)
  {
    hide Searches, Past, Entry, Rows;
    RowsWithout(rows, due, t);
    var bottom := BottomOf(WithoutAll(rows, t));
    forall x | x in bottom ensures x in due && HALF - TICK_MOD <= due[x].deadline - (now + delay) < HALF {
      assert x in BottomOf(rows);
      assert Pending(due, timeoutTick, initTick, stamps, now, since, x);
    }
    SearchesWithin(WithoutAll(rows, t), due, now + delay);
  }

  /** An absent timer may be given any due date; the rows stay in order. */
  lemma Redated(rows: seq<seq<int>>, due: Dues, timeoutTick: map<int, int>, initTick: map<int, int>, stamps: int,
                now: int, since: int, t: int, d: Due)
    requires Rows(rows, due) && Queued(BottomOf(rows), due, timeoutTick, initTick, stamps, now, since)
    requires t !in BottomOf(rows)
    ensures Rows(rows, due[t := d])
    ensures forall l :: 0 <= l < |rows| ==> Described(rows[l], due[t := d], timeoutTick)
    ensures forall l, x :: 0 <= l < |rows| && x in rows[l] ==> x != t && x in due && due[x].stamp < stamps
    ensures Searches(rows, due[t := d], d.deadline) <==> Searches(rows, due, d.deadline)
  {
    hide Searches, Past, Entry;
    AbsentAbove(rows, due, t);
    RowsRedate(rows, due, t, d);
    forall l, x | 0 <= l < |rows| && x in rows[l]
      ensures x != t && x in due && due[x].stamp < stamps && x in timeoutTick && timeoutTick[x] == Wrap(due[x].deadline)
    {
      InBottomRow(rows, due, l, x);
      assert Pending(due, timeoutTick, initTick, stamps, now, since, x);
    }
    hide Rows;
    SearchesSame(rows, due, due[t := d], d.deadline);
  }

  lemma QueuedRetimed(bottom: seq<int>, due: Dues, timeoutTick: map<int, int>, initTick: map<int, int>, stamps: int,
                      now: int, since: int, t: int, delay: int)
    requires Queued(bottom, due, timeoutTick, initTick, stamps, now, since)
    ensures Queued(bottom, due, timeoutTick, initTick[t := delay], stamps, now, since)
  {
    forall x | x in bottom ensures Pending(due, timeoutTick, initTick[t := delay], stamps, now, since, x) {
      assert Pending(due, timeoutTick, initTick, stamps, now, since, x);
    }
  }

  lemma TargetsOf(callbacks: map<int, seq<CallbackOp>>, t: int)
    requires t in callbacks
    ensures (set op | op in callbacks[t] :: op.timer) <= Targets(callbacks)
  {
  }

  lemma ProgressFires(was: seq<int>, due0: Dues, b: seq<int>, due: Dues, now: int, calls: seq<Firing>,
                      touched: set<int>, x: int)
    requires Progress(was, due0, b, due, now, calls, touched) && x in was && x !in touched
    requires forall y :: y in b ==> y in due && due[y].deadline > now
    ensures x in due0
    ensures due0[x].deadline <= now ==> Firing(x, now, due0[x]) in calls
    ensures due0[x].deadline > now ==> x in b && x in due && due[x] == due0[x]
  {
  }

  /** How many rows above the bottom one a timer is put into: one for each zero digit, to the base of mask + 1, at the
      low end of the insertion counter, but not more than there are. */
  function Height(nr: int, mask: nat, rows: nat): (h: nat)
    ensures h <= rows
    decreases rows
  {
    if rows == 0 || nr % (mask + 1) != 0 then 0 else 1 + Height(nr / (mask + 1), mask, rows - 1)
  }

  class TimerList {
    const levels: nat             // RT_TIMER_SKIP_LIST_LEVEL
    const mask: nat               // RT_TIMER_SKIP_LIST_MASK
    var tick: int                 // rt_tick
    var rows: seq<seq<int>>       // rt_timer_list
    var timeoutTick: map<int, int>
    var initTick: map<int, int>
    var active: set<int>          // RT_TIMER_FLAG_ACTIVATED
    var periodic: set<int>        // RT_TIMER_FLAG_PERIODIC
    var randomNr: int
    var starting: map<int, Stage> // timers a thread is starting
    var stopping: set<int>        // timers removed by rt_timer_stop that has not cleared the flag yet
    ghost var now: int
    ghost var due: Dues
    ghost var stamps: int
    ghost var stamped: map<int, int>
    ghost var fired: seq<Firing>

    ghost function Bottom(): seq<int>
      reads this
      requires |rows| > 0
    {
      BottomOf(rows)
    }

    ghost predicate Core(since: int)
      reads this
    {
      && levels > 0 && |rows| == levels && (mask == 1 || mask == 3)
      && tick == Wrap(now) && now - 1 <= since <= now && 0 <= randomNr
      && Rows(rows, due)
      && Queued(Bottom(), due, timeoutTick, initTick, stamps, now, since)
      && Settings(initTick, periodic) && Logged(fired)
      && Begun(starting, stamped, Bottom(), timeoutTick, initTick, now)
    }

    constructor (levels: nat, mask: nat)
      requires levels > 0 && (mask == 1 || mask == 3)
      ensures Valid() && now == 0 && initTick == map[] && fired == [] && Bottom() == [] && |rows| == levels
      ensures this.levels == levels && starting == map[] && stopping == {} && active == {} && stamps == 0
    {
      this.levels, this.mask := levels, mask;
      tick, now := 0, 0;
      rows := seq(levels, _ => []);
      timeoutTick, initTick, active, periodic := map[], map[], {}, {};
      starting, stopping := map[], {};
      randomNr := 0;
      due, stamps, stamped, fired := map[], 0, map[], [];
    }

    ghost predicate Flags(exempt: set<int>)
      reads this
      requires |rows| > 0
    {
      FlagsAgree(active, Bottom(), exempt)
    }

    ghost predicate Spans(horizon: int)
      reads this
      requires |rows| > 0
    {
      Spanned(Bottom(), due, periodic, initTick, now, horizon)
    }

    ghost function Snap(): Snapshot
      reads this
      requires |rows| > 0
    {
      Snapshot(Bottom(), due, active, initTick)
    }

    /** Between two ticks: the check for tick `now` is over and the flags tell who is queued. */
    ghost predicate Valid()
      reads this
    {
      Core(now) && Flags(stopping)
    }

    /** _rt_timer_remove: out of every row. */
    method Remove(t: int)
      modifies this`rows
      ensures rows == WithoutAll(old(rows), t)
    {
      var i := 0;
      while i < |rows|
        invariant 0 <= i <= |rows| == |old(rows)|
        invariant forall l :: 0 <= l < i ==> rows[l] == Without(old(rows)[l], t)
        invariant forall l :: i <= l < |rows| ==> rows[l] == old(rows)[l]
      {
        rows := rows[i := Without(rows[i], t)];
        i := i + 1;
      }
    }

    /** The inner search loop of rt_timer_start: from a node on, skip every timer that does not compare as later. */
    method FindRow(row: seq<int>, from: nat, target: int, ghost d: int) returns (p: nat)
      requires from <= |row| && target == Wrap(d) && Described(row, due, timeoutTick)
      ensures Stopped(row, due, d, from, p)
    {
      forall i | 0 <= i < |row|
        ensures row[i] in due && row[i] in timeoutTick
        ensures timeoutTick[row[i]] == Wrap(due[row[i]].deadline)
      {
        var x := row[i];
        assert x in row;
      }
      p := from;
      while p < |row|
        invariant from <= p <= |row| && forall i :: from <= i < p ==> !Later(due[row[i]].deadline, d)
      {
        var diff := Sub(timeoutTick[row[p]], target);
        if diff != 0 && diff < HALF {
          break;
        }
        p := p + 1;
      }
    }

    /** The outer search loop: each row is entered at the node where the row above was left. It finds the split of
        every row if all its comparisons are truthful; if one is not, a timer ends up on the wrong side. */
    method FindHeads(target: int, ghost d: int) returns (heads: seq<nat>, ghost x: int)
      requires Rows(rows, due) && target == Wrap(d)
      requires forall l :: 0 <= l < |rows| ==> Described(rows[l], due, timeoutTick)
      ensures |heads| == |rows| && forall l :: 0 <= l < |rows| ==> heads[l] <= |rows[l]|
      ensures Searches(rows, due, d) ==> forall l :: 0 <= l < |rows| ==> SplitsAt(rows[l], due, d, heads[l])
      ensures !Searches(rows, due, d) ==> Misplaced(BottomOf(rows), due, d, heads[|rows| - 1], x)
    {
      hide Searches, Misplaced, Past, RowTruthful, Entry;
      heads := [];
      var node := Head;
      var lvl := 0;
      ghost var good := true;
      x := 0;
      while lvl < |rows|
        invariant 0 <= lvl <= |rows| && |heads| == lvl && forall l :: 0 <= l < lvl ==> heads[l] <= |rows[l]|
        invariant good ==> forall l :: 0 <= l < lvl ==>
            heads[l] == Past(rows[l], due, d) && RowTruthful(rows, due, d, l)
        invariant !good ==> lvl > 0 && !Searches(rows, due, d) && Misplaced(rows[lvl - 1], due, d, heads[lvl - 1], x)
        invariant node == if lvl == 0 || heads[lvl - 1] == 0 then Head else At(rows[lvl - 1][heads[lvl - 1] - 1])
      {
        var row := rows[lvl];
        var from := 0;
        if node.At? {
          assert Within(rows[lvl - 1], row);
          var y := node.timer;
          assert y in rows[lvl - 1];
          from := IndexOf(row, node.timer) + 1;
        }
        var p := FindRow(row, from, target, d);
        good, x := Descend(rows, due, d, lvl, if lvl == 0 then 0 else heads[lvl - 1], from, p, good, x);
        heads := heads + [p];
        node := if p == 0 then Head else At(row[p - 1]);
        lvl := lvl + 1;
      }
      if good { AllTruthful(rows, due, d); }
      if good {
        forall l | 0 <= l < |rows| ensures SplitsAt(rows[l], due, d, heads[l]) { PastSplits(rows[l], due, d); }
      }
    }

    /** The insertion loop of rt_timer_start: always into the bottom row, into a higher row as long as
        the counter's next bits are zero. */
    method Raise(t: int, heads: seq<nat>) returns (ghost h: nat)
      requires levels > 0 && |rows| == levels == |heads| && mask > 0 && 0 <= randomNr
      requires forall l :: 0 <= l < levels ==> heads[l] <= |rows[l]|
      modifies this`rows, this`randomNr
      ensures h < levels && Raised(old(rows), rows, heads, h, t)
      ensures randomNr == (old(randomNr) + 1) % TICK_MOD && h == levels - 1 - Height(randomNr, mask, levels - 1)
    {
      randomNr := (randomNr + 1) % TICK_MOD;
      var tst := randomNr;
      rows := rows[levels - 1 := InsertAt(rows[levels - 1], heads[levels - 1], t)];
      h := levels - 1;
      var lvl := 2;
      while lvl <= levels
        invariant 2 <= lvl <= levels + 1 && h == levels - lvl + 1
        invariant Raised(old(rows), rows, heads, h, t) && randomNr == (old(randomNr) + 1) % TICK_MOD && tst >= 0
        invariant Height(randomNr, mask, levels - 1) == lvl - 2 + Height(tst, mask, levels - lvl + 1)
      {
        if tst % (mask + 1) != 0 {
          break;
        }
        var l := levels - lvl;
        rows := rows[l := InsertAt(rows[l], heads[l], t)];
        h := l;
        tst := tst / (mask + 1);
        lvl := lvl + 1;
      }
    }

    /** The critical section shared by rt_timer_start and rt_timer_stop, and the flag: the timer leaves
        every row and loses its flag. */
    method Unqueue(t: int, ghost since: int)
      requires Core(since)
      modifies this`rows, this`active
      ensures Core(since) && rows == WithoutAll(old(rows), t) && active == old(active) - {t}
    {
      hide Rows, Pending, Settings, Logged;
      RowsWithout(rows, due, t);
      Remove(t);
      active := active - {t};
    }

    /** The second critical section of rt_timer_start, for a timer that carries the timeout tick of deadline d: search
        all rows, then insert. The rows stay sorted exactly when every comparison on the way is truthful; then,
        whatever the counter says, the bottom row becomes the plain sorted insertion. And the next check can tell
        that the timer has expired exactly when the deadline is less than half the tick range ago. */
    method Enqueue(t: int, ghost d: int, ghost since: int)
      requires Core(since) && t in initTick && t !in Bottom() && d < now + HALF && (since == now || d > now)
      requires t in timeoutTick && timeoutTick[t] == Wrap(d) && t !in starting
      modifies this`rows, this`active, this`randomNr, this`due, this`stamps
      ensures due == old(due)[t := Due(d, old(stamps), now)] && stamps == old(stamps) + 1
      ensures active == old(active) + {t} && |rows| == levels > 0
      ensures Rows(rows, due) <==> old(Searches(rows, due, d))
      ensures Core(since) <==> old(Searches(rows, due, d)) && since + 1 - d < HALF
      ensures forall x :: x in Bottom() <==> x in old(Bottom()) || x == t
      ensures forall i :: 0 <= i < |old(Bottom())| ==> old(Bottom())[i] in due
      ensures old(Searches(rows, due, d)) ==> Bottom() == SortedInsert(old(Bottom()), due, t, d)
    {
      hide Rows, Raised, SplitsAt, Described, SortedInsert, Searches, Misplaced, Queued, Settings, Logged;
      Redated(rows, due, timeoutTick, initTick, stamps, now, since, t, Due(d, stamps, now));
      ghost var due0, stamps0, was := due, stamps, rows;
      due, stamps := due[t := Due(d, stamps, now)], stamps + 1;
      ghost var x;
      var heads;
      heads, x := FindHeads(timeoutTick[t], d);
      ghost var h := Raise(t, heads);
      active := active + {t};
      Placed(was, due, heads, h, t, rows, x);
      QueuedInsert(BottomOf(was), Bottom(), due0, timeoutTick, initTick, stamps0, now, since, t, d);
    }

    /** rt_timer_start without interruption: inside a check, or when no tick falls into it. */
    method Start(t: int, ghost since: int)
      requires Core(since) && t in initTick && t !in starting && (since == now || initTick[t] >= 1)
      modifies this`rows, this`timeoutTick, this`active, this`randomNr, this`due, this`stamps
      ensures due == old(due)[t := Due(now + initTick[t], old(stamps), now)] && stamps == old(stamps) + 1
      ensures active == old(active) + {t} && |rows| == levels > 0
      ensures Rows(WithoutAll(old(rows), t), old(due))
      ensures Core(since) <==> Searches(WithoutAll(old(rows), t), old(due), now + initTick[t])
      ensures forall x :: x in Bottom() <==> x in old(Bottom()) || x == t
      ensures forall i :: 0 <= i < |Without(old(Bottom()), t)| ==> Without(old(Bottom()), t)[i] in due
      ensures Core(since) ==> Bottom() == SortedInsert(Without(old(Bottom()), t), due, t, now + initTick[t])
    {
      hide Rows, SortedInsert, Queued, Searches, Logged;
      RowsWithout(rows, due, t);
      Unqueue(t, since);
      Stamp(t, since);
      Enqueue(t, now + initTick[t], since);
      assert active == old(active) + {t};
    }

    /** The same by a thread, between two ticks: it keeps the list in order exactly when the search is truthful. */
    method StartAtOnce(t: int)
      requires Valid() && t in initTick && t !in starting
      modifies this`rows, this`timeoutTick, this`active, this`randomNr, this`due, this`stamps
      ensures due == old(due)[t := Due(now + initTick[t], old(stamps), now)] && |rows| == levels > 0
      ensures Rows(WithoutAll(old(rows), t), old(due))
      ensures active == old(active) + {t} && forall x :: x in Bottom() <==> x in old(Bottom()) || x == t
      ensures Valid() <==> Searches(WithoutAll(old(rows), t), old(due), now + initTick[t])
      ensures forall i :: 0 <= i < |Without(old(Bottom()), t)| ==> Without(old(Bottom()), t)[i] in due
      ensures Valid() ==> Bottom() == SortedInsert(Without(old(Bottom()), t), due, t, now + initTick[t])
    {
      hide Rows, SortedInsert, Queued, Searches, Logged, Settings, Begun;
      Start(t, now);
    }

    /** The computation between the critical sections: the timeout tick of a deadline init_tick from now. */
    method Stamp(t: int, ghost since: int)
      requires Core(since) && t in initTick && t !in Bottom() && (t in starting ==> starting[t].Cleared?)
      modifies this`timeoutTick
      ensures Core(since) && timeoutTick == old(timeoutTick)[t := Wrap(now + initTick[t])]
    {
      hide Rows, Logged;
      WrapAdd(now, initTick[t]);
      timeoutTick := timeoutTick[t := (tick + initTick[t]) % TICK_MOD];
    }

    // ---------------------------------------------------------------- rt_timer_start in a thread, step by step

    /** Up to the end of the first critical section. */
    method StartClear(t: int)
      requires Valid() && t in initTick && t !in starting
      modifies this`rows, this`active, this`starting
      ensures Valid() && rows == WithoutAll(old(rows), t) && active == old(active) - {t}
      ensures starting == old(starting)[t := Cleared]
    {
      hide Rows, Queued, Settings, Logged;
      Unqueue(t, now);
      starting := starting[t := Cleared];
    }

    /** The tick is read and the timeout tick stored with interrupts enabled. */
    method StartStamp(t: int)
      requires Valid() && t in starting && starting[t].Cleared? && t in initTick
      modifies this`timeoutTick, this`starting, this`stamped
      ensures Valid() && starting == old(starting)[t := Stamped] && stamped == old(stamped)[t := now + initTick[t]]
    {
      hide Rows, Queued, Logged;
      Stamp(t, now);
      starting := starting[t := Stamped];
      stamped := stamped[t := now + initTick[t]];
    }

    /** The second critical section, any number of ticks and of other starts and stops later. The timer will fire at
        its stamped deadline, or in the next tick if that has passed; provided that the comparisons are truthful
        and the deadline is not half the tick range ago, which is exactly what the list needs to stay in order. */
    method StartInsert(t: int)
      requires Valid() && t in starting && starting[t].Stamped? && t in stamped
      modifies this`rows, this`active, this`randomNr, this`due, this`stamps, this`starting
      ensures due == old(due)[t := Due(stamped[t], old(stamps), now)] && starting == old(starting) - {t}
      ensures FireTick(due[t]) == if stamped[t] > now + 1 then stamped[t] else now + 1
      ensures active == old(active) + {t} && |rows| == levels > 0
      ensures Rows(rows, due) <==> old(Searches(rows, due, stamped[t]))
      ensures Valid() <==> old(Searches(rows, due, stamped[t])) && now + 1 - stamped[t] < HALF
      ensures forall x :: x in Bottom() <==> x in old(Bottom()) || x == t
      ensures forall i :: 0 <= i < |old(Bottom())| ==> old(Bottom())[i] in due
      ensures old(Searches(rows, due, stamped[t])) ==> Bottom() == SortedInsert(old(Bottom()), due, t, stamped[t])
    {
      hide Rows, SortedInsert, Queued, Searches, Logged, Settings;
      starting := starting - {t};
      Enqueue(t, stamped[t], now);
    }

    /** The critical section of rt_timer_stop, some time after its test of the flag. */
    method StopRemove(t: int)
      requires Valid()
      modifies this`rows, this`stopping
      ensures Valid() && rows == WithoutAll(old(rows), t) && stopping == old(stopping) + {t}
    {
      hide Rows, Pending, Settings, Logged;
      RowsWithout(rows, due, t);
      Remove(t);
      stopping := stopping + {t};
    }

    /** The end of rt_timer_stop: the flag is cleared with interrupts enabled. The flags stay right exactly when
        nobody has started the timer again in between. */
    method StopClear(t: int)
      requires Valid() && t in stopping
      modifies this`active, this`stopping
      ensures Core(now) && active == old(active) - {t} && stopping == old(stopping) - {t}
      ensures Valid() <==> t !in Bottom()
    {
      hide Rows, Queued, Settings, Logged, Begun;
      active := active - {t};
      stopping := stopping - {t};
    }

    /** rt_timer_stop without interruption. */
    method Stop(t: int, ghost since: int) returns (ok: bool)
      requires Core(since)
      modifies this`rows, this`active
      ensures Core(since)
      ensures ok <==> t in old(active)
      ensures ok ==> rows == WithoutAll(old(rows), t) && active == old(active) - {t}
      ensures !ok ==> rows == old(rows) && active == old(active)
    {
      ok := t in active;
      if ok {
        Unqueue(t, since);
      }
    }

    /** rt_timer_control with RT_TIMER_CTRL_SET_TIME. The delay is below half the tick range, as
        rt_timer_start asserts, and a periodic timer has a period. */
    method SetTime(t: int, time: int)
      requires 0 <= time < HALF && (t in periodic ==> time >= 1)
      modifies this`initTick
      ensures initTick == old(initTick)[t := time]
    {
      initTick := initTick[t := time];
    }

    // ---------------------------------------------------------------- rt_timer_check

    /** What a timeout function may do to timers: start others with a delay, stop any. Its last operation on a timer
        decides what becomes of it. */
    method Callback(t: int, ops: seq<CallbackOp>, horizon: int) returns (ghost touched: set<int>)
      requires Core(now - 1) && t !in Bottom() && t in initTick && Flags(stopping + {t}) && Spans(horizon)
      requires CallbackOk(ops, t, horizon, starting)
      modifies this`rows, this`timeoutTick, this`active, this`randomNr, this`due, this`stamps, this`initTick
      ensures Core(now - 1) && t !in Bottom() && t in initTick && initTick[t] == old(initTick)[t]
      ensures Flags(stopping + {t}) && Spans(horizon)
      ensures Spared(old(Bottom()), old(due), Bottom(), due, touched, now)
      ensures touched <= set op | op in ops :: op.timer
      ensures Settles(ops, old(Snap()), Snap(), now, stopping)
    {
      SettlesNone(Snap(), now, stopping);
      SparedNone(Bottom(), due, now);
      hide Spared, Settles, Applied, Rows, Logged, Queued, Settings, Begun, Spanned, FlagsAgree;
      touched := {};
      var i := 0;
      assert ops[..0] == [];
      while i < |ops|
        invariant 0 <= i <= |ops| && touched <= set op | op in ops :: op.timer
        invariant Core(now - 1) && t !in Bottom() && t in initTick && initTick[t] == old(initTick)[t]
        invariant Flags(stopping + {t}) && Spans(horizon)
        invariant Settles(ops[..i], old(Snap()), Snap(), now, stopping)
        invariant Spared(old(Bottom()), old(due), Bottom(), due, touched, now)
      {
        var op := ops[i];
        assert op in ops;
        ghost var s1 := Snap();
        ghost var more := OneCallback(t, op, horizon);
        assert ops[..i + 1] == ops[..i] + [op];
        SparedStep(old(Bottom()), old(due), s1.queued, s1.due, Bottom(), due, touched, more, now);
        SettlesStep(ops[..i], op, old(Snap()), s1, Snap(), now, stopping);
        touched := touched + more;
        i := i + 1;
      }
      assert ops[..i] == ops;
    }

    /** An operation of a timeout function, and the timer it touched: none if it stops one that is not active. */
    method OneCallback(t: int, op: CallbackOp, horizon: int) returns (ghost touched: set<int>)
      requires Core(now - 1) && t !in Bottom() && t in initTick && Flags(stopping + {t}) && Spans(horizon)
      requires op.CbStart? ==> op.timer != t && 1 <= op.delay <= horizon && op.timer !in starting
      modifies this`rows, this`timeoutTick, this`active, this`randomNr, this`due, this`stamps, this`initTick
      ensures Core(now - 1) && t !in Bottom() && t in initTick && initTick[t] == old(initTick)[t]
      ensures Flags(stopping + {t}) && Spans(horizon)
      ensures Spared(old(Bottom()), old(due), Bottom(), due, touched, now)
      ensures touched <= {op.timer}
      ensures Applied(op, old(Snap()), Snap(), now, stopping)
    {
      hide Rows, Logged, Queued, Settings;
      match op {
        case CbStart(u, delay) =>
          CallbackStart(u, delay, horizon);
          touched := {u};
        case CbStop(u) =>
          var ok := Stop(u, now - 1);
          touched := if ok then {u} else {};
      }
    }

    /** rt_timer_control and rt_timer_start by a timeout function. */
    method CallbackStart(u: int, delay: int, horizon: int)
      requires Core(now - 1) && Spans(horizon) && 1 <= delay <= horizon && u !in starting
      modifies this`rows, this`timeoutTick, this`active, this`randomNr, this`due, this`stamps, this`initTick
      ensures Core(now - 1) && Spans(horizon) && active == old(active) + {u} && initTick == old(initTick)[u := delay]
      ensures due == old(due)[u := Due(now + delay, old(stamps), now)]
      ensures forall x :: x in Bottom() <==> x in old(Bottom()) || x == u
    {
      hide Rows, Searches, Logged, Queued, SortedInsert;
      QueuedRetimed(Bottom(), due, timeoutTick, initTick, stamps, now, now - 1, u, delay);
      SetTime(u, delay);
      SpannedSearch(rows, due, timeoutTick, initTick, stamps, now, now - 1, periodic, horizon, u, delay);
      ghost var was, due0 := Bottom(), due;
      Start(u, now - 1);
      SpannedInsert(was, Bottom(), due0, periodic, initTick, now, horizon, u, due[u]);
    }

    /** One round of the check loop: the first timer is removed, called, and restarted or switched off. */
    method FireFirst(ops: seq<CallbackOp>, horizon: int) returns (ghost touched: set<int>)
      requires Core(now - 1) && Bottom() != [] && Flags(stopping) && Spans(horizon)
      requires Bottom()[0] in due && due[Bottom()[0]].deadline <= now
      requires CallbackOk(ops, Bottom()[0], horizon, starting)
      modifies this`rows, this`timeoutTick, this`active, this`randomNr, this`due, this`stamps, this`initTick, this`fired
      ensures Core(now - 1) && Flags(stopping) && Spans(horizon)
      ensures var t := old(Bottom()[0]);
        && fired == old(fired) + [Firing(t, now, old(due)[t])] && FireTick(old(due)[t]) == now
        && Fired(old(Bottom()), old(due), Bottom(), due, now, t, touched)
        && Round([Firing(t, now, old(due)[t])], ops, old(Snap()), Snap(), periodic, now, stopping)
      ensures touched <= set op | op in ops :: op.timer
    {
      hide Rows, Queued, Begun, Logged, Settings;
      ghost var s0 := Snap();
      var t := PopFirst(horizon);
      ghost var s1 := Snap();
      touched := Callback(t, ops, horizon);
      ghost var s2 := Snap();
      Rearm(t, horizon);
      OneRound(t, ops, s0, s1, s2, Snap(), periodic, now, stopping, s0.due[t]);
    }

    /** Take the first timer off the list and log its call. */
    method PopFirst(horizon: int) returns (t: int)
      requires Core(now - 1) && Bottom() != [] && Flags(stopping) && Spans(horizon)
      requires Bottom()[0] in due && due[Bottom()[0]].deadline <= now
      modifies this`rows, this`fired
      ensures Core(now - 1) && t == old(Bottom()[0]) && t !in Bottom() && t in initTick && t in due && t !in starting
      ensures Flags(stopping + {t}) && Spans(horizon) && (t in periodic ==> initTick[t] <= horizon)
      ensures forall x :: x in Bottom() <==> x in old(Bottom()) && x != t
      ensures forall x :: x in old(Bottom()) ==> x in due
      ensures FireTick(due[t]) == now && fired == old(fired) + [Firing(t, now, due[t])]
    {
      hide Rows;
      t := rows[levels - 1][0];
      RowsWithout(rows, due, t);
      assert t in Bottom();
      Remove(t);
      fired := fired + [Firing(t, now, due[t])];
    }

    /** After the call: a periodic timer that is still active starts again, any other is switched off. */
    method Rearm(t: int, horizon: int)
      requires Core(now - 1) && t !in Bottom() && t in initTick && t !in starting && Flags(stopping + {t})
      requires Spans(horizon)
      requires t in periodic ==> initTick[t] <= horizon
      modifies this`rows, this`timeoutTick, this`active, this`randomNr, this`due, this`stamps
      ensures Core(now - 1) && Flags(stopping) && Spans(horizon)
      ensures t in Bottom() <==> t in periodic && t in old(active)
      ensures t in Bottom() ==> t in due && due[t].deadline == now + initTick[t] > now && due[t].start == now
      ensures active == if t in Bottom() then old(active) else old(active) - {t}
      ensures forall x :: x != t ==> (x in Bottom() <==> x in old(Bottom()))
      ensures forall x :: x != t && old(x in due) ==> x in due && due[x] == old(due)[x]
    {
      hide Rows, Searches, Logged, Queued, SortedInsert;
      if t in periodic && t in active {
        active := active - {t};
        SpannedSearch(rows, due, timeoutTick, initTick, stamps, now, now - 1, periodic, horizon, t, initTick[t]);
        ghost var was, due0 := Bottom(), due;
        Start(t, now - 1);
        SpannedInsert(was, Bottom(), due0, periodic, initTick, now, horizon, t, due[t]);
        assert active == old(active);
      } else {
        active := active - {t};
      }
    }

    /** Nothing happened to any timer. */
    twostate predicate Quiet()
      reads this
    {
      && rows == old(rows) && due == old(due) && initTick == old(initTick) && timeoutTick == old(timeoutTick)
      && active == old(active) && stamps == old(stamps) && fired == old(fired)
    }

    /** A tick while no timer is queued. */
    method QuietTick()
      requires Valid() && Bottom() == []
      modifies this`tick, this`now, this`rows, this`timeoutTick, this`active, this`randomNr, this`due, this`stamps,
          this`initTick, this`fired
      ensures Valid() && now == old(now) + 1 && Quiet()
    {
      hide Rows, Logged, Settings, FlagsAgree, Progress, Begun;
      ghost var touched := Tick(map[], HALF - 1);
    }

    /** The 32-bit test of the check. */
    method Expired(t: int) returns (expired: bool)
      requires Core(now - 1) && t in Bottom()
      ensures t in due && (expired <==> due[t].deadline <= now)
    {
      assert Pending(due, timeoutTick, initTick, stamps, now, now - 1, t);
      ExpiredExact(now, due[t].deadline);
      expired := Sub(tick, timeoutTick[t]) < HALF;
    }

    /** rt_timer_check for tick `now`: every expired timer is called, in the order of deadlines and,
        among equals, of insertions; each in exactly the check its due date calls for. `callbacks` is what the
        timeout functions do, and no delay they start exceeds the horizon. Afterwards a timer is as the last operation
        of a timeout function left it; without one, a called timer is queued again for a period from now exactly if it
        is periodic and active, and every other timer is as it was. */
    method Check(callbacks: map<int, seq<CallbackOp>>, horizon: int) returns (ghost touched: set<int>)
      requires Core(now - 1) && Flags(stopping) && Spans(horizon)
      requires forall t :: t in callbacks ==> CallbackOk(callbacks[t], t, horizon, starting)
      modifies this`rows, this`timeoutTick, this`active, this`randomNr, this`due, this`stamps, this`initTick, this`fired
      ensures Valid()
      ensures |old(fired)| <= |fired| && fired[..|old(fired)|] == old(fired)
      ensures Progress(old(Bottom()), old(due), Bottom(), due, now, fired[|old(fired)|..], touched)
      ensures forall x :: x in Bottom() ==> x in due && due[x].deadline > now
      ensures touched <= Targets(callbacks)
      ensures var calls := fired[|old(fired)|..];
        Round(calls, Performed(calls, callbacks), old(Snap()), Snap(), periodic, now, stopping)
      ensures old(rows[levels - 1]) == [] ==> Quiet()
    {
      hide Checked, Round, Performed, Progress, Rows, Queued, Begun, Logged, Settings, FlagsAgree, Spanned, Targets;
      ghost var calls;
      calls, touched := CheckLoop(callbacks, horizon);
      BottomSorted();
      CheckOver();
      WhatIsChecked(old(Snap()), Snap(), calls, callbacks, touched, periodic, now, stopping);
      assert fired[..|old(fired)|] == old(fired) && fired[|old(fired)|..] == calls;
    }

    method CheckLoop(callbacks: map<int, seq<CallbackOp>>, horizon: int)
      returns (ghost calls: seq<Firing>, ghost touched: set<int>)
      requires Core(now - 1) && Flags(stopping) && Spans(horizon)
      requires forall t :: t in callbacks ==> CallbackOk(callbacks[t], t, horizon, starting)
      modifies this`rows, this`timeoutTick, this`active, this`randomNr, this`due, this`stamps, this`initTick, this`fired
      ensures Core(now - 1) && Flags(stopping) && touched <= Targets(callbacks)
      ensures fired == old(fired) + calls
      ensures Checked(old(Snap()), Snap(), calls, callbacks, touched, periodic, now, stopping)
      ensures Bottom() == [] || (Bottom()[0] in due && due[Bottom()[0]].deadline > now)
      ensures old(rows[levels - 1]) == [] ==> Quiet()
    {
      hide Core, Flags, Spans, Checked, Targets, CallbackOk, DueNow;
      Shape();
      ghost var s0 := Snap();
      calls, touched := [], {};
      NoneChecked(s0, callbacks, periodic, now, stopping);
      while rows[levels - 1] != []
        invariant |rows| == levels > 0 && Core(now - 1) && Flags(stopping) && Spans(horizon)
        invariant touched <= Targets(callbacks)
        invariant fired == old(fired) + calls && Checked(s0, Snap(), calls, callbacks, touched, periodic, now, stopping)
        invariant s0.queued == [] ==> Quiet() && rows == old(rows)
        decreases DueNow(Bottom(), due, now)
      {
        var t := rows[levels - 1][0];
        assert t in Bottom();
        Shape();
        var expired := Expired(t);
        if !expired {
          break;
        }
        calls, touched := CheckOne(callbacks, horizon, s0, calls, touched);
      }
    }

    /** The first timer has expired: one round, and what the check has done so far. */
    method CheckOne(callbacks: map<int, seq<CallbackOp>>, horizon: int, ghost s0: Snapshot, ghost calls: seq<Firing>,
                    ghost touched: set<int>)
      returns (ghost calls': seq<Firing>, ghost touched': set<int>)
      requires Core(now - 1) && Flags(stopping) && Spans(horizon) && touched <= Targets(callbacks)
      requires Bottom() != [] && Bottom()[0] in due && due[Bottom()[0]].deadline <= now
      requires forall t :: t in callbacks ==> CallbackOk(callbacks[t], t, horizon, starting)
      requires Checked(s0, Snap(), calls, callbacks, touched, periodic, now, stopping)
      modifies this`rows, this`timeoutTick, this`active, this`randomNr, this`due, this`stamps, this`initTick, this`fired
      ensures |rows| == levels && Core(now - 1) && Flags(stopping) && Spans(horizon) && touched' <= Targets(callbacks)
      ensures calls' == calls + [Firing(old(Bottom()[0]), now, old(due[Bottom()[0]]))]
      ensures fired == old(fired) + [calls'[|calls|]]
      ensures Checked(s0, Snap(), calls', callbacks, touched', periodic, now, stopping)
      ensures DueNow(Bottom(), due, now) < old(DueNow(Bottom(), due, now))
    {
      hide Checked, Round, Performed, Progress, Fired, Rows, Queued, Begun, Logged, FlagsAgree, Spanned, Targets;
      var t := rows[levels - 1][0];
      assert t in Bottom();
      if t in callbacks { TargetsOf(callbacks, t); }
      ghost var s1 := Snap();
      BottomSorted();
      Period(t);
      ghost var more := FireFirst(OpsOf(callbacks, t), horizon);
      DueShrinks(s1.queued, s1.due, Bottom(), due, now, t, more);
      OneChecked(s0, s1, Snap(), calls, callbacks, touched, periodic, now, stopping, t, more);
      touched' := touched + more;
      calls' := calls + [Firing(t, now, s1.due[t])];
    }

    lemma Shape()
      requires Core(now - 1)
      ensures |rows| == levels > 0 && forall x :: x in Bottom() ==> x in due
    {
    }

    lemma Period(t: int)
      requires Core(now - 1) && t in Bottom()
      ensures t in initTick && (t in periodic ==> initTick[t] >= 1)
    {
    }

    /** rt_timer_init: a timer that is not in use gets its delay and its kind. */
    method Create(t: int, time: int, repeat: bool)
      requires Valid() && t !in active && t !in Bottom() && t !in starting && 0 <= time < HALF && (repeat ==> time >= 1)
      modifies this`initTick, this`periodic
      ensures Valid() && initTick == old(initTick)[t := time]
      ensures periodic == if repeat then old(periodic) + {t} else old(periodic) - {t}
    {
      periodic := if repeat then periodic + {t} else periodic - {t};
      initTick := initTick[t := time];
    }

    /** The timer half of rt_tick_increase: advance the 32-bit tick, which may wrap, then check. A queued timer that
        no timeout function touches fires in the check of its own tick and in no other. */
    method Tick(callbacks: map<int, seq<CallbackOp>>, horizon: int) returns (ghost touched: set<int>)
      requires Valid() && Spanned(Bottom(), due, periodic, initTick, now + 1, horizon)
      requires forall t :: t in callbacks ==> CallbackOk(callbacks[t], t, horizon, starting)
      modifies this`tick, this`now, this`rows, this`timeoutTick, this`active, this`randomNr, this`due, this`stamps,
          this`initTick, this`fired
      ensures Valid() && now == old(now) + 1 && touched <= Targets(callbacks)
      ensures |old(fired)| <= |fired| && fired[..|old(fired)|] == old(fired)
      ensures Progress(old(Bottom()), old(due), Bottom(), due, now, fired[|old(fired)|..], touched)
      ensures forall x :: x in old(Bottom()) && x !in touched ==>
        && old(x in due)
        && (FireTick(old(due)[x]) == now ==> Firing(x, now, old(due)[x]) in fired[|old(fired)|..])
        && (FireTick(old(due)[x]) != now ==> FireTick(old(due)[x]) > now && x in Bottom() && due[x] == old(due)[x])
      ensures var calls := fired[|old(fired)|..];
        Round(calls, Performed(calls, callbacks), old(Snap()), Snap(), periodic, now, stopping)
      ensures forall x :: x in Bottom() ==> x in due && due[x].deadline > now
      ensures old(rows[levels - 1]) == [] ==> Quiet()
    {
      hide Rows, Logged, Settings, FlagsAgree, Progress;
      WrapAdd(now, 1);
      tick := (tick + 1) % TICK_MOD;
      now := now + 1;
      touched := Check(callbacks, horizon);
      forall x | x in old(Bottom()) && x !in touched
        ensures old(x in due)
        ensures FireTick(old(due)[x]) == now ==> Firing(x, now, old(due)[x]) in fired[|old(fired)|..]
        ensures FireTick(old(due)[x]) != now ==> FireTick(old(due)[x]) > now && x in Bottom() && due[x] == old(due)[x]
      {
        assert old(Pending(due, timeoutTick, initTick, stamps, now, now, x));
        ProgressFires(old(Bottom()), old(due), Bottom(), due, now, fired[|old(fired)|..], touched, x);
      }
    }

    /** No queued timer is overdue by more than two ticks. After a tick this is so, and it stays so as long as no
        insertion comes later than that: the horizon is then no restriction at all, and a start without interruption
        keeps the list in order whatever its delay. */
    lemma Calm(t: int)
      requires Valid() && forall y :: y in Bottom() ==> y in due && due[y].deadline >= now - 2
      ensures Spanned(Bottom(), due, periodic, initTick, now + 1, HALF - 1)
      ensures Rows(WithoutAll(rows, t), due)
      ensures t in initTick ==> Searches(WithoutAll(rows, t), due, now + initTick[t])
    {
      hide Rows, Searches, Begun, Logged, FlagsAgree;
      assert Spanned(Bottom(), due, periodic, initTick, now, HALF - 1);
      var delay := if t in initTick then initTick[t] else 0;
      SpannedSearch(rows, due, timeoutTick, initTick, stamps, now, now, periodic, HALF - 1, t, delay);
    }

    // ---------------------------------------------------------------- whole runs

    /** The tick a timer will fire at, if it is queued. */
    ghost function Next(x: int): Option<int>
      reads this
      requires |rows| > 0
    {
      if x in Bottom() && x in due then Some(FireTick(due[x])) else None
    }

    /** Nothing queued is overdue. After every tick this is so. */
    ghost predicate Punctual()
      reads this
      requires |rows| > 0
    {
      forall y :: y in Bottom() ==> y in due && due[y].deadline >= now
    }

    ghost predicate Repeats(x: int)
      reads this
    {
      x in periodic && x in active
    }

    /** A tick, seen from a timer that no timeout function works on. */
    method TickFor(callbacks: map<int, seq<CallbackOp>>, ghost x: int)
      requires Valid() && Punctual() && x !in Targets(callbacks)
      requires forall t :: t in callbacks ==> CallbackOk(callbacks[t], t, HALF - 1, starting)
      modifies this`tick, this`now, this`rows, this`timeoutTick, this`active, this`randomNr, this`due, this`stamps,
          this`initTick, this`fired
      ensures Valid() && Punctual() && now == old(now) + 1
      ensures |old(fired)| <= |fired| && fired[..|old(fired)|] == old(fired)
      ensures Times(fired[|old(fired)|..], x) == if old(Next(x)) == Some(now) then [now] else []
      ensures old(Next(x)).Some? ==> x in initTick && old(x in initTick) && initTick[x] == old(initTick[x])
      ensures old(Next(x)).Some? ==> old(Next(x)).value >= now && (old(Repeats(x)) ==> initTick[x] >= 1)
      ensures Next(x) == if old(Next(x)) != Some(now) then old(Next(x))
                         else if old(Repeats(x)) then Some(now + initTick[x]) else None
      ensures Next(x).Some? ==> (Repeats(x) <==> old(Repeats(x)))
    {
      hide Rows, Queued, Begun, Logged, FlagsAgree, Progress, Round, Searches, Spanned, Performed, Targets;
      Calm(x);
      Known(x);
      ghost var was, due0, s0 := Bottom(), due, Snap();
      ghost var touched := Tick(callbacks, HALF - 1);
      ghost var calls := fired[|old(fired)|..];
      NotPerformed(calls, callbacks, x);
      CallsOf(was, due0, Bottom(), due, now, calls, touched, x);
      RoundOf(calls, Performed(calls, callbacks), s0, Snap(), periodic, now, stopping, x);
      Known(x);
    }

    lemma Known(x: int)
      requires Valid()
      ensures x in Bottom() ==> x in due && x in initTick && now < FireTick(due[x])
      ensures x in initTick && x in periodic ==> initTick[x] >= 1
    {
      assert x in Bottom() ==> Pending(due, timeoutTick, initTick, stamps, now, now, x);
    }

    /** rt_timer_control and rt_timer_start by a thread, without interruption: no list is out of order after that. */
    method StartTimer(u: int, delay: int)
      requires Valid() && Punctual() && u !in starting && 0 <= delay < HALF && (u in periodic ==> delay >= 1)
      modifies this`rows, this`timeoutTick, this`active, this`randomNr, this`due, this`stamps, this`initTick
      ensures Valid() && Punctual() && initTick == old(initTick)[u := delay] && active == old(active) + {u}
      ensures due == old(due)[u := Due(now + delay, old(stamps), now)]
      ensures forall x :: x in Bottom() <==> x in old(Bottom()) || x == u
    {
      hide Rows, Searches, Logged, Queued, SortedInsert, FlagsAgree;
      QueuedRetimed(Bottom(), due, timeoutTick, initTick, stamps, now, now, u, delay);
      SetTime(u, delay);
      Calm(u);
      StartAtOnce(u);
    }

    /** rt_timer_stop by a thread, without interruption. */
    method StopTimer(u: int)
      requires Valid() && Punctual()
      modifies this`rows, this`active
      ensures Valid() && Punctual() && active == old(active) - {u}
      ensures forall x :: x != u ==> (x in Bottom() <==> x in old(Bottom()))
      ensures u !in stopping ==> u !in Bottom()
    {
      hide Rows, Searches, Logged, Queued;
      var ok := Stop(u, now);
    }

    method RunOne(step: RunStep, ghost x: int)
      requires Valid() && Punctual() && LeavesAlone(step, x, starting, periodic)
      modifies this`tick, this`now, this`rows, this`timeoutTick, this`active, this`randomNr, this`due, this`stamps,
          this`initTick, this`fired
      ensures Valid() && Punctual() && now == old(now) + if step.Ticked? then 1 else 0
      ensures |old(fired)| <= |fired| && fired[..|old(fired)|] == old(fired)
      ensures Times(fired[|old(fired)|..], x) == if step.Ticked? && old(Next(x)) == Some(now) then [now] else []
      ensures old(Next(x)).Some? ==> x in initTick && old(x in initTick) && initTick[x] == old(initTick[x])
      ensures old(Next(x)).Some? ==> old(Next(x)).value >= now && (old(Repeats(x)) ==> initTick[x] >= 1)
      ensures Next(x) == if !step.Ticked? || old(Next(x)) != Some(now) then old(Next(x))
                         else if old(Repeats(x)) then Some(now + initTick[x]) else None
      ensures Next(x).Some? ==> (Repeats(x) <==> old(Repeats(x)))
    {
      hide Rows, Queued, Begun, Logged, FlagsAgree, Searches, Targets;
      Known(x);
      match step {
        case Ticked(callbacks) => TickFor(callbacks, x);
        case ThreadStart(u, delay) => StartTimer(u, delay);
        case ThreadStop(u) => StopTimer(u);
      }
      assert !step.Ticked? ==> fired[|old(fired)|..] == [];
    }

    /** Any number of ticks, with timeout functions that start and stop timers, and of starts and stops by threads in
        between. A timer that nobody else works on fires at its due tick and, if it is periodic, exactly every period
        after that; one that is not fires once; and one that is not queued never. */
    method Run(steps: seq<RunStep>, ghost x: int)
      requires Valid() && Punctual() && forall step :: step in steps ==> LeavesAlone(step, x, starting, periodic)
      modifies this`tick, this`now, this`rows, this`timeoutTick, this`active, this`randomNr, this`due, this`stamps,
          this`initTick, this`fired
      ensures Valid() && Punctual() && now == old(now) + TicksIn(steps)
      ensures |old(fired)| <= |fired| && fired[..|old(fired)|] == old(fired)
      ensures old(Next(x)).Some? ==> old(x in initTick)
      ensures OnSchedule(Times(fired[|old(fired)|..], x), old(Next(x)), old(Repeats(x)),
                         old(if x in initTick then initTick[x] else 0), now, Next(x))
      decreases |steps|
    {
      hide Core, Flags, Punctual, LeavesAlone, Next, Repeats;
      Shape0();
      if steps == [] {
        assert fired[|old(fired)|..] == [];
        Unfired(x);
        return;
      }
      ghost var first, repeats, period := Next(x), Repeats(x), if x in initTick then initTick[x] else 0;
      assert steps[0] in steps;
      RunOne(steps[0], x);
      Shape0();
      ghost var n1, fired1, next1, period1 := now, fired, Next(x), if x in initTick then initTick[x] else 0;
      ghost var repeats1 := Repeats(x);
      Run(steps[1..], x);
      Shape0();
      ghost var a, b := fired1[|old(fired)|..], fired[|fired1|..];
      LogSplit(old(fired), fired1, fired);
      TimesJoin(a, b, x);
      ScheduleOn(Times(a, x), Times(b, x), first, repeats, period, n1, steps[0].Ticked?, next1, repeats1, period1, now,
                 Next(x));
    }

    lemma Shape0()
      requires Valid()
      ensures |rows| == levels > 0
    {
    }

    lemma Unfired(x: int)
      requires Valid()
      ensures OnSchedule([], Next(x), Repeats(x), if x in initTick then initTick[x] else 0, now, Next(x))
      ensures Next(x).Some? ==> x in initTick
    {
      Known(x);
    }

    lemma InOrder()
      requires Valid()
      ensures Rows(rows, due) && |rows| == levels > 0
    {
    }

    lemma BottomSorted()
      requires |rows| > 0 && Rows(rows, due)
      ensures Sorted(Bottom(), due)
    {
    }

    /** When the first timer is in the future, so are all, and the check for this tick is over. */
    lemma CheckOver()
      requires Core(now - 1) && Sorted(Bottom(), due)
      requires Bottom() == [] || (Bottom()[0] in due && due[Bottom()[0]].deadline > now)
      ensures Core(now) && forall x :: x in Bottom() ==> x in due && due[x].deadline > now
    {
      hide Rows, Begun, Logged, Settings;
      forall x | x in Bottom()
        ensures Pending(due, timeoutTick, initTick, stamps, now, now, x)
        ensures due[x].deadline > now
      {
        assert Pending(due, timeoutTick, initTick, stamps, now, now - 1, x);
        var i :| 0 <= i < |Bottom()| && Bottom()[i] == x;
        assert i == 0 || Before(due[Bottom()[0]], due[Bottom()[i]]);
      }
    }
  }

  // ---------------------------------------------------------------- runs

  /** A tick, or a thread's start or stop of a timer. */
  datatype RunStep =
    | Ticked(callbacks: map<int, seq<CallbackOp>>)
    | ThreadStart(timer: int, delay: int)
    | ThreadStop(timer: int)

  /** The step does not work on timer x, and starts nothing that may not be started. */
  ghost predicate LeavesAlone(step: RunStep, x: int, starting: map<int, Stage>, periodic: set<int>) {
    match step
    case Ticked(callbacks) =>
      x !in Targets(callbacks) && forall t :: t in callbacks ==> CallbackOk(callbacks[t], t, HALF - 1, starting)
    case ThreadStart(u, delay) => u != x && u !in starting && 0 <= delay < HALF && (u in periodic ==> delay >= 1)
    case ThreadStop(u) => u != x
  }

  function TicksIn(steps: seq<RunStep>): nat {
    if steps == [] then 0 else (if steps[0].Ticked? then 1 else 0) + TicksIn(steps[1..])
  }

  /** The ticks at which x was called. */
  function Times(calls: seq<Firing>, x: int): seq<int> {
    if calls == [] then []
    else Times(calls[..|calls| - 1], x) + if calls[|calls| - 1].timer == x then [calls[|calls| - 1].at] else []
  }

  lemma LogSplit(f0: seq<Firing>, f1: seq<Firing>, f2: seq<Firing>)
    requires |f0| <= |f1| <= |f2| && f1[..|f0|] == f0 && f2[..|f1|] == f1
    ensures f2[..|f0|] == f0 && f2[|f0|..] == f1[|f0|..] + f2[|f1|..]
  {
    assert f2 == f1 + f2[|f1|..] && f1 == f0 + f1[|f0|..];
  }

  lemma {:induction false} TimesJoin(a: seq<Firing>, b: seq<Firing>, x: int)
    ensures Times(a + b, x) == Times(a, x) + Times(b, x)
    decreases |b|
  {
    if b == [] {
      assert a + b == a;
    } else {
      var m := |b| - 1;
      assert (a + b)[..|a + b| - 1] == a + b[..m];
      TimesJoin(a, b[..m], x);
    }
  }

  /** What a timer does that is due at tick `first`, if at all. */
  ghost predicate OnSchedule(times: seq<int>, first: Option<int>, repeats: bool, period: int, now: int,
                             next: Option<int>) {
    match first
    case None => times == [] && next == None
    case Some(d) =>
      if repeats then
        && next == Some(d + |times| * period) && now < d + |times| * period
        && forall i :: 0 <= i < |times| ==> times[i] == d + i * period <= now
      else if now < d then times == [] && next == first
      else times == [d] && next == None
  }

  /** One step and then the rest of the run. */
  lemma ScheduleOn(a: seq<int>, b: seq<int>, first: Option<int>, repeats: bool, period: int, now1: int, ticked: bool,
                   next1: Option<int>, repeats1: bool, period1: int, now2: int, next2: Option<int>)
    requires a == if ticked && first == Some(now1) then [now1] else []
    requires first.Some? ==> period1 == period && first.value >= now1 && (repeats ==> period >= 1)
    requires next1 == if !ticked || first != Some(now1) then first
                      else if repeats then Some(now1 + period) else None
    requires next1.Some? ==> (repeats1 <==> repeats)
    requires OnSchedule(b, next1, repeats1, period1, now2, next2) && now1 <= now2
    ensures OnSchedule(a + b, first, repeats, period, now2, next2)
  {
    if ticked && first == Some(now1) && repeats {
      var d := now1;
      assert d + period + |b| * period == d + |a + b| * period;
      forall i | 0 <= i < |a + b| ensures (a + b)[i] == d + i * period <= now2 {
        if i > 0 { assert (a + b)[i] == b[i - 1] == d + period + (i - 1) * period == d + i * period; }
      }
    } else {
      assert a == [] ==> a + b == b;
    }
  }

  lemma {:induction false} TimesOnce(calls: seq<Firing>, due: Dues, now: int, x: int)
    requires forall f :: f in calls ==> f.at == now && f.timer in due && f.due == due[f.timer]
    requires forall i, j :: 0 <= i < j < |calls| ==> Before(calls[i].due, calls[j].due)
    ensures Times(calls, x) == if Called(calls, x) then [now] else []
  {
    if calls != [] {
      var m := |calls| - 1;
      var front, last := calls[..m], calls[m];
      assert calls == front + [last];
      TimesOnce(front, due, now, x);
      CalledSnoc(front, last, x);
      forall f | f in front ensures f.timer != last.timer {
        var i :| 0 <= i < m && front[i] == f;
        assert Before(calls[i].due, calls[m].due);
      }
    }
  }

  /** A timer is called in a check exactly when it is due, once. */
  lemma CallsOf(was: seq<int>, due0: Dues, b: seq<int>, due: Dues, now: int, calls: seq<Firing>, touched: set<int>,
                x: int)
    requires Progress(was, due0, b, due, now, calls, touched) && x !in touched
    requires x in was ==> x in due0 && (FireTick(due0[x]) == now ==> Firing(x, now, due0[x]) in calls)
    ensures Called(calls, x) <==> x in was && FireTick(due0[x]) == now
    ensures Times(calls, x) == if Called(calls, x) then [now] else []
  {
    TimesOnce(calls, due0, now, x);
  }

  lemma RoundOf(calls: seq<Firing>, done: seq<CallbackOp>, s: Snapshot, s': Snapshot, periodic: set<int>, now: int,
                stopping: set<int>, x: int)
    requires Round(calls, done, s, s', periodic, now, stopping) && LastOn(done, x) == None
    ensures if Called(calls, x) then Renewed(s, s', periodic, now, x) else AsBefore(s, s', x)
  {
  }

  lemma {:induction false} NotPerformed(calls: seq<Firing>, callbacks: map<int, seq<CallbackOp>>, x: int)
    requires x !in Targets(callbacks)
    ensures LastOn(Performed(calls, callbacks), x) == None
  {
    if calls != [] {
      var m := |calls| - 1;
      NotPerformed(calls[..m], callbacks, x);
      var ops := OpsOf(callbacks, calls[m].timer);
      forall op | op in ops ensures op.timer != x { assert op.timer in Targets(callbacks); }
      LastOnOwn(ops, x);
      LastOnJoin(Performed(calls[..m], callbacks), ops, x);
    }
  }

  // ---------------------------------------------------------------- ticks inside rt_timer_start

  /** Timer 1 has been stamped at tick 0 with a delay of one, and a tick has passed since; timer 2 has the longest
      delay. */
  method OneTickIn() returns (c: TimerList)
    ensures fresh(c) && c.Valid() && c.levels == 1 && c.now == 1 && c.rows == [[]] && c.fired == [] && c.stamps == 0
    ensures c.starting == map[1 := Stamped] && 1 in c.stamped && c.stamped[1] == 1 && 2 in c.initTick
    ensures c.initTick[2] == HALF - 1
  {
    hide TimerList.Core, TimerList.Flags, Progress, Rows;
    c := new TimerList(1, 3);
    c.Create(1, 1, false);
    c.Create(2, HALF - 1, false);
    c.StartClear(1);
    c.StartStamp(1);
    c.QuietTick();
  }

  /** Stamped at tick 0 with a delay of one, inserted after one tick: the timer fires at tick 2. */
  method LateStart() returns (c: TimerList)
    ensures fresh(c) && c.Valid() && c.now == 2 && Firing(1, 2, Due(1, 0, 1)) in c.fired
    ensures forall f :: f in c.fired ==> f.at == 2
  {
    hide TimerList.Core, TimerList.Flags, Progress, Rows, Searches, Spanned;
    c := OneTickIn();
    c.InOrder();
    SearchesWithin(c.rows, c.due, 1);
    c.StartInsert(1);
    c.Calm(1);
    label before:
    ghost var touched := c.Tick(map[], HALF - 1);
    c.InOrder();
    AllAt(old@before(c.Bottom()), old@before(c.due), c.Bottom(), c.due, c.now, c.fired[0..], touched);
    assert c.fired[0..] == c.fired;
  }

  lemma AllAt(was: seq<int>, due0: Dues, b: seq<int>, due: Dues, now: int, calls: seq<Firing>, touched: set<int>)
    requires Progress(was, due0, b, due, now, calls, touched)
    ensures forall f :: f in calls ==> f.at == now
  {
  }

  /** The same start interrupted by two ticks, while another timer is started with the longest delay there is: the list
      is out of order. */
  method PreemptedStart() returns (c: TimerList)
    ensures fresh(c) && |c.rows| > 0 && !Rows(c.rows, c.due) && !c.Valid()
  {
    hide TimerList.Core, TimerList.Flags, Progress, Rows, Searches, Spanned;
    c := OneTickIn();
    c.QuietTick();
    c.Calm(2);
    c.StartAtOnce(2);
    c.InOrder();
    TooFar(c.rows, c.due, 1);
    c.StartInsert(1);
  }

  /** rt_timer_stop interrupted before it clears the flag, while the timer is started again: a queued timer without
      flag. */
  method FlagLost() returns (c: TimerList)
    ensures fresh(c) && |c.rows| > 0 && 2 in c.Bottom() && 2 !in c.active && !c.Valid()
  {
    hide TimerList.Core, TimerList.Flags, Rows, Searches, Spanned;
    c := OneTickIn();
    c.StopRemove(2);
    c.Calm(2);
    c.StartAtOnce(2);
    c.StopClear(2);
  }

  /** The expired timers that still wait for their call. */
  ghost function DueNow(bottom: seq<int>, due: Dues, now: int): set<int> {
    set x | x in bottom && x in due && due[x].deadline <= now
  }

  /** Who is not touched stays as it is; who is touched and queued is due later. */
  ghost predicate Spared(b: seq<int>, due: Dues, b': seq<int>, due': Dues, touched: set<int>, now: int) {
    && (forall x :: x in b && x !in touched ==> x in b' && x in due && x in due' && due'[x] == due[x])
    && (forall x :: x in b' && x !in touched ==> x in b)
    && (forall x :: x in b' && x in touched ==> x in due' && due'[x].deadline > now)
  }

  lemma SparedNone(b: seq<int>, due: Dues, now: int)
    requires forall x :: x in b ==> x in due
    ensures Spared(b, due, b, due, {}, now)
  {
  }

  lemma SparedStep(b: seq<int>, due: Dues, b1: seq<int>, due1: Dues, b2: seq<int>, due2: Dues, touched: set<int>,
                   more: set<int>, now: int)
    requires Spared(b, due, b1, due1, touched, now) && Spared(b1, due1, b2, due2, more, now)
    ensures Spared(b, due, b2, due2, touched + more, now)
  {
  }

  /** One round of the check took t off the list; callbacks only touched the timers in `more`. */
  ghost predicate Fired(b: seq<int>, due: Dues, b': seq<int>, due': Dues, now: int, t: int, more: set<int>) {
    && (t in b' ==> t in due' && due'[t].deadline > now)
    && (forall x :: x in b && x !in more && x != t ==> x in b' && x in due && x in due' && due'[x] == due[x])
    && (forall x :: x in b' && x !in more && x != t ==> x in b)
    && (forall x :: x in b' && x in more ==> x in due' && due'[x].deadline > now)
  }

  /** How far a check has come. What it found queued in `was` is called, still queued, or was touched
      by a callback; the calls are in order and ahead of everything still queued. */
  ghost predicate Progress(was: seq<int>, due0: Dues, b: seq<int>, due: Dues, now: int, calls: seq<Firing>,
                           touched: set<int>) {
    && (forall x :: x in b ==> x in due && (due[x].deadline > now || (x in was && x in due0 && due[x] == due0[x])))
    && (forall x :: x in was ==> x in due0)
    && (forall x :: x in was && x !in touched && due0[x].deadline > now ==> x in b && x in due && due[x] == due0[x])
    && (forall x :: x in was && x !in touched && due0[x].deadline <= now ==>
          (x in b && due[x] == due0[x]) || Firing(x, now, due0[x]) in calls)
    && (forall f :: f in calls ==>
          && f.at == now == FireTick(f.due) && f.timer in was
          && f.due == due0[f.timer] && f.due.deadline <= now)
    && (forall i, j :: 0 <= i < j < |calls| ==> Before(calls[i].due, calls[j].due))
    && (forall f, x :: f in calls && x in b ==> Before(f.due, due[x]))
  }

  lemma NoProgress(was: seq<int>, due0: Dues, now: int)
    requires forall x :: x in was ==> x in due0
    ensures Progress(was, due0, was, due0, now, [], {})
  {
  }

  lemma ProgressStep(was: seq<int>, due0: Dues, b: seq<int>, due: Dues, b': seq<int>, due': Dues, now: int,
                     calls: seq<Firing>, touched: set<int>, t: int, more: set<int>)
    requires Progress(was, due0, b, due, now, calls, touched)
    requires Sorted(b, due) && b != [] && b[0] == t && t in due && due[t].deadline <= now && FireTick(due[t]) == now
    requires Fired(b, due, b', due', now, t, more)
    ensures Progress(was, due0, b', due', now, calls + [Firing(t, now, due[t])], touched + more)
  {
    assert t in b;
    forall x | x in b' ensures Before(due[t], due'[x]) {
      if due'[x].deadline <= now {
        var i :| 0 <= i < |b| && b[i] == x;
      }
    }
  }

  /** The measure of the check loop: the set of expired timers shrinks with every round. */
  lemma DueShrinks(b: seq<int>, due: Dues, b': seq<int>, due': Dues, now: int, t: int, more: set<int>)
    requires t in b && t in due && due[t].deadline <= now && Fired(b, due, b', due', now, t, more)
    ensures DueNow(b', due', now) < DueNow(b, due, now)
  {
    forall x | x in DueNow(b', due', now) ensures x in DueNow(b, due, now) {
    }
    assert t in DueNow(b, due, now) && t !in DueNow(b', due', now);
  }

  /** The constraint on timeout functions: they do not restart their own timer nor one that a thread is starting, and
      what they start has a delay up to the horizon. */
  predicate CallbackOk(ops: seq<CallbackOp>, t: int, horizon: int, starting: map<int, Stage>) {
    forall op :: op in ops && op.CbStart? ==> op.timer != t && 1 <= op.delay <= horizon && op.timer !in starting
  }

  datatype CallbackOp = CbStart(timer: int, delay: int) | CbStop(timer: int)

  // ---------------------------------------------------------------- what a check does to every timer

  /** The timers at some moment: who is queued, the due dates, the flags and the delays. */
  datatype Snapshot = Snapshot(queued: seq<int>, due: Dues, active: set<int>, initTick: map<int, int>)

  /** The last operation on the timer. */
  function LastOn(ops: seq<CallbackOp>, x: int): Option<CallbackOp> {
    if ops == [] then None
    else if ops[|ops| - 1].timer == x then Some(ops[|ops| - 1])
    else LastOn(ops[..|ops| - 1], x)
  }

  lemma LastOnSnoc(ops: seq<CallbackOp>, op: CallbackOp, x: int)
    ensures LastOn(ops + [op], x) == if op.timer == x then Some(op) else LastOn(ops, x)
  {
    assert (ops + [op])[..|ops|] == ops;
  }

  lemma {:induction false} LastOnJoin(a: seq<CallbackOp>, b: seq<CallbackOp>, x: int)
    ensures LastOn(a + b, x) == if LastOn(b, x).Some? then LastOn(b, x) else LastOn(a, x)
    decreases |b|
  {
    if b == [] {
      assert a + b == a;
    } else {
      var m := |b| - 1;
      assert b == b[..m] + [b[m]] && a + b == (a + b[..m]) + [b[m]];
      LastOnJoin(a, b[..m], x);
      LastOnSnoc(a + b[..m], b[m], x);
      LastOnSnoc(b[..m], b[m], x);
    }
  }

  lemma {:induction false} LastOnOwn(ops: seq<CallbackOp>, x: int)
    ensures LastOn(ops, x).Some? ==> LastOn(ops, x).value in ops && LastOn(ops, x).value.timer == x
    ensures LastOn(ops, x).None? <==> forall op :: op in ops ==> op.timer != x
  {
    if ops != [] {
      var m := |ops| - 1;
      LastOnOwn(ops[..m], x);
      assert ops == ops[..m] + [ops[m]];
    }
  }

  /** Timer x is as it was. */
  ghost predicate AsBefore(s: Snapshot, s': Snapshot, x: int) {
    && (x in s'.queued <==> x in s.queued) && (x in s'.active <==> x in s.active)
    && (x in s.initTick <==> x in s'.initTick) && (x in s.initTick ==> s'.initTick[x] == s.initTick[x])
    && (x in s.queued ==> x in s.due && x in s'.due && s'.due[x] == s.due[x])
  }

  /** What an operation of a timeout function leaves of its timer: queued for its delay from now, or off the list,
      unless its flag may be wrong. */
  ghost predicate Obeyed(op: CallbackOp, s: Snapshot, now: int, stopping: set<int>, x: int) {
    match op
    case CbStart(u, delay) =>
      && x in s.queued && x in s.active && x in s.initTick && s.initTick[x] == delay
      && x in s.due && s.due[x].deadline == now + delay && s.due[x].start == now
    case CbStop(u) => x !in s.active && (x !in stopping ==> x !in s.queued)
  }

  /** One operation, on its own timer and no other. */
  ghost predicate Applied(op: CallbackOp, s: Snapshot, s': Snapshot, now: int, stopping: set<int>) {
    Obeyed(op, s', now, stopping, op.timer) && forall x :: x != op.timer ==> AsBefore(s, s', x)
  }

  /** A sequence of operations: each timer is as the last operation on it left it. */
  ghost predicate Settles(ops: seq<CallbackOp>, s: Snapshot, s': Snapshot, now: int, stopping: set<int>) {
    forall x :: match LastOn(ops, x)
      case Some(op) => Obeyed(op, s', now, stopping, x)
      case None => AsBefore(s, s', x)
  }

  lemma SettlesNone(s: Snapshot, now: int, stopping: set<int>)
    requires forall x :: x in s.queued ==> x in s.due
    ensures Settles([], s, s, now, stopping)
  {
  }

  lemma SettlesStep(ops: seq<CallbackOp>, op: CallbackOp, s: Snapshot, s1: Snapshot, s2: Snapshot, now: int,
                    stopping: set<int>)
    requires Settles(ops, s, s1, now, stopping) && Applied(op, s1, s2, now, stopping)
    ensures Settles(ops + [op], s, s2, now, stopping)
  {
    forall x
      ensures match LastOn(ops + [op], x)
        case Some(o) => Obeyed(o, s2, now, stopping, x)
        case None => AsBefore(s, s2, x)
    {
      LastOnSnoc(ops, op, x);
      if x != op.timer { assert AsBefore(s1, s2, x); }
    }
  }

  ghost predicate Called(calls: seq<Firing>, x: int) {
    exists f :: f in calls && f.timer == x
  }

  /** A called timer that no timeout function touched: queued for a period from now exactly if it is periodic and was
      active, switched off otherwise. */
  ghost predicate Renewed(s: Snapshot, s': Snapshot, periodic: set<int>, now: int, x: int) {
    && (x in s'.queued <==> x in periodic && x in s.active) && (x in s'.active <==> x in s'.queued)
    && x in s.initTick && x in s'.initTick && s'.initTick[x] == s.initTick[x]
    && (x in s'.queued ==> x in s'.due && s'.due[x].deadline == now + s'.initTick[x] && s'.due[x].start == now)
  }

  /** What the calls and the operations of their timeout functions made of every timer. */
  ghost predicate Round(calls: seq<Firing>, done: seq<CallbackOp>, s: Snapshot, s': Snapshot, periodic: set<int>,
                        now: int, stopping: set<int>) {
    forall x :: match LastOn(done, x)
      case Some(op) => Obeyed(op, s', now, stopping, x)
      case None => if Called(calls, x) then Renewed(s, s', periodic, now, x) else AsBefore(s, s', x)
  }

  /** All operations of the called timeout functions, in the order of the calls. */
  function Performed(calls: seq<Firing>, callbacks: map<int, seq<CallbackOp>>): seq<CallbackOp> {
    if calls == [] then []
    else Performed(calls[..|calls| - 1], callbacks) + OpsOf(callbacks, calls[|calls| - 1].timer)
  }

  function OpsOf(callbacks: map<int, seq<CallbackOp>>, t: int): seq<CallbackOp> {
    if t in callbacks then callbacks[t] else []
  }

  predicate Delayed(ops: seq<CallbackOp>) {
    forall op :: op in ops && op.CbStart? ==> op.delay >= 1
  }

  lemma NoRound(s: Snapshot, callbacks: map<int, seq<CallbackOp>>, periodic: set<int>, now: int, stopping: set<int>)
    requires forall x :: x in s.queued ==> x in s.due
    ensures Round([], Performed([], callbacks), s, s, periodic, now, stopping) && Delayed(Performed([], callbacks))
  {
  }

  /** Taken off the list, called, and started again or switched off: one round. */
  lemma OneRound(t: int, ops: seq<CallbackOp>, s0: Snapshot, s1: Snapshot, s2: Snapshot, s3: Snapshot,
                 periodic: set<int>, now: int, stopping: set<int>, d: Due)
    requires t in s0.initTick && s1.due == s0.due && s1.active == s0.active && s1.initTick == s0.initTick
    requires forall x :: x in s1.queued <==> x in s0.queued && x != t
    requires forall x :: x in s0.queued ==> x in s0.due
    requires Settles(ops, s1, s2, now, stopping)
    requires forall op :: op in ops && op.CbStart? ==> op.timer != t
    requires t in s3.queued <==> t in periodic && t in s2.active
    requires t in s3.queued ==>
      && t in s3.due && t in s3.initTick && s3.due[t].deadline == now + s3.initTick[t] && s3.due[t].start == now
    requires s3.active == (if t in s3.queued then s2.active else s2.active - {t}) && s3.initTick == s2.initTick
    requires forall x :: x != t ==> (x in s3.queued <==> x in s2.queued)
    requires forall x :: x != t && x in s2.due ==> x in s3.due && s3.due[x] == s2.due[x]
    ensures Round([Firing(t, now, d)], ops, s0, s3, periodic, now, stopping)
  {
    var calls := [Firing(t, now, d)];
    assert calls[0] in calls;
    forall x
      ensures match LastOn(ops, x)
        case Some(op) => Obeyed(op, s3, now, stopping, x)
        case None => if Called(calls, x) then Renewed(s0, s3, periodic, now, x) else AsBefore(s0, s3, x)
    {
      LastOnOwn(ops, x);
      assert Called(calls, x) <==> x == t;
      match LastOn(ops, x)
      case Some(op) => assert Obeyed(op, s2, now, stopping, x);
      case None => assert AsBefore(s1, s2, x);
    }
  }

  /** Rounds compose: a timer that is called was not touched in this check before. */
  lemma NextRound(calls: seq<Firing>, callbacks: map<int, seq<CallbackOp>>, s: Snapshot, s1: Snapshot, s2: Snapshot,
                  periodic: set<int>, now: int, stopping: set<int>, f: Firing)
    requires Round(calls, Performed(calls, callbacks), s, s1, periodic, now, stopping)
    requires Delayed(Performed(calls, callbacks)) && Delayed(OpsOf(callbacks, f.timer))
    requires Round([f], OpsOf(callbacks, f.timer), s1, s2, periodic, now, stopping)
    requires f.timer in s1.queued && f.timer in s1.due && s1.due[f.timer].deadline <= now
    requires f.timer in s1.initTick && (f.timer in periodic ==> s1.initTick[f.timer] >= 1)
    ensures Round(calls + [f], Performed(calls + [f], callbacks), s, s2, periodic, now, stopping)
    ensures Delayed(Performed(calls + [f], callbacks))
  {
    var done, ops := Performed(calls, callbacks), OpsOf(callbacks, f.timer);
    assert (calls + [f])[..|calls|] == calls;
    assert Performed(calls + [f], callbacks) == done + ops;
    forall x
      ensures match LastOn(done + ops, x)
        case Some(op) => Obeyed(op, s2, now, stopping, x)
        case None => if Called(calls + [f], x) then Renewed(s, s2, periodic, now, x) else AsBefore(s, s2, x)
    {
      LastOnJoin(done, ops, x);
      LastOnOwn(done, x);
      CalledSnoc(calls, f, x);
      CalledSnoc([], f, x);
      assert [] + [f] == [f];
    }
  }

  /** How far a check has come, in both respects. */
  ghost predicate Checked(s: Snapshot, s': Snapshot, calls: seq<Firing>, callbacks: map<int, seq<CallbackOp>>,
                          touched: set<int>, periodic: set<int>, now: int, stopping: set<int>) {
    && Progress(s.queued, s.due, s'.queued, s'.due, now, calls, touched)
    && Round(calls, Performed(calls, callbacks), s, s', periodic, now, stopping)
    && Delayed(Performed(calls, callbacks))
  }

  lemma WhatIsChecked(s: Snapshot, s': Snapshot, calls: seq<Firing>, callbacks: map<int, seq<CallbackOp>>,
                      touched: set<int>, periodic: set<int>, now: int, stopping: set<int>)
    requires Checked(s, s', calls, callbacks, touched, periodic, now, stopping)
    ensures Progress(s.queued, s.due, s'.queued, s'.due, now, calls, touched)
    ensures Round(calls, Performed(calls, callbacks), s, s', periodic, now, stopping)
  {
  }

  lemma NoneChecked(s: Snapshot, callbacks: map<int, seq<CallbackOp>>, periodic: set<int>, now: int,
                    stopping: set<int>)
    requires forall x :: x in s.queued ==> x in s.due
    ensures Checked(s, s, [], callbacks, {}, periodic, now, stopping)
  {
    NoProgress(s.queued, s.due, now);
    NoRound(s, callbacks, periodic, now, stopping);
  }

  lemma OneChecked(s: Snapshot, s1: Snapshot, s2: Snapshot, calls: seq<Firing>, callbacks: map<int, seq<CallbackOp>>,
                   touched: set<int>, periodic: set<int>, now: int, stopping: set<int>, t: int, more: set<int>)
    requires Checked(s, s1, calls, callbacks, touched, periodic, now, stopping) && Delayed(OpsOf(callbacks, t))
    requires Sorted(s1.queued, s1.due) && s1.queued != [] && s1.queued[0] == t
    requires t in s1.due && s1.due[t].deadline <= now && FireTick(s1.due[t]) == now
    requires t in s1.initTick && (t in periodic ==> s1.initTick[t] >= 1)
    requires Fired(s1.queued, s1.due, s2.queued, s2.due, now, t, more)
    requires Round([Firing(t, now, s1.due[t])], OpsOf(callbacks, t), s1, s2, periodic, now, stopping)
    ensures Checked(s, s2, calls + [Firing(t, now, s1.due[t])], callbacks, touched + more, periodic, now, stopping)
  {
    hide Round, Progress, Fired, Performed;
    assert t in s1.queued;
    ProgressStep(s.queued, s.due, s1.queued, s1.due, s2.queued, s2.due, now, calls, touched, t, more);
    NextRound(calls, callbacks, s, s1, s2, periodic, now, stopping, Firing(t, now, s1.due[t]));
  }

  lemma CalledSnoc(calls: seq<Firing>, f: Firing, x: int)
    ensures Called(calls + [f], x) <==> Called(calls, x) || x == f.timer
  {
    assert f in calls + [f];
    if Called(calls, x) {
      var g :| g in calls && g.timer == x;
      assert g in calls + [f];
    }
  }

  /** The timers the timeout functions work on. */
  ghost function Targets(callbacks: map<int, seq<CallbackOp>>): set<int> {
    set t, op | t in callbacks && op in callbacks[t] :: op.timer
  }
}
