/** Time slicing among the threads of the most urgent ready list, as a function of time. */
module RoundRobin {

  /** The ready list of one priority and everybody's remaining ticks. */
  datatype Slices = Slices(list: seq<int>, remaining: map<int, nat>)

  type Quanta = map<int, nat>   // init_tick

  ghost predicate Fair(s: Slices, init: Quanta) {
    && s.list != []
    && (forall i, j :: 0 <= i < j < |s.list| ==> s.list[i] != s.list[j])
    && (forall i :: 0 <= i < |s.list| ==>
        s.list[i] in init && s.list[i] in s.remaining && 1 <= s.remaining[s.list[i]] <= init[s.list[i]])
  }

  /** One tick: the running head loses a tick; out of ticks it is refilled and goes to the end. */
  function Tick(s: Slices, init: Quanta): (r: Slices)
    requires s.list != [] && s.list[0] in s.remaining && s.list[0] in init
  {
    var t := s.list[0];
    if s.remaining[t] <= 1 then Slices(s.list[1..] + [t], s.remaining[t := init[t]])
    else Slices(s.list, s.remaining[t := s.remaining[t] - 1])
  }

  /** Every thread keeps between one tick and its full slice. */
  lemma TickFair(s: Slices, init: Quanta)
    requires Fair(s, init)
    ensures Fair(Tick(s, init), init)
  {
    var t := s.list[0];
    assert t in init && 1 <= s.remaining[t] <= init[t];
  }

  function Ticks(s: Slices, init: Quanta, n: nat): (r: Slices)
    requires Fair(s, init)
    ensures Fair(r, init)
    decreases n
  {
    if n == 0 then s
    else
      TickFair(s, init);
      Ticks(Tick(s, init), init, n - 1)
  }

  lemma {:induction false} TicksAdd(s: Slices, init: Quanta, m: nat, n: nat)
    requires Fair(s, init)
    ensures Ticks(s, init, m + n) == Ticks(Ticks(s, init, m), init, n)
    decreases m
  {
    if m > 0 {
      TickFair(s, init);
      TicksAdd(Tick(s, init), init, m - 1, n);
    }
  }

  /** The ticks that the threads in front of position i still have. */
  function Ahead(s: Slices, i: nat): nat
    requires i <= |s.list| && forall k :: 0 <= k < |s.list| ==> s.list[k] in s.remaining
  {
    if i == 0 then 0 else Ahead(s, i - 1) + s.remaining[s.list[i - 1]]
  }

  /** While its ticks last, the head stays the head. */
  lemma {:induction false} HeadRuns(s: Slices, init: Quanta, m: nat)
    requires Fair(s, init) && m < s.remaining[s.list[0]]
    ensures Ticks(s, init, m) == Slices(s.list, s.remaining[s.list[0] := s.remaining[s.list[0]] - m])
    decreases m
  {
    if m == 0 {
      assert s.remaining[s.list[0] := s.remaining[s.list[0]]] == s.remaining;
    } else {
      TickFair(s, init);
      HeadRuns(Tick(s, init), init, m - 1);
    }
  }

  function Rotated(s: Slices, init: Quanta): Slices
    requires s.list != [] && s.list[0] in init
  {
    Slices(s.list[1..] + [s.list[0]], s.remaining[s.list[0] := init[s.list[0]]])
  }

  lemma HeadDone(s: Slices, init: Quanta)
    requires Fair(s, init)
    ensures Ticks(s, init, s.remaining[s.list[0]]) == Rotated(s, init) && Fair(Rotated(s, init), init)
  {
    var n := s.remaining[s.list[0]];
    HeadRuns(s, init, n - 1);
    TicksAdd(s, init, n - 1, 1);
    var last := Ticks(s, init, n - 1);
    TickFair(last, init);
    assert Ticks(last, init, 1) == Tick(last, init);
    assert last.remaining[s.list[0] := init[s.list[0]]] == s.remaining[s.list[0] := init[s.list[0]]];
  }

  lemma {:induction false} AheadRotated(s: Slices, init: Quanta, i: nat)
    requires Fair(s, init) && Fair(Rotated(s, init), init) && 0 < i < |s.list|
    ensures Ahead(s, i) == s.remaining[s.list[0]] + Ahead(Rotated(s, init), i - 1)
  {
    if i > 1 {
      AheadRotated(s, init, i - 1);
      assert Rotated(s, init).list[i - 2] == s.list[i - 1] != s.list[0];
    } else {
      assert Ahead(s, 1) == Ahead(s, 0) + s.remaining[s.list[0]];
    }
  }

  /** After m ticks it is the turn of a thread in front of position i. */
  ghost predicate Waits(s: Slices, init: Quanta, i: nat, m: nat)
    requires Fair(s, init) && i < |s.list|
  {
    Ticks(s, init, m).list != [] && Ticks(s, init, m).list[0] in s.list[..i] && Ticks(s, init, m).list[0] != s.list[i]
  }

  lemma RotatedAround(s: Slices, init: Quanta, i: nat)
    requires Fair(s, init) && 0 < i < |s.list|
    ensures var r := Rotated(s, init).list; r[i - 1..] + r[..i - 1] == s.list[i..] + s.list[..i]
  {
  }

  lemma RunsFirst(s: Slices, init: Quanta, i: nat, m: nat)
    requires Fair(s, init) && 0 < i < |s.list| && m < s.remaining[s.list[0]]
    ensures Waits(s, init, i, m)
  {
    HeadRuns(s, init, m);
    assert s.list[..i][0] == s.list[0];
  }

  lemma WaitsOn(s: Slices, init: Quanta, i: nat, m: nat)
    requires Fair(s, init) && 0 < i < |s.list| && m >= s.remaining[s.list[0]]
    requires var r := Rotated(s, init);
      && Fair(r, init) && |r.list| == |s.list|
      && Waits(r, init, i - 1, m - s.remaining[s.list[0]])
    ensures Waits(s, init, i, m)
  {
    var n, r := s.remaining[s.list[0]], Rotated(s, init);
    HeadDone(s, init);
    TicksAdd(s, init, n, m - n);
    assert r.list[..i - 1] == s.list[..i][1..] && r.list[i - 1] == s.list[i];
  }

  /** Round robin: the thread at position i becomes the head after exactly the remaining ticks of the
      threads in front of it, the list by then rotated up to it, and at no earlier tick. */
  lemma {:induction false} TurnComes(s: Slices, init: Quanta, i: nat)
    requires Fair(s, init) && i < |s.list|
    ensures Ticks(s, init, Ahead(s, i)).list == s.list[i..] + s.list[..i]
    ensures forall m: nat :: m < Ahead(s, i) ==> Waits(s, init, i, m)
    decreases i
  {
    if i == 0 {
      assert s.list[0..] + s.list[..0] == s.list;
    } else {
      var (n, r) := (s.remaining[s.list[0]], Rotated(s, init));
      HeadDone(s, init);
      AheadRotated(s, init, i);
      TurnComes(r, init, i - 1);
      TicksAdd(s, init, n, Ahead(r, i - 1));
      RotatedAround(s, init, i);
      hide Ticks, Ahead, Waits, Fair, Rotated;
      forall m: nat | m < Ahead(s, i) ensures Waits(s, init, i, m) {
        if m < n { RunsFirst(s, init, i, m); } else { WaitsOn(s, init, i, m); }
      }
    }
  }
}
