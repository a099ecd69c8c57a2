/** The event object of ipc.c: 32 flags, threads waiting for all or any of a set, optionally clearing
    what they receive. Each method is one critical section; every sequence of calls is an interleaving. */
module Event {
  import opened ChainList
  import IpcList

  /** event_set and event_info of a waiting thread: RT_EVENT_FLAG_AND or _OR, and _CLEAR. */
  datatype Want = Want(bits: bv32, all: bool, clear: bool)

  datatype Op = Waiting(want: Want) | Received(bits: bv32) | Failed
  type Ops = map<int, Op>

  datatype Status = Done(bits: bv32) | Blocked | TimedOut | Error

  // The three operations on flag words, named so that proofs can use their laws instead of their bits.
  function And(a: bv32, b: bv32): bv32 { a & b }
  function Without(a: bv32, b: bv32): bv32 { a & !b }
  predicate Within(a: bv32, b: bv32) { a & b == a }

  predicate Satisfied(w: Want, flags: bv32) {
    if w.all then And(w.bits, flags) == w.bits else And(w.bits, flags) != 0
  }

  /** The reference, as a receiving call has it: what it gets and what it leaves, for a satisfied want. */
  function Bits(w: Want, flags: bv32): bv32 {
    And(flags, w.bits)
  }

  function Left(w: Want, flags: bv32): bv32 {
    if w.clear then Without(flags, w.bits) else flags
  }

  /** The waiters, asking one by one in list order as if each called rt_event_recv: who still waits, what
      the others got, and the flags in the end. */
  datatype Outcome = Outcome(waiters: seq<int>, ops: Ops, flags: bv32)

  function AskAll(list: seq<int>, ops: Ops, flags: bv32): Outcome
    requires AllWaiting(list, ops)
    decreases |list|
  {
    if list == [] then Outcome([], ops, flags)
    else
      var (t, rest) := (list[0], list[1..]);
      var w := ops[t].want;
      if Satisfied(w, flags) then
        AskAll(rest, ops[t := Received(Bits(w, flags))], Left(w, flags))
      else
        var o := AskAll(rest, ops, flags);
        o.(waiters := [t] + o.waiters)
  }

  lemma AndComm(a: bv32, b: bv32)
    ensures And(a, b) == And(b, a)
  {
  }

  lemma WithoutMet(a: bv32, b: bv32)
    ensures Without(b, And(a, b)) == Without(b, a)
  {
  }

  lemma AllOfFewer(a: bv32, b: bv32, c: bv32)
    requires Within(c, b) && And(a, c) == a
    ensures And(a, b) == a
  {
  }

  lemma AnyOfFewer(a: bv32, b: bv32, c: bv32)
    requires Within(c, b) && And(a, c) != 0
    ensures And(a, b) != 0
  {
  }

  lemma WithinLaws(a: bv32, m: bv32)
    ensures Within(Without(a, m), a) && Within(a, a)
  {
  }

  lemma WithinTrans(a: bv32, b: bv32, c: bv32)
    requires Within(a, b) && Within(b, c)
    ensures Within(a, c)
  {
  }

  lemma Words(a: bv32, b: bv32)
    ensures And(a, b) == a & b == b & a && Without(a, b) == a & !b
  {
  }

  /** What being satisfied, receiving and clearing mean for the flag words. */
  lemma Meaning(w: Want, flags: bv32)
    ensures Satisfied(w, flags) <==>
      (w.all && w.bits & flags == w.bits) || (!w.all && w.bits & flags != 0)
    ensures Bits(w, flags) == w.bits & flags && Left(w, flags) == if w.clear then flags & !w.bits else flags
  {
    hide And, Without;
    Words(w.bits, flags);
    Words(flags, w.bits);
  }

  /** What the sending side computes for a satisfied waiter agrees with what the receiving side would. */
  lemma SendIsReceive(w: Want, flags: bv32)
    requires Satisfied(w, flags)
    ensures var got := if w.all then w.bits else And(w.bits, flags);
      got == Bits(w, flags) && (if w.clear then Without(flags, got) else flags) == Left(w, flags)
  {
    hide And, Without, Within;
    AndComm(w.bits, flags);
    WithoutMet(w.bits, flags);
  }

  /** Taking flags away never satisfies anybody. */
  lemma FewerFlags(w: Want, flags: bv32, fewer: bv32)
    requires Within(fewer, flags) && Satisfied(w, fewer)
    ensures Satisfied(w, flags)
  {
    hide And, Without, Within;
    if w.all { AllOfFewer(w.bits, flags, fewer); } else { AnyOfFewer(w.bits, flags, fewer); }
  }

  /** Everybody in the list is waiting. */
  ghost predicate AllWaiting(list: seq<int>, ops: Ops) {
    NoDup(list) && forall i :: 0 <= i < |list| ==> list[i] in ops && ops[list[i]].Waiting?
  }

  /** What asking everybody leaves: the survivors are waiters of the list, still waiting, unsatisfied
      even by the final flags; nobody outside the list changed; flags only went away. */
  ghost predicate Settled(list: seq<int>, ops: Ops, flags: bv32, o: Outcome) {
    && Within(o.flags, flags)
    && NoDup(o.waiters) && (forall t :: t in o.waiters ==> t in list)
    && (forall t :: t in o.waiters ==>
        t in ops && ops[t].Waiting? && t in o.ops && o.ops[t] == ops[t] && !Satisfied(ops[t].want, o.flags))
    && (forall t :: t in list && t !in o.waiters ==> t in o.ops && o.ops[t].Received?)
    && (forall t :: t !in list ==> (t in o.ops <==> t in ops) && (t in ops ==> o.ops[t] == ops[t]))
  }

  /** A waiter was satisfied by the flags f that were left at its turn, got its bits and cleared them if it wanted
      to. */
  ghost predicate Served(w: Want, f: bv32, got: bv32, first: bv32, last: bv32) {
    Within(f, first) && Satisfied(w, f) && got == Bits(w, f) && Within(last, Left(w, f))
  }

  lemma ServedEarlier(w: Want, f: bv32, got: bv32, mid: bv32, first: bv32, last: bv32)
    requires Served(w, f, got, mid, last) && Within(mid, first)
    ensures Served(w, f, got, first, last)
  {
    hide And, Without, Within, Satisfied, Bits, Left;
    WithinTrans(f, mid, first);
  }

  lemma PartOf(b: bv32, f: bv32, first: bv32)
    requires Within(f, first)
    ensures Within(And(f, b), b) && Within(And(f, b), first) && And(f, b) == And(b, f)
  {
  }

  lemma Gone(b: bv32, f: bv32, last: bv32)
    requires Within(last, Without(f, b))
    ensures And(b, last) == 0
  {
  }

  /** What that means for what it got and what is left. */
  lemma ServedMeans(w: Want, f: bv32, got: bv32, first: bv32, last: bv32)
    requires Served(w, f, got, first, last)
    ensures (if w.all then got == w.bits else got != 0) && Within(got, w.bits) && Within(got, first)
    ensures w.clear ==> And(w.bits, last) == 0
  {
    hide And, Without, Within;
    PartOf(w.bits, f, first);
    if w.clear { Gone(w.bits, f, last); }
  }

  /** The same on the flag words themselves. */
  ghost predicate Answered(w: Want, got: bv32, first: bv32, last: bv32) {
    && (if w.all then got == w.bits else got != 0) && got & w.bits == got && got & first == got
    && (w.clear ==> w.bits & last == 0)
  }

  /** A waiter that is left asleep: all its flags are not there, or none of them is. */
  ghost predicate Unanswered(w: Want, flags: bv32) {
    if w.all then w.bits & flags != w.bits else w.bits & flags == 0
  }

  lemma MeansAnswered(w: Want, f: bv32, got: bv32, first: bv32, last: bv32)
    requires Served(w, f, got, first, last)
    ensures Answered(w, got, first, last)
  {
    hide Served, And;
    ServedMeans(w, f, got, first, last);
    Words(w.bits, last);
  }

  lemma MeansUnanswered(w: Want, flags: bv32)
    ensures Unanswered(w, flags) <==> !Satisfied(w, flags)
  {
    hide And;
    Words(w.bits, flags);
  }

  /** Every waiter that left the list was served at its turn. */
  ghost predicate AllServed(list: seq<int>, ops: Ops, flags: bv32, o: Outcome)
    requires AllWaiting(list, ops)
  {
    forall i :: 0 <= i < |list| && list[i] !in o.waiters ==>
      && list[i] in o.ops && o.ops[list[i]].Received?
      && exists f :: Served(ops[list[i]].want, f, o.ops[list[i]].bits, flags, o.flags)
  }

  lemma {:induction false} AskAllServes(list: seq<int>, ops: Ops, flags: bv32)
    requires AllWaiting(list, ops)
    ensures AllServed(list, ops, flags, AskAll(list, ops, flags))
    decreases |list|
  {
    hide And, Without, Within, Satisfied, Bits, Left, Served;
    if list != [] {
      var (t, rest) := (list[0], list[1..]);
      var w := ops[t].want;
      IpcList.TailMembers(list);
      if Satisfied(w, flags) {
        var ops' := ops[t := Received(Bits(w, flags))];
        assert AllWaiting(rest, ops');
        AskAllServes(rest, ops', Left(w, flags));
        AskAllSettles(rest, ops', Left(w, flags));
        ServedFirst(list, ops, flags, AskAll(rest, ops', Left(w, flags)));
      } else {
        assert AllWaiting(rest, ops);
        AskAllServes(rest, ops, flags);
        ServedLater(list, ops, flags, AskAll(rest, ops, flags));
      }
    }
  }

  lemma ServedFirst(list: seq<int>, ops: Ops, flags: bv32, o: Outcome)
    requires AllWaiting(list, ops) && list != [] && Satisfied(ops[list[0]].want, flags)
    requires var w := ops[list[0]].want;
      var ops' := ops[list[0] := Received(Bits(w, flags))];
      && AllWaiting(list[1..], ops') && AllServed(list[1..], ops', Left(w, flags), o) && Within(o.flags, Left(w, flags))
      && list[0] in o.ops && o.ops[list[0]] == ops'[list[0]]
    ensures AllServed(list, ops, flags, o)
  {
    hide And, Without, Within, Satisfied, Bits, Left;
    var w := ops[list[0]].want;
    LeftWithin(w, flags);
    WithinLaws(flags, flags);
    assert Served(w, flags, Bits(w, flags), flags, o.flags);
    forall i | 1 <= i < |list| && list[i] !in o.waiters
      ensures list[i] in o.ops && o.ops[list[i]].Received?
      ensures exists f :: Served(ops[list[i]].want, f, o.ops[list[i]].bits, flags, o.flags)
    {
      assert list[1..][i - 1] == list[i];
      var f :| Served(ops[list[i]].want, f, o.ops[list[i]].bits, Left(w, flags), o.flags);
      ServedEarlier(ops[list[i]].want, f, o.ops[list[i]].bits, Left(w, flags), flags, o.flags);
    }
  }

  lemma ServedLater(list: seq<int>, ops: Ops, flags: bv32, o: Outcome)
    requires AllWaiting(list, ops) && list != [] && AllWaiting(list[1..], ops) && AllServed(list[1..], ops, flags, o)
    ensures AllServed(list, ops, flags, o.(waiters := [list[0]] + o.waiters))
  {
    hide Served;
    var o' := o.(waiters := [list[0]] + o.waiters);
    forall i | 0 <= i < |list| && list[i] !in o'.waiters
      ensures list[i] in o.ops && o.ops[list[i]].Received?
      ensures exists f :: Served(ops[list[i]].want, f, o.ops[list[i]].bits, flags, o.flags)
    {
      assert list[0] in o'.waiters;
      assert list[1..][i - 1] == list[i];
    }
  }

  lemma {:induction false} AskAllSettles(list: seq<int>, ops: Ops, flags: bv32)
    requires AllWaiting(list, ops)
    ensures Settled(list, ops, flags, AskAll(list, ops, flags))
    decreases |list|
  {
    hide And, Without, Within, Satisfied, Bits, Left;
    if list == [] {
      WithinLaws(flags, flags);
    } else {
      var (t, rest) := (list[0], list[1..]);
      var w := ops[t].want;
      IpcList.TailMembers(list);
      if Satisfied(w, flags) {
        var ops' := ops[t := Received(Bits(w, flags))];
        assert AllWaiting(rest, ops');
        AskAllSettles(rest, ops', Left(w, flags));
        LeftWithin(w, flags);
        WithinTrans(AskAll(rest, ops', Left(w, flags)).flags, Left(w, flags), flags);
      } else {
        assert AllWaiting(rest, ops);
        AskAllSettles(rest, ops, flags);
        SettleOne(list, ops, flags);
      }
    }
  }

  lemma LeftWithin(w: Want, flags: bv32)
    ensures Within(Left(w, flags), flags)
  {
    hide And, Without, Within;
    WithinLaws(flags, w.bits);
  }

  lemma SettleOne(list: seq<int>, ops: Ops, flags: bv32)
    requires AllWaiting(list, ops) && list != [] && AllWaiting(list[1..], ops) && !Satisfied(ops[list[0]].want, flags)
    requires Settled(list[1..], ops, flags, AskAll(list[1..], ops, flags))
    ensures Settled(list, ops, flags, AskAll(list, ops, flags))
  {
    hide And, Without, Within, Satisfied, Bits, Left;
    var (t, o) := (list[0], AskAll(list[1..], ops, flags));
    IpcList.TailMembers(list);
    if Satisfied(ops[t].want, o.flags) { FewerFlags(ops[t].want, flags, o.flags); }
    assert t !in o.waiters;
  }

  /** One round of the sending loop carries the reference outcome along. */
  lemma AskNext(list: seq<int>, i: nat, ops: Ops, flags: bv32)
    requires i < |list| && AllWaiting(list[i..], ops)
    ensures list[i] in ops && ops[list[i]].Waiting?
    ensures var (t, w) := (list[i], ops[list[i]].want);
      var o := AskAll(list[i..], ops, flags);
      if Satisfied(w, flags) then
        AllWaiting(list[i + 1..], ops[t := Received(Bits(w, flags))]) &&
        o == AskAll(list[i + 1..], ops[t := Received(Bits(w, flags))], Left(w, flags))
      else
        AllWaiting(list[i + 1..], ops) &&
        o == AskAll(list[i + 1..], ops, flags).(waiters := [t] + AskAll(list[i + 1..], ops, flags).waiters)
  {
    hide And, Without, Within, Satisfied, Bits, Left;
    IpcList.TailMembers(list[i..]);
    var t := list[i];
    assert list[i..][0] == t;
    assert list[i..][0] == list[i] && list[i..][1..] == list[i + 1..];
  }

  class EventFlags {
    const flag: IpcList.Flag
    var flags: bv32              // event->set
    var waiters: seq<int>        // parent.suspend_thread
    var prio: map<int, int>
    var ops: Ops

    ghost predicate Queued()
      reads this
    {
      && NoDup(waiters) && IpcList.Known(waiters, prio)
      && (forall t :: t in waiters <==> t in ops && ops[t].Waiting?)
    }

    /** No thread sleeps on flags that are already there. */
    ghost predicate Valid()
      reads this
    {
      && Queued()
      && (forall t :: t in waiters ==> t in ops && ops[t].Waiting? && !Satisfied(ops[t].want, flags))
    }

    constructor (flag: IpcList.Flag, prio: map<int, int>)
      ensures Valid() && flags == 0 && ops == map[] && this.flag == flag && this.prio == prio
    {
      this.flag, this.prio := flag, prio;
      flags, waiters, ops := 0, [], map[];
    }

    /** rt_event_recv up to its blocking point; the option holds AND or OR. */
    method Recv(t: int, want: Want, wait: bool) returns (r: Status)
      requires Valid() && t !in ops && t in prio
      modifies this`flags, this`waiters, this`ops
      ensures Valid()
      ensures r == (if want.bits == 0 then Error else if Satisfied(want, old(flags)) then Done(Bits(want, old(flags)))
                    else if wait then Blocked else TimedOut)
      ensures want.bits != 0 ==>
        (r.Done? <==> (want.all && want.bits & old(flags) == want.bits) || (!want.all && want.bits & old(flags) != 0))
      ensures r.Done? ==> r.bits == want.bits & old(flags)
      ensures flags == if r.Done? && want.clear then old(flags) & !want.bits else old(flags)
      ensures flags == (if r.Done? then Left(want, old(flags)) else old(flags))
      ensures ops == (if r.Blocked? then old(ops)[t := Waiting(want)] else old(ops))
      ensures IpcList.Known(old(waiters), prio)
      ensures waiters == if r.Blocked? then IpcList.Suspended(old(waiters), t, prio, flag) else old(waiters)
    {
      hide And, Without, Within, Satisfied, Bits, Left;
      Meaning(want, flags);
      if want.bits == 0 {
        return Error;
      }
      if Satisfied(want, flags) {
        r := Done(Bits(want, flags));
        LeftWithin(want, flags);
        flags := Left(want, flags);
        forall u | u in waiters ensures !Satisfied(ops[u].want, flags) {
          if Satisfied(ops[u].want, flags) { FewerFlags(ops[u].want, old(flags), flags); }
        }
        return;
      }
      if !wait {
        return TimedOut;
      }
      IpcList.SuspendedNoDup(waiters, t, prio, flag);
      waiters := IpcList.ListSuspend(waiters, t, prio, flag);
      ops := ops[t := Waiting(want)];
      r := Blocked;
    }

    /** rt_event_send: the walk over the suspend list ends as if the new flags had been set first and
        every waiter had then called rt_event_recv in list order. */
    method Send(bits: bv32) returns (ok: bool)
      requires Valid()
      modifies this`flags, this`waiters, this`ops
      ensures Valid() && (ok <==> bits != 0)
      ensures !ok ==> unchanged(this)
      ensures ok ==>
        && AllWaiting(old(waiters), old(ops))
        && Outcome(waiters, ops, flags) == AskAll(old(waiters), old(ops), old(flags) | bits)
      ensures ok ==> forall t :: t in old(waiters) ==>
        && t in old(ops) && old(ops)[t].Waiting? && t in ops
        && (t in waiters ==> Unanswered(old(ops)[t].want, flags))
        && (t !in waiters ==>
              ops[t].Received? && Answered(old(ops)[t].want, ops[t].bits, old(flags) | bits, flags))
    {
      hide And, Without, Within, Satisfied, Bits, Left;
      if bits == 0 {
        return false;
      }
      flags := flags | bits;
      WaitersWait();
      AskAllSettles(waiters, ops, flags);
      Walk();
      Rewoken(old(waiters), old(ops), old(flags) | bits);
      Answers(old(waiters), old(ops), old(flags) | bits);
      ok := true;
    }

    /** In every reachable state a waiter for all of its flags lacks one, and a waiter for any of them lacks all. */
    lemma Asleep()
      requires Valid()
      ensures forall t :: t in waiters ==> t in ops && ops[t].Waiting? && Unanswered(ops[t].want, flags)
    {
      hide Satisfied, Unanswered;
      forall t | t in waiters ensures Unanswered(ops[t].want, flags) { MeansUnanswered(ops[t].want, flags); }
    }

    /** Who was served and who was not, on the flag words. */
    lemma Answers(list: seq<int>, ops0: Ops, flags0: bv32)
      requires Valid() && AllWaiting(list, ops0) && Outcome(waiters, ops, flags) == AskAll(list, ops0, flags0)
      requires Settled(list, ops0, flags0, AskAll(list, ops0, flags0))
      ensures forall t :: t in list ==>
        && t in ops0 && ops0[t].Waiting? && t in ops
        && (t in waiters ==> Unanswered(ops0[t].want, flags))
        && (t !in waiters ==> ops[t].Received? && Answered(ops0[t].want, ops[t].bits, flags0, flags))
    {
      hide Within, Satisfied, AskAll, Served, Answered, Unanswered;
      AskAllServes(list, ops0, flags0);
      forall t | t in list
        ensures t in ops0 && ops0[t].Waiting? && t in ops
        ensures t in waiters ==> Unanswered(ops0[t].want, flags)
        ensures t !in waiters ==> ops[t].Received? && Answered(ops0[t].want, ops[t].bits, flags0, flags)
      {
        var i :| 0 <= i < |list| && list[i] == t;
        if t in waiters {
          MeansUnanswered(ops0[t].want, flags);
        } else {
          var f :| Served(ops0[t].want, f, ops[t].bits, flags0, flags);
          MeansAnswered(ops0[t].want, f, ops[t].bits, flags0, flags);
        }
      }
    }

    lemma WaitersWait()
      requires Queued()
      ensures AllWaiting(waiters, ops)
    {
      forall i | 0 <= i < |waiters| ensures waiters[i] in ops && ops[waiters[i]].Waiting? {
        var t := waiters[i];
        assert t in waiters;
      }
    }

    /** A settled outcome is a valid state again. */
    lemma Rewoken(list: seq<int>, ops0: Ops, flags0: bv32)
      requires AllWaiting(list, ops0) && Outcome(waiters, ops, flags) == AskAll(list, ops0, flags0)
      requires Settled(list, ops0, flags0, AskAll(list, ops0, flags0))
      requires IpcList.Known(list, prio) && forall t :: t in list <==> t in ops0 && ops0[t].Waiting?
      ensures Valid()
    {
      hide And, Without, Within, Satisfied, AskAll;
      forall i | 0 <= i < |waiters| ensures waiters[i] in prio {
        var t := waiters[i];
        assert t in waiters;
        var k :| 0 <= k < |list| && list[k] == t;
      }
    }

    /** The loop of rt_event_send. A satisfied thread keeps what it received in its event_set and is
        unlinked while the walk goes on. */
    method Walk()
      requires AllWaiting(waiters, ops)
      modifies this`flags, this`waiters, this`ops
      ensures Outcome(waiters, ops, flags) == AskAll(old(waiters), old(ops), old(flags))
    {
      ghost var goal := AskAll(waiters, ops, flags);
      var n := 0;
      assert waiters[0..] == waiters;
      assert Walking(waiters, 0, ops, flags, goal);
      hide And, Without, Within, Satisfied, Bits, Left, AskAll, AllWaiting, Walking;
      while n < |waiters|
        invariant 0 <= n <= |waiters| && Walking(waiters, n, ops, flags, goal)
        decreases |waiters| - n
      {
        WalkOn(waiters, n, ops, flags, goal);
        var t := waiters[n];
        var w := ops[t].want;
        if Satisfied(w, flags) {
          SendIsReceive(w, flags);
          var got := if w.all then w.bits else And(w.bits, flags);
          ops := ops[t := Received(got)];
          flags := if w.clear then Without(flags, got) else flags;
          waiters := waiters[..n] + waiters[n + 1..];
        } else {
          n := n + 1;
        }
      }
      WalkEnds(waiters, ops, flags, goal);
    }

    /** A resumed thread returns: with the bits the sender recorded for it, or with an error. */
    method Return(t: int) returns (r: Status)
      requires Valid() && t in ops && !ops[t].Waiting?
      modifies this`ops
      ensures Valid() && ops == old(ops) - {t}
      ensures r == if old(ops)[t].Received? then Done(old(ops)[t].bits) else Error
    {
      r := if ops[t].Received? then Done(ops[t].bits) else Error;
      ops := ops - {t};
    }

    /** rt_thread_timeout of a waiter. */
    method Timeout(t: int)
      requires Valid() && t in ops && ops[t].Waiting?
      modifies this`waiters, this`ops
      ensures Valid() && ops == old(ops)[t := Failed] && waiters == IpcList.Removed(old(waiters), t)
    {
      IpcList.RemovedKeeps(waiters, t, prio);
      waiters := IpcList.Removed(waiters, t);
      ops := ops[t := Failed];
    }

    /** rt_event_control(RT_IPC_CMD_RESET) */
    method Reset()
      requires Valid()
      modifies this`flags, this`waiters, this`ops
      ensures Valid() && waiters == [] && flags == 0 && ops == AllFailed(old(ops))
    {
      while waiters != []
        invariant Valid() && AllFailed(ops) == AllFailed(old(ops))
        decreases |waiters|
      {
        var w := waiters[0];
        assert w in waiters;
        Timeout(w);
      }
      forall t | t in ops ensures !ops[t].Waiting? { assert t !in waiters; }
      assert AllFailed(ops) == ops;
      flags := 0;
    }
  }

  /** Every waiter is resumed with an error. */
  function AllFailed(ops: Ops): Ops {
    map t | t in ops :: if ops[t].Waiting? then Failed else ops[t]
  }

  /** With the waiters before the n-th asked already, the rest leads to the goal. */
  ghost predicate Walking(waiters: seq<int>, n: nat, ops: Ops, flags: bv32, goal: Outcome) {
    && n <= |waiters| && AllWaiting(waiters[n..], ops)
    && var o := AskAll(waiters[n..], ops, flags); goal == o.(waiters := waiters[..n] + o.waiters)
  }

  /** One round: a satisfied waiter is unlinked, any other is stepped over. */
  lemma WalkOn(waiters: seq<int>, n: nat, ops: Ops, flags: bv32, goal: Outcome)
    requires Walking(waiters, n, ops, flags, goal) && n < |waiters|
    ensures waiters[n] in ops && ops[waiters[n]].Waiting?
    ensures var (t, w) := (waiters[n], ops[waiters[n]].want);
      if Satisfied(w, flags) then
        Walking(waiters[..n] + waiters[n + 1..], n, ops[t := Received(Bits(w, flags))], Left(w, flags), goal)
      else
        Walking(waiters, n + 1, ops, flags, goal)
  {
    hide And, Without, Within, Satisfied, Bits, Left, AskAll, AllWaiting;
    AskNext(waiters, n, ops, flags);
    var t, dropped := waiters[n], waiters[..n] + waiters[n + 1..];
    assert dropped[n..] == waiters[n + 1..] && dropped[..n] == waiters[..n];
    assert waiters[..n + 1] == waiters[..n] + [t];
    if !Satisfied(ops[t].want, flags) {
      var rest := AskAll(waiters[n + 1..], ops, flags).waiters;
      assert waiters[..n] + ([t] + rest) == waiters[..n] + [t] + rest;
    }
  }

  lemma WalkEnds(waiters: seq<int>, ops: Ops, flags: bv32, goal: Outcome)
    requires Walking(waiters, |waiters|, ops, flags, goal)
    ensures goal == Outcome(waiters, ops, flags)
  {
    AskNobody(waiters[|waiters|..], ops, flags);
    assert waiters[..|waiters|] + [] == waiters;
  }

  lemma AskNobody(list: seq<int>, ops: Ops, flags: bv32)
    requires list == []
    ensures AllWaiting(list, ops) && AskAll(list, ops, flags) == Outcome([], ops, flags)
  {
  }
}
