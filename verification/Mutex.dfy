/** The mutex of ipc.c: recursive, with priority inheritance towards the owner. Each method is one
    critical section of one thread; every sequence of calls is an interleaving. Priorities are the
    threads' current priorities, smaller is more urgent. A thread takes part in one mutex at a time. */
module Mutex {
  import opened ChainList
  import opened IpcList

  const NOBODY: int := -1
  const HOLD_MOD: int := 256   // rt_uint8_t hold

  datatype Op = Waiting | Failed   // on the suspend list; resumed by a timeout and not returned yet
  type Ops = map<int, Op>

  datatype Status = Owned | Blocked | TimedOut

  /** At least as urgent as everybody in the list. */
  ghost predicate Leads(p: int, list: seq<int>, prio: Priorities) {
    forall w :: w in list ==> w in prio && p <= prio[w]
  }

  class Mutex {
    const flag: Flag
    var value: int
    var owner: int
    var originalPriority: int
    var hold: int
    var waiters: seq<int>        // parent.suspend_thread
    var prio: Priorities         // current_priority of every thread
    var ops: Ops
    ghost var atAcquire: int     // the owner's priority when it became the owner

    /** The counters tell the same story, and only an owned mutex has waiters. */
    ghost predicate Counted()
      reads this
    {
      && (value == 0 || value == 1) && 0 <= hold < HOLD_MOD
      && (owner == NOBODY <==> value == 1) && (owner == NOBODY <==> hold == 0)
      && (owner == NOBODY ==> waiters == [])
      && (owner != NOBODY ==> owner in prio && owner !in waiters)
    }

    ghost predicate Queued()
      reads this
    {
      && NoDup(waiters) && Known(waiters, prio) && NOBODY !in waiters
      && (forall t :: t in waiters <==> t in ops && ops[t].Waiting?)
      && (flag.Prio? ==> Sorted(waiters, prio))
    }

    /** Inheritance: the owner runs at a priority no less urgent than its own, and with the priority
        flag no less urgent than anybody it keeps waiting. */
    ghost predicate Inherited()
      reads this
    {
      owner != NOBODY ==>
        && owner in prio && prio[owner] <= originalPriority == atAcquire
        && (flag.Prio? ==> Leads(prio[owner], waiters, prio))
    }

    ghost predicate Valid()
      reads this
    {
      Counted() && Queued() && Inherited()
    }

    constructor (flag: Flag, prio: Priorities)
      ensures Valid() && this.flag == flag && owner == NOBODY && hold == 0 && waiters == [] && this.prio == prio
      ensures ops == map[]
    {
      this.flag, this.prio := flag, prio;
      value, owner, originalPriority, hold := 1, NOBODY, 0xFF, 0;
      waiters, ops := [], map[];
      atAcquire := 0xFF;
    }

    /** rt_mutex_take up to its blocking point. A thread that already owns the mutex nests. The 256th
        nested take wraps the 8-bit counter to zero, and that is the one call that breaks the mutex. */
    method Take(t: int, wait: bool) returns (r: Status)
      requires Valid() && t in prio && t != NOBODY && t !in ops
      modifies this
      ensures Valid() <==> !(old(owner) == t && old(hold) == HOLD_MOD - 1)
      ensures r == (if old(owner) == t || old(owner) == NOBODY then Owned else if wait then Blocked else TimedOut)
      ensures r.Owned? ==>
        && owner == t && hold == (old(hold) + 1) % HOLD_MOD
        && prio == old(prio) && waiters == old(waiters) && ops == old(ops)
      ensures t in prio && (old(owner) == t ==> atAcquire == old(atAcquire))
      ensures !r.Owned? ==> owner == old(owner) && hold == old(hold) && atAcquire == old(atAcquire)
      ensures old(owner) == NOBODY ==> atAcquire == prio[t]
      ensures r.Blocked? ==>
        && ops == old(ops)[t := Waiting] && owner in old(prio)
        && prio == (if old(prio)[t] < old(prio)[owner] then old(prio)[owner := old(prio)[t]] else old(prio))
        && Known(old(waiters), prio) && waiters == Suspended(old(waiters), t, prio, flag)
      ensures r.TimedOut? ==> unchanged(this)
    {
      if owner == t {
        hold := (hold + 1) % HOLD_MOD;
        return Owned;
      }
      if value > 0 {
        value := value - 1;
        owner, originalPriority := t, prio[t];
        hold := (hold + 1) % HOLD_MOD;
        atAcquire := prio[t];
        return Owned;
      }
      if !wait {
        return TimedOut;
      }
      Block(t);
      r := Blocked;
    }

    /** The contended path: lend the owner the newcomer's urgency, then queue. */
    method Block(t: int)
      requires Valid() && t in prio && t != NOBODY && t !in ops && owner != NOBODY && owner != t
      modifies this`prio, this`waiters, this`ops
      ensures Valid() && ops == old(ops)[t := Waiting] && owner in old(prio)
      ensures prio == if old(prio)[t] < old(prio)[owner] then old(prio)[owner := old(prio)[t]] else old(prio)
      ensures t in prio && Known(old(waiters), prio) && waiters == Suspended(old(waiters), t, prio, flag)
    {
      if prio[t] < prio[owner] {
        prio := prio[owner := prio[t]];
      }
      assert Known(waiters, prio);
      if flag.Prio? {
        SortedFrame(waiters, old(prio), prio);
        SuspendedSorted(waiters, t, prio);
      }
      SuspendedNoDup(waiters, t, prio, flag);
      waiters := ListSuspend(waiters, t, prio, flag);
      ops := ops[t := Waiting];
    }

    /** rt_mutex_release. Only the owner can release; the last release restores the priority the owner
        had when it acquired the mutex and hands the mutex to the first waiter. Whether the new owner
        leads those left waiting is decided by whether the first waiter led them: always so with the
        priority flag, by chance with the FIFO flag. */
    method Release(t: int) returns (ok: bool)
      requires Valid() && t != NOBODY
      modifies this
      ensures Valid()
      ensures ok <==> old(owner) == t
      ensures !ok ==> unchanged(this)
      ensures ok && old(hold) > 1 ==>
          owner == t && hold == old(hold) - 1 && prio == old(prio) && waiters == old(waiters) && ops == old(ops)
      ensures ok && old(hold) == 1 ==> prio == old(prio)[t := old(atAcquire)]
      ensures ok && old(hold) == 1 && old(waiters) == [] ==> owner == NOBODY && ops == old(ops)
      ensures ok && old(hold) == 1 && old(waiters) != [] ==>
        && owner == old(waiters)[0] && hold == 1 && waiters == old(waiters)[1..] && ops == old(ops) - {owner}
        && owner in prio && originalPriority == prio[owner]
        && (Leads(prio[owner], waiters, prio) <==> Leads(prio[owner], old(waiters), old(prio)))
    {
      if t != owner {
        return false;
      }
      hold := hold - 1;
      if hold == 0 {
        if originalPriority != prio[owner] {
          prio := prio[owner := originalPriority];
        }
        assert prio == old(prio)[t := old(atAcquire)];
        assert Known(waiters, prio);
        if flag.Prio? { SortedFrame(waiters, old(prio), prio); }
        if waiters != [] {
          Handover();
        } else {
          value := value + 1;
          owner, originalPriority := NOBODY, 0xFF;
        }
      }
      ok := true;
    }

    method Handover()
      requires waiters != [] && Queued() && hold == 0 && value == 0 && owner !in waiters && NOBODY !in waiters
      modifies this`owner, this`originalPriority, this`hold, this`waiters, this`ops, this`atAcquire
      ensures Valid() && owner == old(waiters)[0] && hold == 1 && waiters == old(waiters)[1..]
      ensures ops == old(ops) - {owner}
      ensures owner in prio && originalPriority == prio[owner]
      ensures Leads(prio[owner], waiters, prio) <==> Leads(prio[owner], old(waiters), prio)
    {
      TailMembers(waiters);
      var thread := waiters[0];
      assert thread in waiters;
      owner, originalPriority := thread, prio[thread];
      hold := hold + 1;
      waiters := waiters[1..];
      ops := ops - {thread};
      atAcquire := prio[thread];
      assert Known(waiters, prio);
      if flag.Prio? {
        forall w | w in waiters ensures prio[owner] <= prio[w] {
          var i :| 0 <= i < |waiters| && waiters[i] == w;
          assert old(waiters)[i + 1] == w;
        }
      }
    }

    /** rt_thread_timeout of a waiter. The boost it caused stays with the owner until the release. */
    method Timeout(t: int)
      requires Valid() && t in ops && ops[t].Waiting?
      modifies this`waiters, this`ops
      ensures Valid() && ops == old(ops)[t := Failed] && waiters == Removed(old(waiters), t)
    {
      RemovedKeeps(waiters, t, prio);
      waiters := Removed(waiters, t);
      ops := ops[t := Failed];
    }

    /** A waiter that timed out returns its error. */
    method ReturnError(t: int)
      requires Valid() && t in ops && ops[t].Failed?
      modifies this`ops
      ensures Valid() && ops == old(ops) - {t}
    {
      ops := ops - {t};
    }

    /** rt_thread_control(RT_THREAD_CTRL_CHANGE_PRIORITY), on any thread. It does not look at the mutex: the invariant
        survives exactly when the owner does not become less urgent than it was at its acquisition and, with the
        priority flag, the queue is still in order behind an owner that leads it. */
    method ChangePriority(t: int, p: int)
      requires Valid()
      modifies this`prio
      ensures prio == old(prio)[t := p]
      ensures Valid() <==>
        && (t == owner && owner != NOBODY ==> p <= atAcquire)
        && (flag.Prio? ==>
              && Sorted(waiters, prio)
              && (owner != NOBODY ==> owner in prio && Leads(prio[owner], waiters, prio)))
      ensures t != owner && t !in waiters ==> Valid()
    {
      prio := prio[t := p];
      if t !in waiters && flag.Prio? { SortedFrame(waiters, old(prio), prio); }
      assert Known(waiters, prio);
    }

    /** The same in every reachable state: who owns it, whether it is taken and how deep agree; and with
        the priority flag no waiter is more urgent than the owner. */
    lemma NoInversion()
      requires Valid()
      ensures (owner == NOBODY) == (value == 1) == (hold == 0)
      ensures flag.Prio? ==> forall w :: w in waiters ==> owner in prio && w in prio && prio[owner] <= prio[w]
    {
    }
  }

  /** With the FIFO flag the inheritance does break: 2 takes the mutex over from 1 while the more urgent
      3, which came later, keeps waiting. */
  method FifoInversion() returns (m: Mutex)
    ensures fresh(m) && m.Valid() && m.flag == Fifo && m.owner == 2 && m.waiters == [3]
    ensures 2 in m.prio && 3 in m.prio && m.prio[3] < m.prio[2]
  {
    hide Mutex.Valid, Leads;
    m := new Mutex(Fifo, map[1 := 20, 2 := 10, 3 := 5]);
    var r := m.Take(1, true);
    r := m.Take(2, true);
    assert m.waiters == [2];
    r := m.Take(3, true);
    SuspendedSplit([2], 3, m.prio, Fifo, 1);
    assert m.waiters == [2, 3];
    var ok := m.Release(1);
  }

  /** One thread takes the mutex 256 times: the nesting depth is zero again, and the mutex still owned. */
  method HoldWraps() returns (m: Mutex)
    ensures fresh(m) && m.owner == 1 && m.hold == 0 && !m.Valid()
  {
    m := new Mutex(Prio, map[1 := 20]);
    var r := m.Take(1, true);
    var n := 1;
    while n < HOLD_MOD - 1
      invariant 1 <= n <= HOLD_MOD - 1 && fresh(m) && m.Valid() && m.owner == 1 && m.hold == n
      invariant 1 in m.prio && m.ops == map[]
    {
      r := m.Take(1, true);
      n := n + 1;
    }
    r := m.Take(1, true);
  }

  lemma SortedFrame(list: seq<int>, prio: Priorities, prio': Priorities)
    requires Sorted(list, prio) && forall i :: 0 <= i < |list| ==> list[i] in prio' && prio'[list[i]] == prio[list[i]]
    ensures Sorted(list, prio')
  {
  }
}
