/** Threads and the ready queue: scheduler.c, the state changes of thread.c and the time slice of clock.c.
    Each method is one interrupt-free section, or one store outside of any, unless it says that it runs under its
    caller's lock or without interruption; a thread may be between two sections of an operation, so every sequence of
    calls is a run. */
module Scheduler {
  import opened ChainList
  import opened Bitmap
  import IpcList
  import RoundRobin

  datatype Stat = Init | Ready | Suspend | Close

  type Stats = map<int, Stat>
  type Levels = map<int, nat>

  /** Thread t belongs on list p: it is ready, of that priority, and not just being taken off by its deletion. */
  predicate Belongs(stat: Stats, prio: Levels, off: set<int>, t: int, p: int) {
    t in stat && stat[t].Ready? && t !in off && t in prio && prio[t] == p
  }

  /** List p of the table holds exactly the threads that belong there, each once. */
  ghost predicate Listed(ready: seq<seq<int>>, stat: Stats, prio: Levels, off: set<int>) {
    && (forall p :: 0 <= p < |ready| ==> NoDup(ready[p]))
    && (forall p, t :: 0 <= p < |ready| ==> (t in ready[p] <==> Belongs(stat, prio, off, t, p)))
  }

  /** The thread is on some ready list. */
  ghost predicate OnList(ready: seq<seq<int>>, t: int) {
    exists p :: 0 <= p < |ready| && t in ready[p]
  }

  /** Operations under way: a thread taken off while ready is being deleted; only suspended threads have a running
      timer; a thread that is being deleted is not on the defunct list yet. */
  ghost predicate Windows(stat: Stats, off: set<int>, closing: set<int>, armed: set<int>, defunct: seq<int>) {
    && (forall t :: t in off ==> t in stat && stat[t].Ready? && t in closing)
    && (forall t :: t in armed ==> t in stat && stat[t].Suspend?)
    && (forall t :: t in closing ==> t in stat && t !in defunct)
  }

  /** Every thread has a priority of the table; its masks, which it has once it was started, belong to that. */
  ghost predicate Attributed(levels: nat, stat: Stats, prio: Levels, initPrio: Levels, mask: Levels) {
    && (forall t :: t in mask ==> t in stat)
    && (forall t :: t in stat ==>
          && t in prio && prio[t] < levels && t in initPrio && initPrio[t] < levels
          && (t in mask ==> mask[t] == prio[t])
          && (stat[t].Ready? || stat[t].Suspend? ==> t in mask))
  }

  /** A thread on a wait list is suspended and on no other list; a thread on the defunct list is closed. */
  ghost predicate Parked(waits: map<int, seq<int>>, defunct: seq<int>, stat: Stats) {
    && (forall w :: w in waits ==> NoDup(waits[w]))
    && (forall w, t :: w in waits && t in waits[w] ==> t in stat && stat[t].Suspend?)
    && (forall w, v, t :: w in waits && v in waits && t in waits[w] && t in waits[v] ==> w == v)
    && NoDup(defunct) && (forall t :: t in defunct ==> t in stat && stat[t].Close?)
  }

  /** Every thread has a time slice and something left of it. */
  ghost predicate Sliced(stat: Stats, initTick: Levels, remaining: Levels) {
    forall t :: t in stat ==> t in initTick && t in remaining && 1 <= remaining[t] <= initTick[t]
  }

  /** The priorities with a ready thread. */
  function Busy(ready: seq<seq<int>>): set<nat> {
    set p: nat | p < |ready| && ready[p] != []
  }

  function Unparked(waits: map<int, seq<int>>, t: int): map<int, seq<int>> {
    map w | w in waits :: IpcList.Removed(waits[w], t)
  }

  /** The thread off level q and at the end of level p. */
  function Relisted(ready: seq<seq<int>>, q: nat, p: nat, t: int): seq<seq<int>>
    requires q < |ready| && p < |ready|
  {
    var r := ready[q := IpcList.Removed(ready[q], t)];
    r[p := r[p] + [t]]
  }

  /** A thread that was taken off whatever list it was on may get any state. */
  lemma UnparkedParked(waits: map<int, seq<int>>, defunct: seq<int>, stat: Stats, t: int, s: Stat)
    requires Parked(waits, defunct, stat)
    ensures Parked(Unparked(waits, t), IpcList.Removed(defunct, t), stat[t := s])
    ensures t !in defunct ==> IpcList.Removed(defunct, t) == defunct
  {
    RemovedNoDup(defunct, t);
    if t !in defunct { IpcList.RemovedAbsent(defunct, t); }
    forall w | w in waits ensures NoDup(IpcList.Removed(waits[w], t)) {
      RemovedNoDup(waits[w], t);
    }
  }

  lemma RemovedNoDup(list: seq<int>, t: int)
    requires NoDup(list)
    ensures NoDup(IpcList.Removed(list, t))
  {
    var prio := map x | x in list :: 0;
    IpcList.RemovedKeeps(list, t, prio);
  }

  /** A thread leaves the ready list of its priority, whatever its state. */
  lemma ListedRemove(ready: seq<seq<int>>, stat: Stats, prio: Levels, off: set<int>, t: int)
    requires Listed(ready, stat, prio, off) && t in prio && prio[t] < |ready|
    ensures var p := prio[t]; Listed(ready[p := IpcList.Removed(ready[p], t)], stat, prio, off + {t})
  {
    var p := prio[t];
    RemovedNoDup(ready[p], t);
    var ready' := ready[p := IpcList.Removed(ready[p], t)];
    forall q, u | 0 <= q < |ready'| ensures u in ready'[q] <==> Belongs(stat, prio, off + {t}, u, q) {
      assert u in ready[q] <==> Belongs(stat, prio, off, u, q);
    }
  }

  /** The state of a thread that is on no list changes to one that keeps it off. */
  lemma ListedRestate(ready: seq<seq<int>>, stat: Stats, prio: Levels, off: set<int>, t: int, s: Stat, off': set<int>)
    requires Listed(ready, stat, prio, off) && t in stat && (!stat[t].Ready? || t in off) && (!s.Ready? || t in off')
    requires off' - {t} == off - {t}
    ensures Listed(ready, stat[t := s], prio, off')
  {
    forall q, u | 0 <= q < |ready| ensures u in ready[q] <==> Belongs(stat[t := s], prio, off', u, q) {
      assert u in ready[q] <==> Belongs(stat, prio, off, u, q);
      if u != t { assert u in off <==> u in off - {t}; assert u in off' <==> u in off' - {t}; }
    }
  }

  lemma ListedAbsent(ready: seq<seq<int>>, stat: Stats, prio: Levels, off: set<int>, t: int)
    requires Listed(ready, stat, prio, off) && t in stat && t in prio && prio[t] < |ready|
    ensures OnList(ready, t) <==> stat[t].Ready? && t !in off
    ensures OnList(ready, t) <==> t in ready[prio[t]]
  {
    assert t in ready[prio[t]] <==> Belongs(stat, prio, off, t, prio[t]);
  }

  /** A thread joins the end of the list of its priority: right exactly when it was on no list. */
  lemma ListedInsert(ready: seq<seq<int>>, stat: Stats, prio: Levels, off: set<int>, t: int)
    requires Listed(ready, stat, prio, off) && t in stat && t in prio && prio[t] < |ready|
    ensures var p := prio[t];
      Listed(ready[p := ready[p] + [t]], stat[t := Ready], prio, off - {t}) <==> !OnList(ready, t)
  {
    var p := prio[t];
    var ready' := ready[p := ready[p] + [t]];
    ListedAbsent(ready, stat, prio, off, t);
    if OnList(ready, t) {
      var i :| 0 <= i < |ready[p]| && ready[p][i] == t;
      assert ready'[p][i] == t && ready'[p][|ready[p]|] == t;
      assert !NoDup(ready'[p]);
    } else {
      forall q, u | 0 <= q < |ready'| ensures u in ready'[q] <==> Belongs(stat[t := Ready], prio, off - {t}, u, q) {
        assert u in ready[q] <==> Belongs(stat, prio, off, u, q);
      }
    }
  }

  lemma BusyInsert(ready: seq<seq<int>>, p: nat, t: int)
    requires p < |ready|
    ensures Busy(ready[p := ready[p] + [t]]) == Busy(ready) + {p}
  {
  }

  lemma BusyRemove(ready: seq<seq<int>>, p: nat, list: seq<int>)
    requires p < |ready|
    ensures Busy(ready[p := list]) == if list == [] then Busy(ready) - {p} else Busy(ready) + {p}
  {
  }

  class Kernel {
    const levels: nat                 // RT_THREAD_PRIORITY_MAX
    const idle: int                   // the idle thread
    var group: nat                    // rt_thread_ready_priority_group
    var table: seq<nat>               // rt_thread_ready_table, used above 32 levels
    var ready: seq<seq<int>>          // rt_thread_priority_table
    var current: int                  // rt_current_thread
    var lockNest: int                 // rt_scheduler_lock_nest
    var stat: Stats
    var prio: Levels                  // current_priority
    var initPrio: Levels
    var mask: Levels                  // the priority that number, number_mask and high_mask encode
    var waits: map<int, seq<int>>     // the suspend lists threads may be linked into
    var defunct: seq<int>             // rt_thread_defunct
    var armed: set<int>               // threads whose timer is running
    var closing: set<int>             // threads inside rt_thread_delete or rt_thread_detach
    var off: set<int>                 // of these, the ready ones that were taken off their list
    var initTick: Levels
    var remaining: Levels             // remaining_tick

    predicate Wide()
    {
      levels > 32
    }

    ghost predicate Index()
      reads this
    {
      && 0 < levels <= 256 && |ready| == levels
      && Listed(ready, stat, prio, off)
      && Marked(Wide(), group, table, Busy(ready))
    }

    ghost predicate Valid()
      reads this
    {
      && Index()
      && Attributed(levels, stat, prio, initPrio, mask)
      && Parked(waits, defunct, stat)
      && Windows(stat, off, closing, armed, defunct)
      && Sliced(stat, initTick, remaining)
      && idle in stat && stat[idle].Ready? && idle !in closing
      && current in stat && lockNest >= 0
    }

    /** The kernel once its idle thread was started. */
    constructor (levels: nat, idle: int, priority: nat, tick: nat)
      requires priority < levels <= 256 && tick >= 1
      ensures Valid() && this.levels == levels && this.idle == idle && current == idle && lockNest == 0
      ensures stat == map[idle := Ready] && RunsTop() && waits == map[] && armed == {} && closing == {} && off == {}
    {
      this.levels, this.idle := levels, idle;
      ready := seq(levels, q requires 0 <= q => if q == priority then [idle] else []);
      if levels > 32 {
        group := SetBit(0, priority / 8);
        table := seq(32, n requires 0 <= n => if n == priority / 8 then SetBit(0, priority % 8) else 0);
      } else {
        group, table := SetBit(0, priority), [];
      }
      current, lockNest := idle, 0;
      stat, prio := map[idle := Ready], map[idle := priority];
      initPrio, mask := map[idle := priority], map[idle := priority];
      waits, defunct := map[], [];
      armed, closing, off := {}, {}, {};
      initTick, remaining := map[idle := tick], map[idle := tick];
      new;
      FirstThread(Wide(), levels, idle, priority);
      assert IsTop(priority);
    }

    /** rt_thread_init: a new thread with its priority and time slice, not started. */
    method CreateThread(t: int, priority: nat, tick: nat)
      requires Valid() && t !in stat && priority < levels && tick >= 1
      modifies this`stat, this`prio, this`initPrio, this`initTick, this`remaining
      ensures Valid() && stat == old(stat)[t := Init] && prio == old(prio)[t := priority]
      ensures initPrio == old(initPrio)[t := priority]
      ensures initTick == old(initTick)[t := tick] && remaining == old(remaining)[t := tick]
    {
      hide Listed, Marked, Parked, Attributed, Windows, Sliced, Unparked, Busy, OnList, IpcList.Removed;
      ListedNew(ready, stat, prio, off, t, priority);
      AddedThread(levels, stat, prio, initPrio, mask, waits, defunct, t, priority);
      AddedAside(stat, off, closing, armed, defunct, initTick, remaining, t, tick);
      stat, prio, initPrio := stat[t := Init], prio[t := priority], initPrio[t := priority];
      initTick, remaining := initTick[t := tick], remaining[t := tick];
    }

    // ---------------------------------------------------------------- the index

    /** `|= mask` in rt_schedule_insert_thread */
    method SetMask(p: nat, ghost busy: set<nat>)
      requires Marked(Wide(), group, table, busy) && p < levels <= 256
      modifies this`group, this`table
      ensures Marked(Wide(), group, table, busy + {p})
    {
      if Wide() {
        TwoLevelInsert(group, table, busy, p);
        table := table[p / 8 := SetBit(table[p / 8], p % 8)];
        group := SetBit(group, p / 8);
      } else {
        FlatInsert(group, busy, p);
        group := SetBit(group, p);
      }
    }

    /** `&= ~mask` in rt_schedule_remove_thread */
    method ClearMask(p: nat, ghost busy: set<nat>)
      requires Marked(Wide(), group, table, busy) && p < levels <= 256
      modifies this`group, this`table
      ensures Marked(Wide(), group, table, busy - {p})
    {
      if Wide() {
        TwoLevelRemove(group, table, busy, p);
        table := table[p / 8 := ClearBit(table[p / 8], p % 8)];
        if table[p / 8] == 0 {
          group := ClearBit(group, p / 8);
        }
      } else {
        FlatRemove(group, busy, p);
        group := ClearBit(group, p);
      }
    }

    /** rt_schedule_insert_thread: ready, at the end of the list of its priority, marked by its mask. The index stays
        right exactly when the thread was on no ready list. */
    method InsertThread(t: int)
      requires Index() && t in stat && t in prio && prio[t] < levels && t in mask && mask[t] == prio[t]
      modifies this`group, this`table, this`ready, this`stat, this`off
      ensures Index() <==> !OnList(old(ready), t)
      ensures stat == old(stat)[t := Ready] && off == old(off) - {t}
      ensures ready == old(ready)[prio[t] := old(ready)[prio[t]] + [t]]
    {
      hide Listed, Marked, OnList;
      ListedInsert(ready, stat, prio, off, t);
      BusyInsert(ready, prio[t], t);
      SetMask(mask[t], Busy(ready));
      stat, off := stat[t := Ready], off - {t};
      ready := ready[prio[t] := ready[prio[t]] + [t]];
    }

    /** rt_schedule_remove_thread: out of the list it is in, whatever its state, and unmarked if that leaves its
        priority without a ready thread. */
    method RemoveThread(t: int)
      requires Index() && t in stat && t in prio && prio[t] < levels && t in mask && mask[t] == prio[t]
      modifies this`group, this`table, this`ready, this`off, this`waits, this`defunct
      ensures Index() && off == old(off) + {t}
      ensures ready == old(ready)[prio[t] := IpcList.Removed(old(ready)[prio[t]], t)]
      ensures waits == Unparked(old(waits), t) && defunct == IpcList.Removed(old(defunct), t)
    {
      hide Listed, Marked;
      var p := prio[t];
      ListedRemove(ready, stat, prio, off, t);
      BusyRemove(ready, p, IpcList.Removed(ready[p], t));
      StillBusy(ready, t, p);
      ghost var busy := Busy(ready);
      ready := ready[p := IpcList.Removed(ready[p], t)];
      waits, defunct := Unparked(waits, t), IpcList.Removed(defunct, t);
      if ready[p] == [] {
        ClearMask(mask[t], busy);
      }
      off := off + {t};
    }

    lemma StillBusy(ready: seq<seq<int>>, t: int, p: nat)
      requires p < |ready|
      ensures IpcList.Removed(ready[p], t) != [] ==> Busy(ready) + {p} == Busy(ready)
    {
      var r := IpcList.Removed(ready[p], t);
      if r != [] {
        var x := r[0];
        assert x in r && x in ready[p];
      }
    }

    /** p is the most urgent priority with a ready thread. */
    ghost predicate IsTop(p: nat)
      reads this
    {
      p in Busy(ready) && forall q :: q in Busy(ready) ==> p <= q
    }

    /** The lookup of rt_schedule, by one or by two table searches. */
    method HighestReady() returns (p: nat)
      requires Index() && Busy(ready) != {}
      ensures IsTop(p) && p < |ready| && ready[p] != []
    {
      if Wide() {
        TwoLevelHighest(group, table, Busy(ready));
        var number := Ffs(group) - 1;
        p := number * 8 + Ffs(table[number]) - 1;
      } else {
        FlatHighest(group, Busy(ready));
        p := Ffs(group) - 1;
      }
    }

    lemma IdleIsReady()
      requires Valid()
      ensures idle in prio && prio[idle] < levels && prio[idle] in Busy(ready)
    {
      assert idle !in off;
      assert Belongs(stat, prio, off, idle, prio[idle]);
      assert idle in ready[prio[idle]];
    }

    /** The running thread is the first of the most urgent ready list. */
    ghost predicate RunsTop()
      reads this
    {
      exists p: nat :: p < |ready| && IsTop(p) && ready[p] != [] && current == ready[p][0]
    }

    /** rt_schedule: unlocked, it switches to the head of the most urgent ready list. */
    method Schedule()
      requires Valid()
      modifies this`current
      ensures Valid()
      ensures lockNest == 0 ==> RunsTop()
      ensures lockNest > 0 ==> current == old(current)
    {
      if lockNest == 0 {
        IdleIsReady();
        var p := HighestReady();
        var to := ready[p][0];
        assert to in ready[p];
        if to != current {
          current := to;
        }
      }
    }

    // ---------------------------------------------------------------- thread.c

    /** What a valid kernel says about one thread. */
    lemma Known(t: int)
      requires Valid() && (t in stat || t in closing || t in armed)
      ensures Index() && t in stat && t in prio && prio[t] < levels == |ready| && t in initPrio && initPrio[t] < levels
      ensures t in mask ==> mask[t] == prio[t]
      ensures stat[t].Ready? || stat[t].Suspend? ==> t in mask
      ensures t in off ==> stat[t].Ready? && t in closing
      ensures t in armed ==> stat[t].Suspend?
      ensures t in closing ==> t !in defunct && t != idle
      ensures t in defunct ==> stat[t].Close?
      ensures !stat[t].Close? ==> IpcList.Removed(defunct, t) == defunct
      ensures !stat[t].Suspend? ==> forall v :: v in waits ==> t !in waits[v]
      ensures OnList(ready, t) <==> stat[t].Ready? && t !in off
    {
      ListedAbsent(ready, stat, prio, off, t);
      if !stat[t].Close? { IpcList.RemovedAbsent(defunct, t); }
    }

    /** A thread is removed and gets the given state. */
    method TakeOff(t: int, s: Stat)
      requires Index() && t in stat && t in prio && prio[t] < levels && t in mask && mask[t] == prio[t]
      modifies this`group, this`table, this`ready, this`stat, this`off, this`waits, this`defunct
      ensures Index() && stat == old(stat)[t := s] && off == if s.Ready? then old(off) + {t} else old(off) - {t}
      ensures ready == old(ready)[prio[t] := IpcList.Removed(old(ready)[prio[t]], t)]
      ensures waits == Unparked(old(waits), t) && defunct == IpcList.Removed(old(defunct), t)
    {
      hide Listed, Marked, Unparked, Busy, IpcList.Removed;
      RemoveThread(t);
      var off' := if s.Ready? then off else off - {t};
      ListedRestate(ready, stat, prio, off, t, s, off');
      stat, off := stat[t := s], off';
      assert off == if s.Ready? then old(off) + {t} else old(off) - {t};
    }

    /** The locked part of rt_thread_suspend, some time after its test of the state: the thread is off every list,
        suspended, and its timer stopped. That is so even if the thread was closed in between, and then it leaves the
        defunct list. */
    method SuspendSection(t: int)
      requires Valid() && t in stat && t in mask && t != idle
      modifies this`group, this`table, this`ready, this`stat, this`off, this`waits, this`armed, this`defunct
      ensures Valid() && stat == old(stat)[t := Suspend] && t in prio && prio[t] < |old(ready)|
      ensures ready == old(ready)[prio[t] := IpcList.Removed(old(ready)[prio[t]], t)]
      ensures waits == Unparked(old(waits), t) && armed == old(armed) - {t} && off == old(off) - {t}
      ensures defunct == IpcList.Removed(old(defunct), t)
    {
      hide Listed, Marked, Parked, Attributed, Windows, Sliced, Unparked, Busy, OnList, IpcList.Removed;
      Known(t);
      UnparkedParked(waits, defunct, stat, t, Suspend);
      Restated(levels, stat, prio, initPrio, mask, t, Suspend);
      WindowsMoved(stat, off, closing, armed, defunct, t, Suspend, off - {t}, closing, armed - {t});
      SlicedRestate(stat, initTick, remaining, t, Suspend);
      TakeOff(t, Suspend);
      armed := armed - {t};
    }

    /** rt_thread_suspend, under its caller's lock. */
    method SuspendThread(t: int) returns (ok: bool)
      requires Valid() && t in stat && t != idle
      modifies this`group, this`table, this`ready, this`stat, this`off, this`waits, this`armed, this`defunct
      ensures Valid() && (ok <==> old(stat)[t].Ready?)
      ensures !ok ==> unchanged(this)
      ensures ok ==>
        && stat == old(stat)[t := Suspend] && t in prio && prio[t] < |old(ready)|
        && ready == old(ready)[prio[t] := IpcList.Removed(old(ready)[prio[t]], t)]
        && waits == Unparked(old(waits), t) && armed == old(armed) - {t} && off == old(off) - {t}
        && defunct == old(defunct)
    {
      hide Listed, Marked, Parked, Windows, Attributed, Unparked, OnList, IpcList.Removed;
      if !stat[t].Ready? {
        return false;
      }
      Known(t);
      SuspendSection(t);
      ok := true;
    }

    /** rt_ipc_object_init: a new list that threads may wait on. */
    method CreateList(w: int)
      requires Valid() && w !in waits
      modifies this`waits
      ensures Valid() && waits == old(waits)[w := []]
    {
      hide Listed, Marked;
      waits := waits[w := []];
    }

    /** rt_ipc_list_suspend, its second half: link a suspended thread into a wait list. */
    method Park(t: int, w: int, at: nat)
      requires Valid() && t in stat && stat[t].Suspend? && w in waits && at <= |waits[w]|
      requires forall v :: v in waits ==> t !in waits[v]
      modifies this`waits
      ensures Valid() && waits == old(waits)[w := old(waits)[w][..at] + [t] + old(waits)[w][at..]]
    {
      hide Listed, Marked;
      waits := waits[w := waits[w][..at] + [t] + waits[w][at..]];
      InsertedOnce(old(waits)[w], at, t);
    }

    /** A suspended thread's timer is started. */
    method Arm(t: int)
      requires Valid() && t in stat && stat[t].Suspend?
      modifies this`armed
      ensures Valid() && armed == old(armed) + {t}
    {
      hide Listed, Marked, Parked, Attributed;
      armed := armed + {t};
    }

    /** The locked part of rt_thread_resume, some time after its test of the state: the thread is unlinked from the list
        it is in, be it the defunct list, and its timer stopped. The index, and the state as a whole, stay right exactly
        when that was not a ready list. */
    method ResumeUnlink(t: int)
      requires Valid() && t in stat
      modifies this`ready, this`waits, this`armed, this`defunct
      ensures t in prio && prio[t] < |old(ready)|
      ensures ready == old(ready)[prio[t] := IpcList.Removed(old(ready)[prio[t]], t)]
      ensures waits == Unparked(old(waits), t) && armed == old(armed) - {t}
      ensures defunct == IpcList.Removed(old(defunct), t)
      ensures Index() <==> !OnList(old(ready), t)
      ensures Valid() <==> !OnList(old(ready), t)
    {
      hide Listed, Marked, Parked, Attributed, Windows, Sliced, Unparked, Busy, OnList, IpcList.Removed;
      Known(t);
      ListedAbsent(ready, stat, prio, off, t);
      assert stat[t := stat[t]] == stat;
      UnparkedParked(waits, defunct, stat, t, stat[t]);
      WindowsMoved(stat, off, closing, armed, defunct, t, stat[t], off, closing, armed - {t});
      ListedUnlink(ready, stat, prio, off, t);
      ready := ready[prio[t] := IpcList.Removed(ready[prio[t]], t)];
      waits, defunct := Unparked(waits, t), IpcList.Removed(defunct, t);
      armed := armed - {t};
    }

    /** The thread's timer is off, and it is on no wait list and not on the defunct list. */
    ghost predicate Unlinked(t: int)
      reads this
    {
      t !in armed && t !in defunct && forall v :: v in waits ==> t !in waits[v]
    }

    /** The rest of rt_thread_resume, a critical section of its own. The index stays right exactly when the thread is on
        no ready list by then; the kernel's state as a whole exactly when it is on no other list and has no running
        timer either. */
    method ResumeInsert(t: int)
      requires Valid() && t in stat && t in mask
      modifies this`group, this`table, this`ready, this`stat, this`off
      ensures Index() <==> !OnList(old(ready), t)
      ensures Valid() <==> !OnList(old(ready), t) && Unlinked(t)
      ensures stat == old(stat)[t := Ready] && t in prio && prio[t] < |old(ready)| && off == old(off) - {t}
      ensures ready == old(ready)[prio[t] := old(ready)[prio[t]] + [t]]
    {
      hide Listed, Marked, Parked, Attributed, Windows, Sliced, Unparked, Busy, OnList, IpcList.Removed;
      Known(t);
      SlicedRestate(stat, initTick, remaining, t, Ready);
      Restated(levels, stat, prio, initPrio, mask, t, Ready);
      if Unlinked(t) {
        UnparkedParked(waits, defunct, stat, t, Ready);
        NotParked(waits, t);
        WindowsMoved(stat, off, closing, armed, defunct, t, Ready, off - {t}, closing, armed);
      } else {
        StillLinked(stat, off - {t}, closing, armed, waits, defunct, t, Ready);
      }
      InsertThread(t);
    }

    /** rt_thread_resume under its caller's lock: off its wait list, onto the end of its ready list. */
    method Resume(t: int) returns (ok: bool)
      requires Valid() && t in stat
      modifies this`group, this`table, this`ready, this`stat, this`off, this`waits, this`armed, this`defunct
      ensures Valid() && (ok <==> old(stat)[t].Suspend?)
      ensures !ok ==> unchanged(this)
      ensures ok ==>
        && stat == old(stat)[t := Ready] && waits == Unparked(old(waits), t) && t in prio && prio[t] < |old(ready)|
        && ready == old(ready)[prio[t] := old(ready)[prio[t]] + [t]]
        && off == old(off) - {t} && armed == old(armed) - {t} && defunct == old(defunct)
    {
      if !stat[t].Suspend? {
        return false;
      }
      Relinked(t);
      Known(t);
      GoneFrom(waits, t);
      hide Listed, Marked, Parked, Attributed, OnList, Windows, Unparked, IpcList.Removed;
      ResumeUnlink(t);
      ResumeInsert(t);
      ok := true;
    }

    lemma Relinked(t: int)
      requires Valid() && t in stat && stat[t].Suspend?
      ensures !OnList(ready, t) && t in prio && prio[t] < |ready| && t in mask && mask[t] == prio[t]
      ensures IpcList.Removed(ready[prio[t]], t) == ready[prio[t]] && ready[prio[t] := ready[prio[t]]] == ready
    {
      ListedAbsent(ready, stat, prio, off, t);
      IpcList.RemovedAbsent(ready[prio[t]], t);
    }

    /** rt_thread_timeout, inside the timer check: the timer of a suspended thread fires. */
    method Timeout(t: int)
      requires Valid() && t in armed
      modifies this`group, this`table, this`ready, this`stat, this`off, this`waits, this`armed,
          this`defunct, this`current
      ensures Valid() && stat == old(stat)[t := Ready] && off == old(off) - {t} && waits == Unparked(old(waits), t)
      ensures t in prio && prio[t] < |old(ready)|
      ensures ready == old(ready)[prio[t] := old(ready)[prio[t]] + [t]]
      ensures armed == old(armed) - {t} && defunct == old(defunct)
      ensures lockNest == 0 ==> RunsTop()
    {
      assert t in stat && stat[t].Suspend?;
      hide Listed, Marked, Parked, Attributed, Windows;
      var ok := Resume(t);
      Schedule();
    }

    /** The unlocked beginning of rt_thread_startup: initial priority, its masks, and the state that can be resumed. */
    method StartupBegin(t: int)
      requires Valid() && t in stat && stat[t].Init?
      modifies this`stat, this`prio, this`mask
      ensures Valid() && stat == old(stat)[t := Suspend] && prio == old(prio)[t := initPrio[t]]
      ensures mask == old(mask)[t := initPrio[t]]
    {
      hide Listed, Marked, Parked, Attributed, Windows, Sliced, Unparked, Busy, OnList, IpcList.Removed;
      Known(t);
      WindowsMoved(stat, off, closing, armed, defunct, t, Suspend, off, closing, armed);
      SlicedRestate(stat, initTick, remaining, t, Suspend);
      NotDefunct(waits, defunct, stat, t);
      UnparkedParked(waits, defunct, stat, t, Suspend);
      NotParked(waits, t);
      ListedAside(ready, stat, prio, off, t, initPrio[t], Suspend);
      Reattributed(levels, stat, prio, initPrio, mask, t, initPrio[t]);
      Restated(levels, stat, prio[t := initPrio[t]], initPrio, mask[t := initPrio[t]], t, Suspend);
      prio := prio[t := initPrio[t]];
      mask := mask[t := prio[t]];
      stat := stat[t := Suspend];
    }

    /** rt_thread_startup without interruption. */
    method Startup(t: int)
      requires Valid() && t in stat && stat[t].Init?
      modifies this`group, this`table, this`ready, this`stat, this`prio, this`mask, this`off, this`waits, this`armed,
          this`defunct, this`current
      ensures Valid() && stat == old(stat)[t := Ready] && prio == old(prio)[t := initPrio[t]] && prio[t] < |old(ready)|
      ensures ready == old(ready)[prio[t] := old(ready)[prio[t]] + [t]] && defunct == old(defunct)
      ensures off == old(off) - {t} && armed == old(armed) - {t} && waits == Unparked(old(waits), t)
      ensures lockNest == 0 ==> RunsTop()
    {
      hide Listed, Marked, Parked, Attributed, Unparked, Windows;
      StartupBegin(t);
      var ok := Resume(t);
      assert stat == old(stat)[t := Ready];
      Schedule();
    }

    /** rt_thread_control(RT_THREAD_CTRL_CHANGE_PRIORITY), one critical section: a ready thread is inserted at the end
        of its new list, even if it had just been taken off its old one. */
    method ChangePriority(t: int, p: nat)
      requires Valid() && t in stat && p < levels
      modifies this`group, this`table, this`ready, this`stat, this`prio, this`mask, this`off, this`waits,
          this`defunct
      ensures Valid() && stat == old(stat) && prio == old(prio)[t := p] && p < |old(ready)| && t in old(prio)
      ensures defunct == old(defunct) && old(prio)[t] < |old(ready)|
      ensures if stat[t].Ready? then
                && ready == Relisted(old(ready), old(prio)[t], p, t)
                && off == old(off) - {t} && waits == Unparked(old(waits), t)
              else ready == old(ready) && off == old(off) && waits == old(waits)
    {
      if stat[t].Ready? {
        MoveLevel(t, p);
      } else {
        ListedAside(ready, stat, prio, off, t, p, stat[t]);
        assert stat[t := stat[t]] == stat;
        hide Listed, Marked, Parked;
        prio := prio[t := p];
        mask := mask[t := p];
      }
    }

    /** Remove, change the priority and its masks, insert again. */
    method MoveLevel(t: int, p: nat)
      requires Valid() && t in stat && stat[t].Ready? && p < levels
      modifies this`group, this`table, this`ready, this`stat, this`prio, this`mask, this`off, this`waits,
          this`defunct
      ensures Valid() && stat == old(stat) && prio == old(prio)[t := p] && off == old(off) - {t}
      ensures waits == Unparked(old(waits), t) && defunct == old(defunct)
      ensures t in old(prio) && old(prio)[t] < |old(ready)| && p < |old(ready)|
      ensures ready == Relisted(old(ready), old(prio)[t], p, t)
    {
      hide Marked, Parked, Listed, Attributed, Unparked;
      Reattributed(levels, stat, prio, initPrio, mask, t, p);
      Known(t);
      assert Parked(Unparked(waits, t), defunct, stat) by {
        UnparkedParked(waits, defunct, stat, t, Ready);
        assert stat[t := Ready] == stat;
      }
      Relist(t, p);
      assert stat == old(stat);
    }

    method Relist(t: int, p: nat)
      requires Index() && t in stat && stat[t].Ready? && t in prio && prio[t] < levels && t in mask
      requires mask[t] == prio[t] && p < levels
      modifies this`group, this`table, this`ready, this`stat, this`prio, this`mask, this`off, this`waits,
          this`defunct
      ensures Index() && stat == old(stat)[t := Ready] && prio == old(prio)[t := p] && mask == old(mask)[t := p]
      ensures off == old(off) - {t}
      ensures waits == Unparked(old(waits), t) && defunct == IpcList.Removed(old(defunct), t)
      ensures old(prio)[t] < |old(ready)| && p < |old(ready)| && ready == Relisted(old(ready), old(prio)[t], p, t)
    {
      hide Marked, Listed, Unparked, OnList;
      RemoveThread(t);
      ListedMoved(ready, stat, prio, off, t, p);
      prio := prio[t := p];
      mask := mask[t := p];
      InsertThread(t);
      assert off == old(off) - {t};
    }

    /** The section of rt_thread_yield: a ready thread that shares its list goes to the end of it, and then rt_schedule
        is called. */
    method YieldSection() returns (moved: bool)
      requires Valid()
      modifies this`ready
      ensures Valid() && current in prio && prio[current] < |old(ready)|
      ensures moved <==> stat[current].Ready? && current !in off && |old(ready)[prio[current]]| != 1
      ensures var p := prio[current];
        ready == if moved then old(ready)[p := IpcList.Removed(old(ready)[p], current) + [current]] else old(ready)
    {
      var t := current;
      var p := prio[t];
      assert t in ready[p] <==> Belongs(stat, prio, off, t, p);
      moved := stat[t].Ready? && t in ready[p] && |ready[p]| > 1;
      if moved {
        ListedYield(ready, stat, prio, off, t);
        hide Listed, Marked, Parked;
        ready := ready[p := IpcList.Removed(ready[p], t) + [t]];
      }
    }

    /** rt_thread_yield without interruption, as in the tick handler. */
    method Yield()
      requires Valid()
      modifies this`ready, this`current
      ensures Valid()
      ensures old(current) in prio && prio[old(current)] < |old(ready)|
      ensures var (t, p) := (old(current), prio[old(current)]);
        if !stat[t].Ready? || t in off || |old(ready)[p]| == 1 then ready == old(ready) && current == old(current)
        else ready == old(ready)[p := IpcList.Removed(old(ready)[p], t) + [t]] && (lockNest == 0 ==> RunsTop())
    {
      hide Listed, Marked, Parked, Attributed, Windows, Sliced, IpcList.Removed;
      var moved := YieldSection();
      if moved {
        Schedule();
      }
    }

    /** The time slice half of rt_tick_increase. */
    method TickSlice()
      requires Valid()
      modifies this`remaining, this`ready, this`current
      ensures Valid()
      ensures old(current) in prio && prio[old(current)] < |old(ready)| && old(current) in old(remaining)
      ensures var (t, p) := (old(current), prio[old(current)]);
        if old(remaining)[t] > 1 then
          remaining == old(remaining)[t := old(remaining)[t] - 1] && ready == old(ready) && current == t
        else
          && remaining == old(remaining)[t := initTick[t]]
          && (if !stat[t].Ready? || t in off || |old(ready)[p]| == 1 then ready == old(ready) && current == t
              else ready == old(ready)[p := IpcList.Removed(old(ready)[p], t) + [t]] && (lockNest == 0 ==> RunsTop()))
    {
      var t := current;
      if remaining[t] > 1 {
        remaining := remaining[t := remaining[t] - 1];
      } else {
        remaining := remaining[t := initTick[t]];
        Yield();
      }
    }

    ghost function SlicesAt(p: nat): RoundRobin.Slices
      reads this
      requires p < |ready|
    {
      RoundRobin.Slices(ready[p], remaining)
    }

    /** The head of the most urgent list is running, unlocked. */
    ghost predicate Running(p: nat)
      reads this
    {
      lockNest == 0 && p < |ready| && IsTop(p) && ready[p] != [] && current == ready[p][0]
    }

    lemma SlicesFair(p: nat)
      requires Valid() && Running(p)
      ensures RoundRobin.Fair(SlicesAt(p), initTick) && Belongs(stat, prio, off, current, p)
    {
      forall i | 0 <= i < |ready[p]|
        ensures ready[p][i] in initTick && ready[p][i] in remaining
        ensures 1 <= remaining[ready[p][i]] <= initTick[ready[p][i]]
      {
        var t := ready[p][i];
        assert t in ready[p];
      }
      var t := ready[p][0];
      assert t in ready[p];
    }

    /** With only ticks occurring, the kernel does to the most urgent list what round robin says, and its
        head is the running thread: n ticks take it where the function of time has it at n. */
    method RunTicks(n: nat, p: nat)
      requires Valid() && Running(p)
      modifies this`remaining, this`ready, this`current
      ensures Valid() && Running(p)
      ensures RoundRobin.Fair(old(SlicesAt(p)), initTick)
      ensures SlicesAt(p) == RoundRobin.Ticks(old(SlicesAt(p)), initTick, n)
      ensures forall i :: 0 <= i < |old(ready)[p]| && n == RoundRobin.Ahead(old(SlicesAt(p)), i) ==>
          current == old(ready)[p][i]
    {
      SlicesFair(p);
      ghost var s := SlicesAt(p);
      var k := 0;
      while k < n
        invariant 0 <= k <= n && Valid() && Running(p)
        invariant SlicesAt(p) == RoundRobin.Ticks(s, initTick, k)
      {
        RoundRobin.TicksAdd(s, initTick, k, 1);
        OneTick(p);
        k := k + 1;
      }
      forall i | 0 <= i < |old(ready)[p]| && n == RoundRobin.Ahead(s, i) ensures current == old(ready)[p][i] {
        RoundRobin.TurnComes(s, initTick, i);
      }
    }

    method OneTick(p: nat)
      requires Valid() && Running(p)
      modifies this`remaining, this`ready, this`current
      ensures Valid() && Running(p)
      ensures RoundRobin.Fair(old(SlicesAt(p)), initTick)
      ensures SlicesAt(p) == RoundRobin.Ticks(old(SlicesAt(p)), initTick, 1)
    {
      SlicesFair(p);
      ghost var s := SlicesAt(p);
      RoundRobin.TickFair(s, initTick);
      assert RoundRobin.Ticks(s, initTick, 1) == RoundRobin.Ticks(RoundRobin.Tick(s, initTick), initTick, 0);
      RotateHead(ready[p]);
      hide Listed, Marked, Parked, Attributed, RoundRobin.Fair;
      TickSlice();
      assert Busy(ready) == Busy(old(ready));
    }

    // ---------------------------------------------------------------- rt_thread_delete and rt_thread_detach, in steps

    /** The first section: off the list it is in, unless it was never started. */
    method CloseBegin(t: int)
      requires Valid() && t in stat && t != idle && !stat[t].Close? && t !in closing
      modifies this`group, this`table, this`ready, this`stat, this`off, this`waits, this`closing, this`defunct
      ensures Valid() && stat == old(stat) && defunct == old(defunct) && closing == old(closing) + {t}
      ensures t in prio && prio[t] < |old(ready)|
      ensures if stat[t].Init? then ready == old(ready) && waits == old(waits)
              else
                && ready == old(ready)[prio[t] := IpcList.Removed(old(ready)[prio[t]], t)]
                && waits == Unparked(old(waits), t)
      ensures !OnList(ready, t) && forall v :: v in waits ==> t !in waits[v]
    {
      hide Listed, Marked, Parked, Attributed, Windows, Sliced, Unparked, Busy, OnList, IpcList.Removed;
      Known(t);
      assert stat[t := stat[t]] == stat;
      UnparkedParked(waits, defunct, stat, t, stat[t]);
      ghost var off' := if stat[t].Ready? then off + {t} else off - {t};
      WindowsMoved(stat, off, closing, armed, defunct, t, stat[t], off', closing + {t}, armed);
      if !stat[t].Init? {
        GoneFrom(waits, t);
        TakeOff(t, stat[t]);
      }
      assert off == off';
      ListedAbsent(ready, stat, prio, off, t);
      closing := closing + {t};
    }

    /** rt_timer_detach of the thread's timer. */
    method CloseTimer(t: int)
      requires Valid() && t in closing
      modifies this`armed
      ensures Valid() && armed == old(armed) - {t}
    {
      hide Listed, Marked, Parked, Attributed, Windows, Sliced, Unparked, Busy, OnList, IpcList.Removed;
      Known(t);
      assert stat[t := stat[t]] == stat;
      WindowsMoved(stat, off, closing, armed, defunct, t, stat[t], off, closing, armed - {t});
      armed := armed - {t};
    }

    /** The store of the closed state, outside of any lock. The index stays right exactly when the thread is on no ready
        list by then; the kernel's state as a whole exactly when nobody has made it wait again either. */
    method CloseMark(t: int)
      requires Valid() && t in closing
      modifies this`stat, this`off
      ensures stat == old(stat)[t := Close] && off == old(off) - {t}
      ensures Index() <==> !OnList(ready, t)
      ensures Valid() <==> !OnList(ready, t) && Unlinked(t)
    {
      hide Listed, Marked, Parked, Attributed, Windows, Sliced, Unparked, Busy, OnList, IpcList.Removed;
      Known(t);
      ListedClose(ready, stat, prio, off, t);
      SlicedRestate(stat, initTick, remaining, t, Close);
      Restated(levels, stat, prio, initPrio, mask, t, Close);
      if Unlinked(t) {
        UnparkedParked(waits, defunct, stat, t, Close);
        NotParked(waits, t);
        WindowsMoved(stat, off, closing, armed, defunct, t, Close, off - {t}, closing, armed);
      } else {
        StillLinked(stat, off - {t}, closing, armed, waits, defunct, t, Close);
      }
      stat, off := stat[t := Close], off - {t};
    }

    /** The last section: onto the defunct list, or, for a detached thread without a cleanup function, just done. The
        state stays right exactly when no suspend has overwritten the closed state. */
    method CloseEnd(t: int, toDefunct: bool)
      requires Valid() && t in closing && t !in off
      modifies this`defunct, this`closing
      ensures closing == old(closing) - {t} && defunct == if toDefunct then [t] + old(defunct) else old(defunct)
      ensures Index() && (Valid() <==> (toDefunct ==> stat[t].Close?))
    {
      Known(t);
      if stat[t].Close? { Defuncted(waits, defunct, stat, t); }
      assert toDefunct && !stat[t].Close? ==> t in [t] + defunct && !Parked(waits, [t] + defunct, stat);
      hide Marked, Listed, Parked, Attributed;
      closing := closing - {t};
      if toDefunct {
        defunct := [t] + defunct;
      }
    }

    // ---------------------------------------------------------------- what may happen inside a deletion

    ghost function FateOf(t: int): Fate
      reads this
      requires t in stat
    {
      Fate(stat[t], t in armed, OnList(ready, t))
    }

    /** One event does to the thread what `After` says. */
    method Interrupt(t: int, event: Event)
      requires Valid() && t in closing && t in stat && !stat[t].Close? && Apart(t) && Allowed(event, levels)
      modifies this`group, this`table, this`ready, this`stat, this`prio, this`mask, this`off, this`waits, this`armed,
          this`defunct, this`current
      ensures Valid() && closing == old(closing) && defunct == old(defunct) && Apart(t)
      ensures t in stat && !stat[t].Close? && stat == old(stat)[t := stat[t]]
      ensures FateOf(t) == After(old(FateOf(t)), event)
      ensures event.Reprioritised? ==> prio == old(prio)[t := event.level]
    {
      hide Listed, Marked, Parked, Attributed, Windows, Sliced, Unparked, Busy, OnList, IpcList.Removed, RunsTop;
      Known(t);
      GoneFrom(waits, t);
      assert stat == stat[t := stat[t]];
      match event {
        case Ticked =>
          if t in armed { Timeout(t); }
        case Resumed =>
          var ok := Resume(t);
        case Started =>
          if stat[t].Init? { Startup(t); }
        case Reprioritised(p) =>
          ChangePriority(t, p);
        case Suspended =>
          var ok := SuspendThread(t);
      }
      Known(t);
    }

    /** The thread is on no wait list. */
    ghost predicate Apart(t: int)
      reads this
    {
      forall v :: v in waits ==> t !in waits[v]
    }

    method InterruptAll(t: int, events: seq<Event>)
      requires Valid() && t in closing && t in stat && !stat[t].Close? && Apart(t)
      requires forall e :: e in events ==> Allowed(e, levels)
      modifies this`group, this`table, this`ready, this`stat, this`prio, this`mask, this`off, this`waits, this`armed,
          this`defunct, this`current
      ensures Valid() && closing == old(closing) && defunct == old(defunct) && Apart(t)
      ensures t in stat && !stat[t].Close? && stat == old(stat)[t := stat[t]]
      ensures FateOf(t) == AfterAll(old(FateOf(t)), events)
      decreases |events|
    {
      hide Valid, Apart, FateOf, After;
      if events != [] {
        Interrupt(t, events[0]);
        InterruptAll(t, events[1..]);
      }
      assert stat == old(stat)[t := stat[t]];
    }

    /** The two gaps of a deletion, with the end of the timer between them. */
    method CloseGaps(t: int, first: seq<Event>, second: seq<Event>)
      requires Valid() && t in closing && t in stat && !stat[t].Close? && Apart(t)
      requires forall e :: e in first + second ==> Allowed(e, levels)
      modifies this`group, this`table, this`ready, this`stat, this`prio, this`mask, this`off, this`waits, this`armed,
          this`defunct, this`current
      ensures Valid() && closing == old(closing) && defunct == old(defunct) && Apart(t) && t !in armed
      ensures t in stat && stat == old(stat)[t := stat[t]]
      ensures FateOf(t) == AfterAll(AfterAll(old(FateOf(t)), first).(armed := false), second)
    {
      hide Valid, AfterAll, OnList;
      assert forall e :: e in first ==> e in first + second;
      InterruptAll(t, first);
      CloseTimer(t);
      assert forall e :: e in second ==> e in first + second;
      InterruptAll(t, second);
      UnarmedStays(old(FateOf(t)), first, second);
      assert stat == old(stat)[t := stat[t]];
    }

    /** A deletion with any events in its two gaps: before and after its timer is stopped. Whether it leaves the index
        right can be told from the thread's state, its timer and the events. */
    method DeleteAmong(t: int, first: seq<Event>, second: seq<Event>, toDefunct: bool)
      requires Valid() && t in stat && t != idle && !stat[t].Close? && t !in closing
      requires forall e :: e in first + second ==> Allowed(e, levels)
      modifies this`group, this`table, this`ready, this`stat, this`prio, this`mask, this`off, this`waits, this`armed,
          this`closing, this`defunct, this`current
      ensures t in stat && stat[t].Close?
      ensures var revived := Survivor(old(stat)[t], t in old(armed), first, second).listed;
        && (Index() <==> !revived) && (OnList(ready, t) <==> revived)
        && (!revived ==>
              && Valid() && stat == old(stat)[t := Close] && closing == old(closing)
              && defunct == if toDefunct then [t] + old(defunct) else old(defunct))
    {
      hide Valid, Index, RunsTop, AfterAll, OnList, Unparked, IpcList.Removed;
      Known(t);
      var revived := Survivor(stat[t], t in armed, first, second).listed;
      CloseBegin(t);
      CloseGaps(t, first, second);
      Known(t);
      CloseMark(t);
      if !revived {
        CloseEnd(t, toDefunct);
        Known(t);
      }
    }

    /** The same under the caller's lock, as rt_thread_exit does it. */
    method CloseUnderLock(t: int, toDefunct: bool)
      requires Valid() && t in stat && t != idle && !stat[t].Close? && t !in closing
      modifies this`group, this`table, this`ready, this`stat, this`off, this`waits, this`armed, this`closing,
          this`defunct
      ensures Valid() && stat == old(stat)[t := Close] && !OnList(ready, t) && closing == old(closing)
      ensures armed == old(armed) - {t}
      ensures defunct == if toDefunct then [t] + old(defunct) else old(defunct)
    {
      hide Valid, Index, RunsTop, Listed, Marked, Parked, Attributed, Windows, Sliced, Unparked, Busy, OnList,
          IpcList.Removed;
      Known(t);
      CloseBegin(t);
      CloseTimer(t);
      CloseMark(t);
      CloseEnd(t, toDefunct);
    }

    /** rt_thread_exit: the running thread closes itself in one section and then, if nothing comes in between, gives
        way. */
    method Exit(toDefunct: bool)
      requires Valid() && stat[current].Ready? && current != idle && current !in closing
      modifies this`group, this`table, this`ready, this`stat, this`off, this`waits, this`armed, this`closing,
          this`defunct, this`current
      ensures Valid() && stat == old(stat)[old(current) := Close]
      ensures lockNest == 0 ==> RunsTop() && current != old(current)
    {
      var t := current;
      CloseUnderLock(t, toDefunct);
      hide Listed, Marked, Parked;
      Schedule();
      assert lockNest == 0 ==> forall q :: 0 <= q < |ready| && ready[q] != [] && ready[q][0] == t ==> t in ready[q];
    }

    method EnterCritical()
      requires Valid()
      modifies this`lockNest
      ensures Valid() && lockNest == old(lockNest) + 1
    {
      lockNest := lockNest + 1;
    }

    /** The section of rt_exit_critical: after the last unlock rt_schedule is called. */
    method UnlockSection() returns (last: bool)
      requires Valid()
      modifies this`lockNest
      ensures Valid() && lockNest == (if old(lockNest) <= 1 then 0 else old(lockNest) - 1)
      ensures last <==> lockNest == 0
    {
      lockNest := lockNest - 1;
      last := lockNest <= 0;
      if last {
        lockNest := 0;
      }
    }

    /** rt_exit_critical without interruption. */
    method ExitCritical()
      requires Valid()
      modifies this`lockNest, this`current
      ensures Valid() && lockNest == (if old(lockNest) <= 1 then 0 else old(lockNest) - 1)
      ensures lockNest == 0 ==> RunsTop()
    {
      var last := UnlockSection();
      if last {
        Schedule();
      }
    }
  }

  // ---------------------------------------------------------------- deletion and what may come in between

  /** What other threads and the tick may do to a thread, each without interruption. */
  datatype Event = Ticked | Resumed | Started | Reprioritised(level: nat) | Suspended

  predicate Allowed(event: Event, levels: nat) {
    event.Reprioritised? ==> event.level < levels
  }

  /** A thread as its deletion sees it: its state, whether its timer runs and whether it is on a ready list. */
  datatype Fate = Fate(stat: Stat, armed: bool, listed: bool)

  function After(f: Fate, event: Event): Fate {
    match event
    case Ticked => if f.armed then Fate(Ready, false, true) else f
    case Resumed => if f.stat.Suspend? then Fate(Ready, false, true) else f
    case Started => if f.stat.Init? then Fate(Ready, false, true) else f
    case Reprioritised(p) => if f.stat.Ready? then f.(listed := true) else f
    case Suspended => if f.stat.Ready? then Fate(Suspend, false, false) else f
  }

  function AfterAll(f: Fate, events: seq<Event>): Fate
    decreases |events|
  {
    if events == [] then f else AfterAll(After(f, events[0]), events[1..])
  }

  /** The thread when it is marked closed: taken off its list, then the events of the first gap, then its timer is
      stopped, then the events of the second. */
  function Survivor(stat: Stat, armed: bool, first: seq<Event>, second: seq<Event>): Fate {
    AfterAll(AfterAll(Fate(stat, armed, false), first).(armed := false), second)
  }

  /** No event starts a timer. */
  lemma {:induction false} StaysUnarmed(f: Fate, events: seq<Event>)
    requires !f.armed
    ensures !AfterAll(f, events).armed
    decreases |events|
  {
    if events != [] { StaysUnarmed(After(f, events[0]), events[1..]); }
  }

  lemma UnarmedStays(f: Fate, first: seq<Event>, second: seq<Event>)
    ensures !AfterAll(AfterAll(f, first).(armed := false), second).armed
  {
    StaysUnarmed(AfterAll(f, first).(armed := false), second);
  }

  /** The event that puts the thread back on a ready list. */
  predicate Revives(event: Event, f: Fate) {
    match event
    case Ticked => f.armed
    case Resumed => f.stat.Suspend?
    case Started => f.stat.Init?
    case Reprioritised(p) => f.stat.Ready?
    case Suspended => false
  }

  /** The i-th event revived the thread, and no suspend followed. */
  predicate Revival(f: Fate, events: seq<Event>, i: int)
    requires 0 <= i < |events|
  {
    Revives(events[i], AfterAll(f, events[..i])) && Suspended !in events[i + 1..]
  }

  /** A thread that is off its list ends up on a ready list exactly when some event revives it and no suspend
      follows. */
  lemma {:induction false} LastRevival(f: Fate, events: seq<Event>)
    requires !f.listed
    ensures AfterAll(f, events).listed <==> exists i :: 0 <= i < |events| && Revival(f, events, i)
    ensures AfterAll(f, events).listed ==> AfterAll(f, events).stat.Ready?
    decreases |events|
  {
    hide AfterAll, Revival;
    if events == [] {
      AfterNone(f);
    } else {
      var m := |events| - 1;
      var front, last := events[..m], events[m];
      assert events == front + [last];
      AfterSnoc(f, front, last);
      LastRevival(f, front);
      forall i | 0 <= i < m ensures Revival(f, events, i) <==> Revival(f, front, i) && last != Suspended {
        RevivalSnoc(f, front, last, i);
      }
      RevivalLast(f, front, last);
    }
  }

  lemma AfterNone(f: Fate)
    ensures AfterAll(f, []) == f
  {
  }

  lemma RevivalSnoc(f: Fate, front: seq<Event>, last: Event, i: nat)
    requires i < |front|
    ensures Revival(f, front + [last], i) <==> Revival(f, front, i) && last != Suspended
  {
    hide AfterAll;
    var events := front + [last];
    assert events[..i] == front[..i] && events[i + 1..] == front[i + 1..] + [last];
  }

  lemma RevivalLast(f: Fate, front: seq<Event>, last: Event)
    ensures Revival(f, front + [last], |front|) <==> Revives(last, AfterAll(f, front))
  {
    hide AfterAll;
    assert (front + [last])[..|front|] == front && (front + [last])[|front| + 1..] == [];
  }

  lemma {:induction false} AfterSnoc(f: Fate, events: seq<Event>, e: Event)
    ensures AfterAll(f, events + [e]) == After(AfterAll(f, events), e)
    decreases |events|
  {
    if events == [] {
      assert ([e])[1..] == [];
    } else {
      assert (events + [e])[1..] == events[1..] + [e];
      AfterSnoc(After(f, events[0]), events[1..], e);
    }
  }

  /** No state is safe: for every thread that may be deleted there is an event that leaves it on a ready list. */
  lemma NoStateIsSafe(stat: Stat, armed: bool)
    requires !stat.Close?
    ensures exists e :: Survivor(stat, armed, [], [e]).listed
  {
    var e := match stat case Init => Started case Ready => Reprioritised(0) case Suspend => Resumed;
    var f := Fate(stat, armed, false);
    assert AfterAll(f, []) == f && ([e])[1..] == [];
    assert AfterAll(f.(armed := false), [e]) == AfterAll(After(f.(armed := false), e), []);
    assert Survivor(stat, armed, [], [e]).listed;
  }

  /** A kernel with one thread besides the idle thread, just started. */
  method Starter() returns (k: Kernel)
    ensures fresh(k) && k.Valid() && k.idle == 0 && k.levels == 32 && k.closing == {}
    ensures 1 in k.stat && k.stat[1].Ready?
  {
    hide Kernel.Valid, Kernel.RunsTop, Kernel.Index, OnList, Unparked, IpcList.Removed;
    k := new Kernel(32, 0, 31, 10);
    k.CreateThread(1, 5, 10);
    k.Startup(1);
  }

  /** A thread that was started, suspended itself and armed its timer. */
  method Sleeper() returns (k: Kernel)
    ensures fresh(k) && k.Valid() && k.idle == 0 && 1 in k.stat && k.stat[1].Suspend? && 1 in k.armed
    ensures k.closing == {} && k.levels == 32
  {
    hide Kernel.Valid, Kernel.RunsTop, Kernel.Index, OnList, Unparked, IpcList.Removed;
    k := Starter();
    var ok := k.SuspendThread(1);
    k.Arm(1);
  }

  /** A suspended thread whose timer runs is deleted, and a tick falls into the deletion: a closed thread on a ready
      list. */
  method DeleteStruck() returns (k: Kernel)
    ensures fresh(k) && 1 in k.stat && k.stat[1].Close? && OnList(k.ready, 1) && !k.Index()
  {
    hide Kernel.Valid, Kernel.Index, OnList;
    k := Sleeper();
    assert ([Ticked])[1..] == [];
    k.DeleteAmong(1, [Ticked], [], true);
  }

  /** The same with a resume after the timer was stopped. */
  method DeleteResumed() returns (k: Kernel)
    ensures fresh(k) && 1 in k.stat && k.stat[1].Close? && OnList(k.ready, 1) && !k.Index()
  {
    hide Kernel.Valid, Kernel.Index, OnList;
    k := Sleeper();
    assert ([Resumed])[1..] == [];
    k.DeleteAmong(1, [], [Resumed], true);
  }

  /** A suspend that tested the state while the thread was ready goes on after the thread was marked closed: a suspended
      thread ends up on the defunct list. */
  method SuspendedLate() returns (k: Kernel)
    ensures fresh(k) && 1 in k.stat && k.stat[1].Suspend? && 1 in k.defunct && !k.Valid()
  {
    hide Kernel.Valid, Kernel.RunsTop, Kernel.Index, OnList, Unparked, IpcList.Removed;
    k := Starter();
    k.Known(1);
    k.CloseBegin(1);
    k.CloseTimer(1);
    k.Known(1);
    k.CloseMark(1);
    k.SuspendSection(1);
    k.CloseEnd(1, true);
  }

  /** A thread is resumed between the two sections of another resume: it is on its ready list twice. */
  method ResumedTwice() returns (k: Kernel)
    ensures fresh(k) && !k.Index()
  {
    hide Kernel.Valid, Kernel.Index, OnList, Unparked, IpcList.Removed;
    k := Sleeper();
    k.Known(1);
    k.ResumeUnlink(1);
    var ok := k.Resume(1);
    k.Known(1);
    k.ResumeInsert(1);
  }

  /** Unlinking a thread from a ready list without looking at its state leaves a thread that belongs on it. */
  lemma ListedUnlink(ready: seq<seq<int>>, stat: Stats, prio: Levels, off: set<int>, t: int)
    requires Listed(ready, stat, prio, off) && t in stat && t in prio && prio[t] < |ready|
    ensures var ready' := ready[prio[t] := IpcList.Removed(ready[prio[t]], t)];
      && (Listed(ready', stat, prio, off) <==> !OnList(ready, t)) && (!OnList(ready, t) ==> ready' == ready)
  {
    ListedAbsent(ready, stat, prio, off, t);
    var ready' := ready[prio[t] := IpcList.Removed(ready[prio[t]], t)];
    if OnList(ready, t) {
      assert t !in ready'[prio[t]] && Belongs(stat, prio, off, t, prio[t]);
    } else {
      IpcList.RemovedAbsent(ready[prio[t]], t);
    }
  }

  /** Closing a thread: right exactly when it is on no list. */
  lemma ListedClose(ready: seq<seq<int>>, stat: Stats, prio: Levels, off: set<int>, t: int)
    requires Listed(ready, stat, prio, off) && t in stat && t in prio && prio[t] < |ready|
    ensures Listed(ready, stat[t := Close], prio, off - {t}) <==> !OnList(ready, t)
  {
    ListedAbsent(ready, stat, prio, off, t);
    if OnList(ready, t) {
      assert t in ready[prio[t]] && !Belongs(stat[t := Close], prio, off - {t}, t, prio[t]);
    } else {
      ListedRestate(ready, stat, prio, off, t, Close, off - {t});
    }
  }

  /** A thread that is on no list may change its level. */
  lemma ListedMoved(ready: seq<seq<int>>, stat: Stats, prio: Levels, off: set<int>, t: int, p: nat)
    requires Listed(ready, stat, prio, off) && t in stat && t in off && p < |ready|
    ensures Listed(ready, stat, prio[t := p], off) && !OnList(ready, t)
  {
    forall q, u | 0 <= q < |ready| ensures u in ready[q] <==> Belongs(stat, prio[t := p], off, u, q) {
      assert u in ready[q] <==> Belongs(stat, prio, off, u, q);
    }
  }

  /** A thread with a running timer, or still on a wait list or the defunct list, cannot get just any state. */
  lemma StillLinked(stat: Stats, off: set<int>, closing: set<int>, armed: set<int>, waits: map<int, seq<int>>,
                    defunct: seq<int>, t: int, s: Stat)
    requires t in armed || t in defunct || exists v :: v in waits && t in waits[v]
    requires s.Ready? || (s.Close? && t !in defunct)
    ensures !(Windows(stat[t := s], off, closing, armed, defunct) && Parked(waits, defunct, stat[t := s]))
  {
  }

  /** A thread moves on in its operation; the others stay where they are. */
  lemma WindowsMoved(stat: Stats, off: set<int>, closing: set<int>, armed: set<int>, defunct: seq<int>, t: int,
                     s: Stat, off': set<int>, closing': set<int>, armed': set<int>)
    requires Windows(stat, off, closing, armed, defunct) && t in stat
    requires off' - {t} <= off && closing' + {t} >= closing && closing' <= closing + {t} && armed' - {t} <= armed
    requires t in off' ==> s.Ready? && t in closing'
    requires t in armed' ==> s.Suspend?
    requires t in closing' ==> t !in defunct
    ensures Windows(stat[t := s], off', closing', armed', defunct)
    ensures Windows(stat[t := s], off', closing', armed', IpcList.Removed(defunct, t))
  {
    forall u | u in off' ensures u in stat[t := s] && stat[t := s][u].Ready? && u in closing' {
      if u != t { assert u in off' - {t}; assert u in closing' + {t}; }
    }
    forall u | u in armed' ensures u in stat[t := s] && stat[t := s][u].Suspend? {
      if u != t { assert u in armed' - {t}; }
    }
  }

  lemma AddedThread(levels: nat, stat: Stats, prio: Levels, initPrio: Levels, mask: Levels, waits: map<int, seq<int>>,
                    defunct: seq<int>, t: int, p: nat)
    requires Attributed(levels, stat, prio, initPrio, mask) && Parked(waits, defunct, stat) && t !in stat && p < levels
    ensures Attributed(levels, stat[t := Init], prio[t := p], initPrio[t := p], mask)
    ensures Parked(waits, defunct, stat[t := Init])
  {
  }

  lemma AddedAside(stat: Stats, off: set<int>, closing: set<int>, armed: set<int>, defunct: seq<int>,
                   initTick: Levels, remaining: Levels, t: int, tick: nat)
    requires Windows(stat, off, closing, armed, defunct) && Sliced(stat, initTick, remaining) && t !in stat && tick >= 1
    ensures Windows(stat[t := Init], off, closing, armed, defunct)
    ensures Sliced(stat[t := Init], initTick[t := tick], remaining[t := tick])
  {
  }

  lemma SlicedRestate(stat: Stats, initTick: Levels, remaining: Levels, t: int, s: Stat)
    requires Sliced(stat, initTick, remaining) && t in stat
    ensures Sliced(stat[t := s], initTick, remaining)
  {
  }

  /** Only that thread leaves its waiting list; the others stay in their order. */
  lemma OnlyLeaves(waits: map<int, seq<int>>, t: int, w: int)
    requires w in waits && NoDup(waits[w])
    ensures Unparked(waits, t).Keys == waits.Keys
    ensures t !in waits[w] ==> Unparked(waits, t)[w] == waits[w]
    ensures forall i :: 0 <= i < |waits[w]| && waits[w][i] == t ==>
        Unparked(waits, t)[w] == waits[w][..i] + waits[w][i + 1..]
  {
    if t !in waits[w] { IpcList.RemovedAbsent(waits[w], t); }
    forall i | 0 <= i < |waits[w]| && waits[w][i] == t
      ensures Unparked(waits, t)[w] == waits[w][..i] + waits[w][i + 1..]
    {
      IpcList.RemovedAt(waits[w], t, i);
    }
  }

  lemma GoneFrom(waits: map<int, seq<int>>, t: int)
    ensures forall v :: v in Unparked(waits, t) ==> t !in Unparked(waits, t)[v]
  {
  }

  lemma Defuncted(waits: map<int, seq<int>>, defunct: seq<int>, stat: Stats, t: int)
    requires Parked(waits, defunct, stat) && t in stat && stat[t].Close? && t !in defunct
    ensures Parked(waits, [t] + defunct, stat)
  {
  }

  lemma NotDefunct(waits: map<int, seq<int>>, defunct: seq<int>, stat: Stats, t: int)
    requires Parked(waits, defunct, stat) && t in stat && !stat[t].Close?
    ensures t !in defunct
  {
  }

  /** Moving a thread to the end of its list. */
  lemma ListedYield(ready: seq<seq<int>>, stat: Stats, prio: Levels, off: set<int>, t: int)
    requires Listed(ready, stat, prio, off) && t in stat && t in prio && prio[t] < |ready| && t in ready[prio[t]]
    ensures var p := prio[t];
      && Listed(ready[p := IpcList.Removed(ready[p], t) + [t]], stat, prio, off)
      && Busy(ready[p := IpcList.Removed(ready[p], t) + [t]]) == Busy(ready)
  {
    var p := prio[t];
    assert Belongs(stat, prio, off, t, p);
    ListedRemove(ready, stat, prio, off, t);
    var ready1 := ready[p := IpcList.Removed(ready[p], t)];
    ListedAbsent(ready1, stat, prio, off + {t}, t);
    ListedInsert(ready1, stat, prio, off + {t}, t);
    assert stat[t := Ready] == stat && off + {t} - {t} == off;
    assert ready1[p := ready1[p] + [t]] == ready[p := IpcList.Removed(ready[p], t) + [t]];
  }

  lemma RotateHead(list: seq<int>)
    requires list != [] && NoDup(list)
    ensures IpcList.Removed(list, list[0]) + [list[0]] == list[1..] + [list[0]]
  {
    IpcList.TailMembers(list);
    IpcList.RemovedAbsent(list[1..], list[0]);
  }

  /** An empty table with one thread put into it. */
  lemma FirstThread(wide: bool, levels: nat, t: int, p: nat)
    requires p < levels <= 256 && (wide <==> levels > 32)
    ensures var ready := seq(levels, q requires 0 <= q => if q == p then [t] else []);
      && Listed(ready, map[t := Ready], map[t := p], {}) && Busy(ready) == {p}
    ensures wide ==> p / 8 < 32 && Marked(wide, SetBit(0, p / 8),
        seq(32, n requires 0 <= n => if n == p / 8 then SetBit(0, p % 8) else 0), {p})
    ensures !wide ==> Marked(wide, SetBit(0, p), [], {p})
  {
    var none: set<nat> := {};
    if wide {
      var table := seq(32, n requires 0 <= n => 0);
      forall n, k: nat | 0 <= n < 32 ensures !Bit(table[n], k) { ZeroBit(k); }
      forall n: nat ensures !Bit(0, n) { ZeroBit(n); }
      assert TwoLevel(0, table, none);
      TwoLevelInsert(0, table, none, p);
      assert table[p / 8 := SetBit(0, p % 8)] ==
          seq(32, n requires 0 <= n => if n == p / 8 then SetBit(0, p % 8) else 0);
      assert none + {p} == {p};
    } else {
      forall n: nat ensures !Bit(0, n) { ZeroBit(n); }
      assert Flat(0, none);
      FlatInsert(0, none, p);
      assert none + {p} == {p};
    }
  }

  lemma Restated(levels: nat, stat: Stats, prio: Levels, initPrio: Levels, mask: Levels, t: int, s: Stat)
    requires Attributed(levels, stat, prio, initPrio, mask) && t in stat
    requires s.Ready? || s.Suspend? ==> t in mask
    ensures Attributed(levels, stat[t := s], prio, initPrio, mask)
    ensures t in prio && prio[t] < levels && t in initPrio && initPrio[t] < levels
    ensures t in mask ==> mask[t] == prio[t]
  {
  }

  lemma Reattributed(levels: nat, stat: Stats, prio: Levels, initPrio: Levels, mask: Levels, t: int, p: nat)
    requires Attributed(levels, stat, prio, initPrio, mask) && t in stat && p < levels
    ensures Attributed(levels, stat, prio[t := p], initPrio, mask[t := p])
    ensures t in prio && prio[t] < levels && (stat[t].Ready? || stat[t].Suspend? ==> t in mask && mask[t] == prio[t])
  {
  }

  lemma NotParked(waits: map<int, seq<int>>, t: int)
    requires forall v :: v in waits ==> t !in waits[v]
    ensures Unparked(waits, t) == waits
  {
    forall w | w in waits ensures IpcList.Removed(waits[w], t) == waits[w] {
      IpcList.RemovedAbsent(waits[w], t);
    }
  }

  lemma InsertedOnce(list: seq<int>, at: nat, t: int)
    requires NoDup(list) && t !in list && at <= |list|
    ensures NoDup(list[..at] + [t] + list[at..])
    ensures forall x :: x in list[..at] + [t] + list[at..] <==> x in list || x == t
  {
    assert list == list[..at] + list[at..];
  }

  lemma ListedNew(ready: seq<seq<int>>, stat: Stats, prio: Levels, off: set<int>, t: int, p: nat)
    requires Listed(ready, stat, prio, off) && t !in stat
    ensures Listed(ready, stat[t := Init], prio[t := p], off)
  {
    forall q, u | 0 <= q < |ready| ensures u in ready[q] <==> Belongs(stat[t := Init], prio[t := p], off, u, q) {
      assert u in ready[q] <==> Belongs(stat, prio, off, u, q);
    }
  }

  /** A thread that is not ready may change its priority and state without touching the lists. */
  lemma ListedAside(ready: seq<seq<int>>, stat: Stats, prio: Levels, off: set<int>, t: int, p: nat, s: Stat)
    requires Listed(ready, stat, prio, off) && t in stat && !stat[t].Ready? && !s.Ready?
    ensures Listed(ready, stat[t := s], prio[t := p], off)
  {
    forall q, u | 0 <= q < |ready| ensures u in ready[q] <==> Belongs(stat[t := s], prio[t := p], off, u, q) {
      assert u in ready[q] <==> Belongs(stat, prio, off, u, q);
    }
  }
}
