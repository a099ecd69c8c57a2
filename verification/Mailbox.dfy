/** The mailbox of ipc.c: a ring of 32-bit mails with blocking senders and receivers. Each method is one
    critical section of one thread, so every sequence of calls is an interleaving; timeouts, resets and
    non-blocking calls may fall anywhere in between. */
module Mailbox {
  import opened ChainList
  import opened RingBuffer
  import IpcList

  datatype Role = Sender | Receiver

  /** Where a thread stands inside rt_mb_send_wait or rt_mb_recv; unlisted threads are outside. */
  datatype Op =
    | Waiting(role: Role, mail: int)   // on the suspend list of its role
    | Woken(role: Role, mail: int)     // resumed by a counterpart, has not run yet
    | Failed                           // resumed by a timeout or a reset

  type Ops = map<int, Op>

  datatype Status = Done | Blocked | Refused | Error

  // ---------------------------------------------------------------- one side of the mailbox

  /** The threads of one role: who sleeps, who was resumed, and that no wake-up is lost: while anybody
      sleeps, there are no more units to be had (mails, or free slots) than resumed threads. */
  ghost predicate Side(ops: Ops, role: Role, list: seq<int>, woken: set<int>, units: nat, prio: map<int, int>) {
    && NoDup(list) && IpcList.Known(list, prio)
    && (forall t :: t in list <==> t in ops && ops[t].Waiting? && ops[t].role == role)
    && (forall t :: t in woken <==> t in ops && ops[t].Woken? && ops[t].role == role)
    && (list != [] ==> units <= |woken|)
  }

  /** Thread t has left; the first sleeper of the list was resumed and still has the mail it came with; nobody else
      noticed. */
  ghost predicate Passed(ops: Ops, ops': Ops, t: int, list: seq<int>) {
    && t !in ops'
    && (list != [] ==>
          && list[0] != t && list[0] in ops && ops[list[0]].Waiting? && list[0] in ops'
          && ops'[list[0]].Woken? && ops'[list[0]].role == ops[list[0]].role && ops'[list[0]].mail == ops[list[0]].mail)
    && (forall x :: x != t && (list == [] || x != list[0]) ==>
          (x in ops' <==> x in ops) && (x in ops ==> ops'[x] == ops[x]))
  }

  predicate Plays(ops: Ops, t: int, role: Role) {
    t in ops && !ops[t].Failed? && ops[t].role == role
  }

  /** The first thread of the list, if any, is resumed. */
  function Resumed(ops: Ops, list: seq<int>): Ops
    requires list != [] ==> list[0] in ops && ops[list[0]].Waiting?
  {
    if list == [] then ops else ops[list[0] := Woken(ops[list[0]].role, ops[list[0]].mail)]
  }

  /** Every sleeper is resumed with an error. */
  function AllFailed(ops: Ops): Ops {
    map t | t in ops :: if ops[t].Waiting? then Failed else ops[t]
  }

  lemma FirstWaits(ops: Ops, role: Role, list: seq<int>, woken: set<int>, units: nat, prio: map<int, int>)
    requires Side(ops, role, list, woken, units, prio)
    ensures list != [] ==> list[0] in ops && ops[list[0]].Waiting? && ops[list[0]].role == role
  {
    if list != [] {
      var w := list[0];
      assert w in list;
    }
  }

  lemma LeavesAndWakes(ops: Ops, role: Role, list: seq<int>, woken: set<int>, units: nat, prio: map<int, int>, t: int)
    requires Side(ops, role, list, woken, units, prio) && (t in ops ==> !ops[t].Waiting?)
    ensures list != [] ==> list[0] in ops - {t} && ops[list[0]].Waiting?
    ensures Passed(ops, Resumed(ops - {t}, list), t, list)
  {
    FirstWaits(ops, role, list, woken, units, prio);
  }

  /** One more unit, and the first sleeper resumed for it. */
  lemma SideWake(ops: Ops, role: Role, list: seq<int>, woken: set<int>, units: nat, prio: map<int, int>)
    requires Side(ops, role, list, woken, units, prio)
    ensures list != [] ==> list[0] in ops && ops[list[0]].Waiting? && ops[list[0]].role == role
    ensures Side(Resumed(ops, list), role, IpcList.Rest(list), woken + IpcList.First(list), units + 1, prio)
  {
    FirstWaits(ops, role, list, woken, units, prio);
    assert woken + {} == woken;
    if list != [] {
      var w := list[0];
      assert w !in woken && |woken + {w}| == |woken| + 1;
      IpcList.TailMembers(list);
      assert IpcList.Known(list[1..], prio);
    }
  }

  /** A thread of this role runs and leaves: with a unit, whether it was resumed for it or just came
      along, or without one when there is none. */
  lemma SideRun(ops: Ops, role: Role, list: seq<int>, woken: set<int>, units: nat, prio: map<int, int>, t: int,
                units': nat)
    requires Side(ops, role, list, woken, units, prio) && (t in ops ==> !ops[t].Waiting?)
    requires units' == 0 || units' + 1 == units
    ensures Side(ops - {t}, role, list, woken - {t}, units', prio)
  {
    if t in woken { assert |woken - {t}| == |woken| - 1; } else { assert woken - {t} == woken; }
  }

  /** A thread of this role goes to sleep because there is no unit. */
  lemma SideWait(ops: Ops, role: Role, list: seq<int>, woken: set<int>, prio: map<int, int>, t: int, mail: int,
                 flag: IpcList.Flag)
    requires Side(ops, role, list, woken, 0, prio) && (t in ops ==> !ops[t].Waiting?) && t in prio
    ensures IpcList.Known(list, prio)
    ensures Side(ops[t := Waiting(role, mail)], role, IpcList.Suspended(list, t, prio, flag), woken - {t}, 0, prio)
  {
    IpcList.SuspendedNoDup(list, t, prio, flag);
  }

  /** The other side does not notice what threads of this side do, except that units may vanish. */
  lemma SideOther(ops: Ops, role: Role, list: seq<int>, woken: set<int>, units: nat, prio: map<int, int>, ops': Ops,
                  units': nat)
    requires Side(ops, role, list, woken, units, prio) && units' <= units
    requires forall t :: Plays(ops, t, role) ==> t in ops' && ops'[t] == ops[t]
    requires forall t :: Plays(ops', t, role) ==> t in ops && ops'[t] == ops[t]
    ensures Side(ops', role, list, woken, units', prio)
  {
    assert forall t :: t in ops && ops[t].Waiting? && ops[t].role == role ==> Plays(ops, t, role);
    assert forall t :: t in ops && ops[t].Woken? && ops[t].role == role ==> Plays(ops, t, role);
    assert forall t :: t in ops' && ops'[t].Waiting? && ops'[t].role == role ==> Plays(ops', t, role);
    assert forall t :: t in ops' && ops'[t].Woken? && ops'[t].role == role ==> Plays(ops', t, role);
  }

  lemma OtherLeaves(ops: Ops, role: Role, list: seq<int>, woken: set<int>, units: nat, prio: map<int, int>, t: int)
    requires Side(ops, role, list, woken, units, prio) && (t in ops ==> ops[t].Woken? && ops[t].role != role)
    ensures Side(ops - {t}, role, list, woken, units, prio)
  {
    SideOther(ops, role, list, woken, units, prio, ops - {t}, units);
  }

  lemma OtherWakes(ops: Ops, role: Role, list: seq<int>, woken: set<int>, units: nat, prio: map<int, int>,
                   others: seq<int>)
    requires Side(ops, role, list, woken, units, prio)
    requires others != [] ==> others[0] in ops && ops[others[0]].Waiting? && ops[others[0]].role != role
    ensures Side(Resumed(ops, others), role, list, woken, units, prio)
  {
    SideOther(ops, role, list, woken, units, prio, Resumed(ops, others), units);
  }

  lemma SideKnown(ops: Ops, role: Role, list: seq<int>, woken: set<int>, units: nat, prio: map<int, int>)
    requires Side(ops, role, list, woken, units, prio)
    ensures IpcList.Known(list, prio)
  {
  }

  lemma SideTimeout(ops: Ops, role: Role, list: seq<int>, woken: set<int>, units: nat, prio: map<int, int>, t: int)
    requires Side(ops, role, list, woken, units, prio) && t in ops && ops[t].Waiting? && ops[t].role == role
    ensures Side(ops[t := Failed], role, IpcList.Removed(list, t), woken, units, prio)
  {
    IpcList.RemovedKeeps(list, t, prio);
  }

  /** A thread of role `mine` takes one of its units, which becomes a unit of the other role, and the
      first sleeper of the other role is resumed for it. Both sides keep their invariants. */
  lemma Exchange(ops: Ops, mine: Role, other: Role, listM: seq<int>, wokenM: set<int>, unitsM: nat, listO: seq<int>,
                 wokenO: set<int>, unitsO: nat, prio: map<int, int>, t: int)
    requires mine != other && Side(ops, mine, listM, wokenM, unitsM, prio)
    requires Side(ops, other, listO, wokenO, unitsO, prio)
    requires unitsM > 0 && (t in ops ==> ops[t].Woken? && ops[t].role == mine)
    ensures listO != [] ==> listO[0] in ops - {t} && ops[listO[0]].Waiting?
    ensures Side(Resumed(ops - {t}, listO), mine, listM, wokenM - {t}, unitsM - 1, prio)
    ensures Side(Resumed(ops - {t}, listO), other, IpcList.Rest(listO), wokenO + IpcList.First(listO), unitsO + 1, prio)
  {
    FirstWaits(ops, other, listO, wokenO, unitsO, prio);
    hide Side;
    SideRun(ops, mine, listM, wokenM, unitsM, prio, t, unitsM - 1);
    OtherLeaves(ops, other, listO, wokenO, unitsO, prio, t);
    SideWake(ops - {t}, other, listO, wokenO, unitsO, prio);
    OtherWakes(ops - {t}, mine, listM, wokenM - {t}, unitsM - 1, prio, listO);
  }

  /** A thread of role `mine` finds no unit and goes to sleep. */
  lemma FallAsleep(ops: Ops, mine: Role, other: Role, listM: seq<int>, wokenM: set<int>, listO: seq<int>,
                   wokenO: set<int>, unitsO: nat, prio: map<int, int>, t: int, mail: int, flag: IpcList.Flag)
    requires mine != other && Side(ops, mine, listM, wokenM, 0, prio) && Side(ops, other, listO, wokenO, unitsO, prio)
    requires (t in ops ==> ops[t].Woken? && ops[t].role == mine) && t in prio
    ensures IpcList.Known(listM, prio)
    ensures Side(ops[t := Waiting(mine, mail)], mine, IpcList.Suspended(listM, t, prio, flag), wokenM - {t}, 0, prio)
    ensures Side(ops[t := Waiting(mine, mail)], other, listO, wokenO, unitsO, prio)
  {
    hide Side;
    SideWait(ops, mine, listM, wokenM, prio, t, mail, flag);
    SideOther(ops, other, listO, wokenO, unitsO, prio, ops[t := Waiting(mine, mail)], unitsO);
  }

  /** A thread returns without a unit: with an error, or because there is none. */
  lemma GiveUp(ops: Ops, mine: Role, other: Role, listM: seq<int>, wokenM: set<int>, unitsM: nat, listO: seq<int>,
               wokenO: set<int>, unitsO: nat, prio: map<int, int>, t: int)
    requires mine != other && Side(ops, mine, listM, wokenM, unitsM, prio)
    requires Side(ops, other, listO, wokenO, unitsO, prio)
    requires t in ops && (ops[t].Failed? || (ops[t].Woken? && ops[t].role == mine && unitsM == 0))
    ensures Side(ops - {t}, mine, listM, wokenM - {t}, unitsM, prio)
    ensures Side(ops - {t}, other, listO, wokenO, unitsO, prio)
  {
    if ops[t].Failed? {
      assert wokenM - {t} == wokenM;
      SideOther(ops, mine, listM, wokenM, unitsM, prio, ops - {t}, unitsM);
    } else {
      SideRun(ops, mine, listM, wokenM, unitsM, prio, t, 0);
    }
    SideOther(ops, other, listO, wokenO, unitsO, prio, ops - {t}, unitsO);
  }

  class Mailbox {
    const size: nat
    const flag: IpcList.Flag
    const pool: array<int>     // msg_pool
    var entry: nat
    var inOffset: nat
    var outOffset: nat
    var receivers: seq<int>    // parent.suspend_thread
    var senders: seq<int>      // suspend_sender_thread
    var prio: map<int, int>
    var ops: Ops
    ghost var wokenR: set<int>
    ghost var wokenS: set<int>

    ghost predicate Ring()
      reads this, pool
    {
      && 0 < size == pool.Length && entry <= size && outOffset < size
      && inOffset == Slot(outOffset, entry, size)
    }

    ghost predicate Valid()
      reads this, pool
    {
      && Ring()
      && Side(ops, Receiver, receivers, wokenR, entry, prio)
      && Side(ops, Sender, senders, wokenS, size - entry, prio)
    }

    /** The mails in the order in which they will be received. */
    ghost function Mails(): (r: seq<int>)
      reads this, pool
      requires Ring()
      ensures |r| == entry
    {
      Items(pool[..], outOffset, entry)
    }

    constructor (size: nat, flag: IpcList.Flag, prio: map<int, int>)
      requires 1 <= size <= 65535
      ensures Valid() && Mails() == [] && this.size == size && ops == map[] && fresh(pool)
      ensures this.flag == flag && this.prio == prio && receivers == [] && senders == []
    {
      this.size, this.flag, this.prio := size, flag, prio;
      pool := new int[size];
      entry, inOffset, outOffset, receivers, senders, ops := 0, 0, 0, [], [], map[];
      wokenR, wokenS := {}, {};
    }

    /** The stores of a send that found room. */
    method StoreMail(mail: int)
      requires Ring() && entry < size
      modifies pool, this`entry, this`inOffset
      ensures Ring() && entry == old(entry) + 1 && Mails() == old(Mails()) + [mail]
    {
      PushBack(pool[..], outOffset, entry, mail);
      pool[inOffset] := mail;
      assert pool[..] == old(pool[..])[old(inOffset) := mail];
      inOffset := inOffset + 1;
      if inOffset >= size {
        inOffset := 0;
      }
      entry := entry + 1;
    }

    /** The loads of a receive that found a mail. */
    method FetchMail() returns (mail: int)
      requires Ring() && entry > 0
      modifies this`entry, this`outOffset
      ensures Ring() && entry == old(entry) - 1 && mail == old(Mails())[0] && Mails() == old(Mails())[1..]
    {
      PopFront(pool[..], outOffset, entry);
      mail := pool[outOffset];
      outOffset := outOffset + 1;
      if outOffset >= size {
        outOffset := 0;
      }
      entry := entry - 1;
    }

    /** The end of rt_mb_send_wait: store, leave, resume a receiver. */
    method Put(t: int, mail: int)
      requires Valid() && entry < size && (t in ops ==> ops[t].Woken? && ops[t].role == Sender)
      modifies pool, this`entry, this`inOffset, this`ops, this`receivers, this`wokenR, this`wokenS
      ensures Valid() && Mails() == old(Mails()) + [mail] && Passed(old(ops), ops, t, old(receivers))
      ensures receivers == IpcList.Rest(old(receivers)) && wokenR == old(wokenR) + IpcList.First(old(receivers))
      ensures wokenS == old(wokenS) - {t}
    {
      hide Side, Items, Passed;
      LeavesAndWakes(ops, Receiver, receivers, wokenR, entry, prio, t);
      Exchange(ops, Sender, Receiver, senders, wokenS, size - entry, receivers, wokenR, entry, prio, t);
      StoreMail(mail);
      ops, wokenS := ops - {t}, wokenS - {t};
      ops, receivers, wokenR := Resumed(ops, receivers), IpcList.Rest(receivers), wokenR + IpcList.First(receivers);
    }

    /** The end of rt_mb_recv: fetch, leave, resume a sender. */
    method Take(t: int) returns (mail: int)
      requires Valid() && entry > 0 && (t in ops ==> ops[t].Woken? && ops[t].role == Receiver)
      modifies this`entry, this`outOffset, this`ops, this`senders, this`wokenR, this`wokenS
      ensures Valid() && mail == old(Mails())[0] && Mails() == old(Mails())[1..]
      ensures Passed(old(ops), ops, t, old(senders))
      ensures senders == IpcList.Rest(old(senders)) && wokenS == old(wokenS) + IpcList.First(old(senders))
      ensures wokenR == old(wokenR) - {t}
    {
      hide Side, Items, Passed;
      LeavesAndWakes(ops, Sender, senders, wokenS, size - entry, prio, t);
      Exchange(ops, Receiver, Sender, receivers, wokenR, entry, senders, wokenS, size - entry, prio, t);
      mail := FetchMail();
      ops, wokenR := ops - {t}, wokenR - {t};
      ops, senders, wokenS := Resumed(ops, senders), IpcList.Rest(senders), wokenS + IpcList.First(senders);
    }

    /** rt_mb_send_wait from the start, or again after a resumption: an error ends the call, room stores
        the mail, a full mailbox refuses it or puts the sender to sleep. `wait` is a remaining timeout. */
    method Send(t: int, mail: int, wait: bool) returns (r: Status)
      requires Valid() && t in prio
      requires t in ops ==> ops[t].Failed? || (ops[t].Woken? && ops[t].role == Sender && ops[t].mail == mail)
      modifies this, pool
      ensures Valid() && prio == old(prio)
      ensures r == if old(t in ops && ops[t].Failed?) then Error
                   else if old(entry) < size then Done
                   else if wait then Blocked else Refused
      ensures Mails() == old(Mails()) + (if r.Done? then [mail] else [])
      ensures match r
        case Done => Passed(old(ops), ops, t, old(receivers))
        case Blocked => ops == old(ops)[t := Waiting(Sender, mail)]
        case Refused => ops == old(ops) - {t}
        case Error => ops == old(ops) - {t}
      ensures IpcList.Known(old(senders), prio)
      ensures senders == if r.Blocked? then IpcList.Suspended(old(senders), t, prio, flag) else old(senders)
      ensures receivers == if r.Done? then IpcList.Rest(old(receivers)) else old(receivers)
    {
      SideKnown(ops, Sender, senders, wokenS, size - entry, prio);
      hide Side, Items, IpcList.Known, IpcList.Suspended;
      if t in ops && ops[t].Failed? {
        Leave(t, Sender);
        return Error;
      }
      if entry < size {
        Put(t, mail);
        return Done;
      }
      if !wait {
        if t in ops { Leave(t, Sender); }
        return Refused;
      }
      SleepSender(t, mail);
      r := Blocked;
    }

    method SleepSender(t: int, mail: int)
      requires Valid() && t in prio && entry == size && (t in ops ==> ops[t].Woken? && ops[t].role == Sender)
      modifies this`ops, this`senders, this`wokenS
      ensures Valid() && Mails() == old(Mails()) && ops == old(ops)[t := Waiting(Sender, mail)]
      ensures IpcList.Known(old(senders), prio) && senders == IpcList.Suspended(old(senders), t, prio, flag)
    {
      hide Side, Items;
      FallAsleep(ops, Sender, Receiver, senders, wokenS, receivers, wokenR, entry, prio, t, mail, flag);
      senders := IpcList.ListSuspend(senders, t, prio, flag);
      ops, wokenS := ops[t := Waiting(Sender, mail)], wokenS - {t};
    }

    /** rt_mb_recv from the start, or again after a resumption. */
    method Receive(t: int, wait: bool) returns (r: Status, mail: int)
      requires Valid() && t in prio
      requires t in ops ==> ops[t].Failed? || (ops[t].Woken? && ops[t].role == Receiver)
      modifies this
      ensures Valid() && prio == old(prio)
      ensures r == if old(t in ops && ops[t].Failed?) then Error
                   else if old(entry) > 0 then Done
                   else if wait then Blocked else Refused
      ensures r.Done? ==> old(entry) > 0 && mail == old(Mails())[0] && Mails() == old(Mails())[1..]
      ensures !r.Done? ==> Mails() == old(Mails())
      ensures match r
        case Done => Passed(old(ops), ops, t, old(senders))
        case Blocked => ops == old(ops)[t := Waiting(Receiver, 0)]
        case Refused => ops == old(ops) - {t}
        case Error => ops == old(ops) - {t}
      ensures IpcList.Known(old(receivers), prio)
      ensures receivers == if r.Blocked? then IpcList.Suspended(old(receivers), t, prio, flag) else old(receivers)
      ensures senders == if r.Done? then IpcList.Rest(old(senders)) else old(senders)
    {
      SideKnown(ops, Receiver, receivers, wokenR, entry, prio);
      hide Side, Items, IpcList.Known, IpcList.Suspended;
      mail := 0;
      if t in ops && ops[t].Failed? {
        Leave(t, Receiver);
        return Error, 0;
      }
      if entry > 0 {
        mail := Take(t);
        return Done, mail;
      }
      if !wait {
        if t in ops { Leave(t, Receiver); }
        return Refused, 0;
      }
      SleepReceiver(t);
      r := Blocked;
    }

    method SleepReceiver(t: int)
      requires Valid() && t in prio && entry == 0 && (t in ops ==> ops[t].Woken? && ops[t].role == Receiver)
      modifies this`ops, this`receivers, this`wokenR
      ensures Valid() && Mails() == old(Mails()) && ops == old(ops)[t := Waiting(Receiver, 0)]
      ensures IpcList.Known(old(receivers), prio) && receivers == IpcList.Suspended(old(receivers), t, prio, flag)
    {
      hide Side, Items;
      FallAsleep(ops, Receiver, Sender, receivers, wokenR, senders, wokenS, size - entry, prio, t, 0, flag);
      receivers := IpcList.ListSuspend(receivers, t, prio, flag);
      ops, wokenR := ops[t := Waiting(Receiver, 0)], wokenR - {t};
    }

    /** A thread returns empty-handed. */
    method Leave(t: int, role: Role)
      requires Valid() && t in ops
      requires ops[t].Failed? || (ops[t].Woken? && ops[t].role == role &&
          (if role == Sender then entry == size else entry == 0))
      modifies this`ops, this`wokenR, this`wokenS
      ensures Valid() && ops == old(ops) - {t} && Mails() == old(Mails())
    {
      hide Side, Items;
      if role == Sender {
        GiveUp(ops, Sender, Receiver, senders, wokenS, size - entry, receivers, wokenR, entry, prio, t);
        wokenS := wokenS - {t};
      } else {
        GiveUp(ops, Receiver, Sender, receivers, wokenR, entry, senders, wokenS, size - entry, prio, t);
        wokenR := wokenR - {t};
      }
      ops := ops - {t};
    }

    /** rt_thread_timeout of a sleeping sender or receiver. */
    method Timeout(t: int)
      requires Valid() && t in ops && ops[t].Waiting?
      modifies this`ops, this`receivers, this`senders
      ensures Valid() && ops == old(ops)[t := Failed] && Mails() == old(Mails())
      ensures receivers == IpcList.Removed(old(receivers), t) && senders == IpcList.Removed(old(senders), t)
    {
      NotQueued(t);
      hide Side, Items;
      if ops[t].role == Receiver {
        SideTimeout(ops, Receiver, receivers, wokenR, entry, prio, t);
        SideOther(ops, Sender, senders, wokenS, size - entry, prio, ops[t := Failed], size - entry);
      } else {
        SideTimeout(ops, Sender, senders, wokenS, size - entry, prio, t);
        SideOther(ops, Receiver, receivers, wokenR, entry, prio, ops[t := Failed], entry);
      }
      receivers, senders := IpcList.Removed(receivers, t), IpcList.Removed(senders, t);
      ops := ops[t := Failed];
    }

    lemma NotQueued(t: int)
      requires Valid() && t in ops && ops[t].Waiting?
      ensures ops[t].role == Receiver ==> IpcList.Removed(senders, t) == senders
      ensures ops[t].role == Sender ==> IpcList.Removed(receivers, t) == receivers
    {
      if ops[t].role == Receiver {
        assert t !in senders;
        IpcList.RemovedAbsent(senders, t);
      } else {
        assert t !in receivers;
        IpcList.RemovedAbsent(receivers, t);
      }
    }

    /** rt_mb_control(RT_IPC_CMD_RESET): everybody who sleeps fails, the mails are gone. */
    method Reset()
      requires Valid()
      modifies this`ops, this`receivers, this`senders, this`entry, this`inOffset, this`outOffset
      ensures Valid() && Mails() == [] && receivers == [] && senders == [] && ops == AllFailed(old(ops))
    {
      while receivers != []
        invariant Valid() && AllFailed(ops) == AllFailed(old(ops))
        decreases |receivers|
      {
        var w := receivers[0];
        assert w in receivers;
        Timeout(w);
      }
      while senders != []
        invariant Valid() && receivers == [] && AllFailed(ops) == AllFailed(old(ops))
        decreases |senders|
      {
        var w := senders[0];
        assert w in senders;
        Timeout(w);
      }
      forall t | t in ops ensures !ops[t].Waiting? { assert t !in receivers && t !in senders; }
      assert AllFailed(ops) == ops;
      entry, inOffset, outOffset := 0, 0, 0;
    }

    /** The lost-wake-up claim, read off in any reachable state: with every resumed thread having run,
        nobody sleeps next to a mail or a free slot it could have. */
    lemma NobodyForgotten()
      requires Valid()
      ensures receivers != [] ==> entry <= |wokenR|
      ensures senders != [] ==> size - entry <= |wokenS|
      ensures wokenR == {} && receivers != [] ==> Mails() == []
      ensures wokenS == {} && senders != [] ==> |Mails()| == size
      ensures wokenR == {} && wokenS == {} ==> receivers == [] || senders == []
    {
    }
  }
}
