/** fmq: a FreeRTOS-style queue on a byte ring, with items sent to either end or over the first one. Each
    method is one critical section; a blocked thread calls again after it was resumed. */
module Fmq {
  import opened ChainList
  import opened RingBuffer
  import IpcList

  type Item = seq<bv8>

  datatype Pos = Back | Front | Overwrite

  datatype Status = Done | Blocked | Refused | TimedOut

  // ---------------------------------------------------------------- the deque it stands for

  /** What a send does to the queued items. An overwrite of an empty queue is an ordinary send. */
  function Sent<T>(items: seq<T>, v: T, pos: Pos): (r: seq<T>)
  {
    if items == [] || pos == Back then items + [v]
    else if pos == Overwrite then [v] + items[1..]
    else [v] + items
  }

  datatype Event<T> = Send(v: T, pos: Pos) | Recv | Peek

  /** Items queued, and everything accepted, received and overwritten so far, in order. */
  datatype Log<T> = Log(items: seq<T>, accepted: seq<T>, received: seq<T>, lost: seq<T>)

  function Step<T>(l: Log<T>, e: Event<T>, size: nat): Log<T> {
    match e
    case Send(v, pos) =>
      if |l.items| >= size && pos != Overwrite then l
      else l.(items := Sent(l.items, v, pos), accepted := l.accepted + [v],
              lost := l.lost + Overwritten(l.items, pos))
    case Recv => if l.items == [] then l else l.(items := l.items[1..], received := l.received + [l.items[0]])
    case Peek => l
  }

  function Run<T>(events: seq<Event<T>>, size: nat): Log<T> {
    if events == [] then Log([], [], [], [])
    else Step(Run(events[..|events| - 1], size), events[|events| - 1], size)
  }

  ghost predicate Balanced<T>(l: Log<T>, size: nat) {
    multiset(l.accepted) == multiset(l.items) + multiset(l.received) + multiset(l.lost) && |l.items| <= size
  }

  function Overwritten<T>(items: seq<T>, pos: Pos): seq<T> {
    if pos == Overwrite && items != [] then [items[0]] else []
  }

  lemma SentBag<T>(items: seq<T>, v: T, pos: Pos)
    ensures multiset(Sent(items, v, pos)) + multiset(Overwritten(items, pos)) == multiset(items) + multiset{v}
    ensures |Sent(items, v, pos)| == if pos == Overwrite && items != [] then |items| else |items| + 1
  {
    if items != [] { assert items == [items[0]] + items[1..]; }
  }

  lemma Bags<T>(a: multiset<T>, i: multiset<T>, r: multiset<T>, l: multiset<T>, i': multiset<T>, o: multiset<T>,
                v: multiset<T>)
    requires a == i + r + l && i' + o == i + v
    ensures a + v == i' + r + (l + o)
  {
    assert a + v == (i + v) + r + l;
    assert (i' + o) + r + l == i' + r + (l + o);
  }

  lemma SendBalanced<T>(l: Log<T>, v: T, pos: Pos, size: nat)
    requires Balanced(l, size) && size > 0
    ensures Balanced(Step(l, Send(v, pos), size), size)
  {
    if |l.items| < size || pos == Overwrite {
      SentBag(l.items, v, pos);
      hide Sent, Overwritten;
      var over := Overwritten(l.items, pos);
      assert multiset(l.accepted + [v]) == multiset(l.accepted) + multiset{v};
      assert multiset(l.lost + over) == multiset(l.lost) + multiset(over);
      Bags(multiset(l.accepted), multiset(l.items), multiset(l.received), multiset(l.lost),
          multiset(Sent(l.items, v, pos)), multiset(over), multiset{v});
    }
  }

  lemma RecvBalanced<T>(l: Log<T>, size: nat)
    requires Balanced(l, size)
    ensures Balanced(Step(l, Recv, size), size)
  {
    if l.items != [] { assert l.items == [l.items[0]] + l.items[1..]; }
  }

  /** In every run nothing is made up, doubled or dropped: what was accepted is queued, received or overwritten;
      and the queue never exceeds its size. */
  lemma {:induction false} Conserved<T>(events: seq<Event<T>>, size: nat)
    requires size > 0
    ensures Balanced(Run(events, size), size)
  {
    if events != [] {
      hide Step, Balanced;
      Conserved(events[..|events| - 1], size);
      var l := Run(events[..|events| - 1], size);
      match events[|events| - 1]
      case Send(v, pos) => SendBalanced(l, v, pos, size);
      case Recv => RecvBalanced(l, size);
      case Peek => Looked(l, size);
    }
  }

  lemma Looked<T>(l: Log<T>, size: nat)
    ensures Step(l, Peek, size) == l
  {
  }

  lemma OneMore<T>(events: seq<Event<T>>, e: Event<T>, size: nat)
    ensures Run(events + [e], size) == Step(Run(events, size), e, size)
  {
    assert (events + [e])[..|events|] == events;
  }

  predicate OnlyBack<T>(events: seq<Event<T>>) {
    forall i :: 0 <= i < |events| ==> events[i].Send? ==> events[i].pos == Back
  }

  ghost predicate InOrder<T>(l: Log<T>) {
    l.accepted == l.received + l.items && l.lost == []
  }

  lemma StepInOrder<T>(l: Log<T>, e: Event<T>, size: nat)
    requires InOrder(l) && (e.Send? ==> e.pos == Back)
    ensures InOrder(Step(l, e, size))
  {
    if e.Recv? && l.items != [] { assert l.items == [l.items[0]] + l.items[1..]; }
  }

  /** With sends to the back only, every run delivers in the order of acceptance. */
  lemma {:induction false} FirstInFirstOut<T>(events: seq<Event<T>>, size: nat)
    requires OnlyBack(events)
    ensures InOrder(Run(events, size))
  {
    if events != [] {
      var m := |events| - 1;
      hide Step, InOrder;
      FirstInFirstOut(events[..m], size);
      StepInOrder(Run(events[..m], size), events[m], size);
    }
  }

  /** After any run: an item sent to the front is the next one received, and the queue is then as it was. */
  lemma FrontIsNext<T>(events: seq<Event<T>>, v: T, size: nat)
    requires |Run(events, size).items| < size
    ensures var l, l' := Run(events, size), Run(events + [Send(v, Front), Recv], size);
      l'.received == l.received + [v] && l'.items == l.items && l'.lost == l.lost
  {
    TwoMore(events, Send(v, Front), Recv, size);
  }

  /** An overwrite of a queue that is not empty takes the place of the first item, which is lost; it is received
      next. */
  lemma OverwriteIsNext<T>(events: seq<Event<T>>, v: T, size: nat)
    requires Run(events, size).items != []
    ensures var l, l' := Run(events, size), Run(events + [Send(v, Overwrite), Recv], size);
      && l'.received == l.received + [v] && l'.items == l.items[1..] && l'.lost == l.lost + [l.items[0]]
  {
    TwoMore(events, Send(v, Overwrite), Recv, size);
  }

  /** An item sent to the back is received when everything before it was. */
  lemma BackIsLast<T>(events: seq<Event<T>>, v: T, size: nat)
    requires |Run(events, size).items| < size
    ensures var l, l' := Run(events, size), Run(events + [Send(v, Back)], size);
      l'.items == l.items + [v] && l'.received == l.received && l'.lost == l.lost
  {
    OneMore(events, Send(v, Back), size);
  }

  lemma TwoMore<T>(events: seq<Event<T>>, e: Event<T>, e': Event<T>, size: nat)
    ensures Run(events + [e, e'], size) == Step(Step(Run(events, size), e, size), e', size)
  {
    OneMore(events, e, size);
    OneMore(events + [e], e', size);
    assert events + [e, e'] == events + [e] + [e'];
  }

  // ---------------------------------------------------------------- slots in a byte pool

  ghost function SlotAt(bytes: seq<bv8>, item: nat, k: nat): (r: Item)
    requires (k + 1) * item <= |bytes|
    ensures |r| == item
  {
    SlotEnd(k, item);
    bytes[k * item..(k + 1) * item]
  }

  lemma SlotEnd(k: nat, item: nat)
    ensures 0 <= k * item <= (k + 1) * item == k * item + item
  {
  }

  lemma SlotInside(k: nat, item: nat, size: nat)
    requires k < size
    ensures (k + 1) * item <= size * item
  {
    assert (k + 1) * item <= size * item by { Monotone(k + 1, size, item); }
  }

  lemma Monotone(a: nat, b: nat, item: nat)
    requires a <= b
    ensures a * item <= b * item
  {
  }

  ghost function Slots(bytes: seq<bv8>, item: nat, size: nat): (r: seq<Item>)
    requires |bytes| == size * item
    ensures |r| == size
  {
    seq(size, k requires 0 <= k < size => (SlotInside(k, item, size); SlotAt(bytes, item, k)))
  }

  /** Writing the bytes of slot k replaces that slot and no other. */
  lemma SlotWritten(bytes: seq<bv8>, bytes': seq<bv8>, item: nat, size: nat, k: nat, v: Item)
    requires |bytes| == size * item == |bytes'| && k < size && |v| == item
    requires forall i :: 0 <= i < |bytes| ==>
        bytes'[i] == if k * item <= i < k * item + item then v[i - k * item] else bytes[i]
    ensures Slots(bytes', item, size) == Slots(bytes, item, size)[k := v]
  {
    var a, b := Slots(bytes', item, size), Slots(bytes, item, size)[k := v];
    forall j | 0 <= j < size ensures a[j] == b[j] {
      SlotInside(j, item, size);
      SlotEnd(j, item);
      SlotEnd(k, item);
      if j < k { Monotone(j + 1, k, item); }
      if k < j { Monotone(k + 1, j, item); }
      assert SlotAt(bytes', item, j) == if j == k then v else SlotAt(bytes, item, j);
    }
  }

  // ---------------------------------------------------------------- the queue object

  /** A suspend list: threads of known priority, each once. */
  ghost predicate Sleepers(list: seq<int>, prio: map<int, int>) {
    NoDup(list) && IpcList.Known(list, prio)
  }

  class Queue {
    const item: nat
    const size: nat
    const pool: array<bv8>
    const flag: IpcList.Flag
    const prio: map<int, int>
    var entry: nat
    var inOffset: nat
    var outOffset: nat
    var receivers: seq<int>
    var senders: seq<int>
    var failed: set<int>      // resumed by a timeout, not returned yet

    ghost var history: seq<Event<Item>>

    /** The ring invariant. */
    ghost predicate Shaped()
      reads this, pool
    {
      && size > 0 && pool.Length == size * item && entry <= size && outOffset < size && inOffset < size
      && inOffset == Slot(outOffset, entry, size)
    }

    /** The contents are what the deque holds after everything that happened to the object so far. */
    ghost predicate Valid()
      reads this, pool
    {
      && Shaped() && Sleepers(receivers, prio) && Sleepers(senders, prio)
      && (forall t :: t in receivers ==> t !in senders)
      && (forall t :: t in failed ==> t !in receivers && t !in senders)
      && Contents() == Run(history, size).items
    }

    /** The queued items, first one first. */
    ghost function Contents(): (r: seq<Item>)
      requires Shaped()
      reads this, pool
      ensures |r| == entry
    {
      Items(Slots(pool[..], item, size), outOffset, entry)
    }

    constructor (item: nat, size: nat, flag: IpcList.Flag, prio: map<int, int>)
      requires 0 < size < 0x10000
      ensures Valid() && history == [] && Contents() == [] && this.item == item && this.size == size
      ensures receivers == [] == senders
      ensures failed == {}
      ensures this.flag == flag && this.prio == prio && fresh(pool)
    {
      this.item, this.size, this.flag, this.prio := item, size, flag, prio;
      pool := new bv8[size * item];
      entry, inOffset, outOffset := 0, 0, 0;
      receivers, senders, failed := [], [], {};
      history := [];
    }

    /** rt_memcpy of one item into slot k. */
    method WriteSlot(k: nat, v: Item)
      requires pool.Length == size * item && k < size && |v| == item
      modifies pool
      ensures Slots(pool[..], item, size) == Slots(old(pool[..]), item, size)[k := v]
    {
      SlotInside(k, item, size);
      SlotEnd(k, item);
      ghost var was := pool[..];
      var base := k * item;
      forall i | 0 <= i < item { pool[base + i] := v[i]; }
      SlotWritten(was, pool[..], item, size, k, v);
    }

    method ReadSlot(k: nat) returns (v: Item)
      requires pool.Length == size * item && k < size
      ensures v == Slots(pool[..], item, size)[k]
    {
      SlotInside(k, item, size);
      SlotEnd(k, item);
      v := pool[k * item..(k + 1) * item];
      assert v == SlotAt(pool[..], item, k);
    }

    /** One pass of rt_fmq_send by `thread`: refused or put to sleep exactly when the queue is full and the item may
        not replace the first one; otherwise queued, and the first waiting receiver is resumed. */
    method Send(thread: int, v: Item, pos: Pos, timeout: int) returns (status: Status)
      requires Valid() && |v| == item && thread in prio
      requires thread !in receivers && thread !in senders && thread !in failed
      modifies this, pool
      ensures Valid() && history == old(history) + [Event.Send(v, pos)] && failed == old(failed)
      ensures status == if old(entry) < size || pos == Overwrite then Done
                        else if timeout == 0 then Refused else Blocked
      ensures Contents() == if status == Done then Sent(old(Contents()), v, pos) else old(Contents())
      ensures receivers == if status == Done then IpcList.Rest(old(receivers)) else old(receivers)
      ensures senders == if status == Blocked then IpcList.Suspended(old(senders), thread, prio, flag) else old(senders)
    {
      hide IpcList.Known, Sleepers, Run, Slots, Slot;
      OneMore(history, Event.Send(v, pos), size);
      if entry == size && pos != Overwrite {
        history := history + [Event.Send(v, pos)];
        if timeout == 0 { return Refused; }
        SuspendedKnown(senders, thread, prio, flag);
        senders := IpcList.Suspended(senders, thread, prio, flag);
        return Blocked;
      }
      Store(v, pos);
      history := history + [Event.Send(v, pos)];
      RestKnown(receivers, prio);
      if receivers != [] { receivers := receivers[1..]; }
      status := Done;
    }

    method Store(v: Item, pos: Pos)
      requires Shaped() && |v| == item && (entry < size || pos == Overwrite)
      modifies pool, `entry, `inOffset, `outOffset
      ensures Shaped() && Contents() == Sent(old(Contents()), v, pos)
    {
      hide Slots, SlotAt, Items;
      ghost var slots := Slots(pool[..], item, size);
      if entry == 0 || pos == Back {
        PushBack(slots, outOffset, entry, v);
        WriteSlot(inOffset, v);
        inOffset := Inc(inOffset, size);
      } else if pos == Overwrite {
        ReplaceFront(slots, outOffset, entry, v);
        WriteSlot(outOffset, v);
        entry := entry - 1;
      } else {
        PushFront(slots, outOffset, entry, v);
        outOffset := if outOffset == 0 then size - 1 else outOffset - 1;
        WriteSlot(outOffset, v);
      }
      entry := entry + 1;
    }

    /** One pass of rt_fmq_recv: the first item, taken out of the queue unless the call only peeks. */
    method Recv(thread: int, peek: bool, timeout: int) returns (status: Status, v: Item)
      requires Valid() && thread in prio
      requires thread !in receivers && thread !in senders && thread !in failed
      modifies this
      ensures Valid() && history == old(history) + [if peek then Peek else Event.Recv] && failed == old(failed)
      ensures status == if old(entry) > 0 then Done else if timeout == 0 then Refused else Blocked
      ensures status == Done ==> v == old(Contents())[0]
      ensures Contents() == if status == Done && !peek then old(Contents())[1..] else old(Contents())
      ensures senders == if status == Done && !peek then IpcList.Rest(old(senders)) else old(senders)
      ensures receivers == if status == Blocked then IpcList.Suspended(old(receivers), thread, prio, flag)
                           else old(receivers)
    {
      hide IpcList.Known, Sleepers, Run, Slots, Slot;
      v := [];
      OneMore(history, if peek then Peek else Event.Recv, size);
      history := history + [if peek then Peek else Event.Recv];
      if entry == 0 {
        if timeout == 0 { return Refused, v; }
        SuspendedKnown(receivers, thread, prio, flag);
        receivers := IpcList.Suspended(receivers, thread, prio, flag);
        return Blocked, v;
      }
      v := First();
      status := Done;
      if peek { return; }
      RestKnown(senders, prio);
      Drop();
      if senders != [] { senders := senders[1..]; }
    }

    /** rt_thread_timeout of a blocked thread, on whichever list it sleeps. */
    method Timeout(thread: int)
      requires Valid() && (thread in receivers || thread in senders)
      modifies `receivers, `senders, `failed
      ensures Valid() && Contents() == old(Contents()) && failed == old(failed) + {thread}
      ensures receivers == IpcList.Removed(old(receivers), thread) && senders == IpcList.Removed(old(senders), thread)
    {
      IpcList.RemovedKeeps(receivers, thread, prio);
      IpcList.RemovedKeeps(senders, thread, prio);
      hide Run, Slots, Slot;
      receivers := IpcList.Removed(receivers, thread);
      senders := IpcList.Removed(senders, thread);
      failed := failed + {thread};
    }

    /** A thread that timed out runs again: it returns its error and leaves the queue as it is. */
    method ReturnError(thread: int) returns (status: Status)
      requires Valid() && thread in failed
      modifies `failed
      ensures Valid() && status == TimedOut && Contents() == old(Contents()) && failed == old(failed) - {thread}
    {
      failed := failed - {thread};
      status := TimedOut;
    }

    method First() returns (v: Item)
      requires Shaped() && entry > 0
      ensures v == Contents()[0]
    {
      PopFront(Slots(pool[..], item, size), outOffset, entry);
      v := ReadSlot(outOffset);
    }

    method Drop()
      requires Shaped() && entry > 0
      modifies `entry, `outOffset
      ensures Shaped() && Contents() == old(Contents())[1..]
    {
      PopFront(Slots(pool[..], item, size), outOffset, entry);
      outOffset := Inc(outOffset, size);
      entry := entry - 1;
    }
  }

  lemma SuspendedKnown(list: seq<int>, thread: int, prio: map<int, int>, flag: IpcList.Flag)
    requires thread in prio && Sleepers(list, prio) && thread !in list
    ensures IpcList.Known(list, prio) && Sleepers(IpcList.Suspended(list, thread, prio, flag), prio)
  {
    IpcList.SuspendedNoDup(list, thread, prio, flag);
  }

  lemma RestKnown(list: seq<int>, prio: map<int, int>)
    requires Sleepers(list, prio)
    ensures Sleepers(IpcList.Rest(list), prio) && forall t :: t in IpcList.Rest(list) ==> t in list
  {
    if list != [] { IpcList.TailMembers(list); }
  }
}
