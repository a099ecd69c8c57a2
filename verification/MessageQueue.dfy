/** The message queue of ipc.c. rt_mq_send, rt_mq_urgent and rt_mq_recv each use two critical sections
    and touch a message node between them with interrupts enabled, so any number of threads can be in
    the middle of an operation at once. A method below is one such atomic piece of one thread; since a
    method asks nothing but that the thread is at that point, any sequence of calls is an interleaving. */
module MessageQueue {
  import opened ChainList
  import IpcList

  type Bytes = seq<bv8>

  /** Where a thread stands inside an operation; a thread that is not listed is outside. */
  datatype Op =
    | Sending(node: int, msg: Bytes, filled: bool, urgent: bool)  // owns a node that is not linked yet
    | Receiving(node: int, size: nat)                             // owns a node taken off the queue
    | Waiting(size: nat)                                          // on the suspend list
    | Woken(size: nat)                                            // resumed by a send, has not run yet
    | Failed                                                      // resumed by a timeout or a reset

  datatype Item = Item(msg: Bytes, urgent: bool)

  type Ops = map<int, Op>

  predicate Holds(op: Op, n: int) {
    (op.Sending? || op.Receiving?) && op.node == n
  }

  // ---------------------------------------------------------------- the parts of the invariant

  /** Both lists are well linked, the tail is the last queued node and entry counts the queue. */
  ghost predicate Shape(next: Links, head: int, tail: int, free: int, entry: nat, queued: seq<int>, freed: seq<int>) {
    && IsList(next, head, queued)
    && IsList(next, free, freed)
    && tail == (if queued == [] then NULL else queued[|queued| - 1])
    && entry == |queued|
  }

  /** Free, queued and in-flight nodes partition the pool. */
  ghost predicate Nodes(pool: set<int>, freed: seq<int>, queued: seq<int>, holder: map<int, int>) {
    && NULL !in pool
    && (forall n :: n in pool <==> n in freed || n in queued || n in holder)
    && (forall n :: n in freed ==> n !in queued && n !in holder)
    && (forall n :: n in queued ==> n !in holder)
  }

  /** `holder` is the inverse of "this thread holds this node". */
  ghost predicate Owned(ops: Ops, holder: map<int, int>) {
    && (forall n :: n in holder ==> holder[n] in ops && Holds(ops[holder[n]], n))
    && (forall t :: t in ops && (ops[t].Sending? || ops[t].Receiving?) ==>
        ops[t].node in holder && holder[ops[t].node] == t)
  }

  ghost predicate Carries(data: map<int, Bytes>, n: int, msg: Bytes, msgSize: nat) {
    && n in data && |data[n]| == msgSize && |msg| <= msgSize
    && data[n][..|msg|] == msg
  }

  /** Every node that was filled carries its message, and no other thread can have changed it. */
  ghost predicate Contents(pool: set<int>, next: Links, data: map<int, Bytes>, msgSize: nat, payload: map<int, Item>,
                           queued: seq<int>, ops: Ops) {
    && (forall n :: n in pool ==> n in data && |data[n]| == msgSize && n in next)
    && (forall n :: n in queued ==> n in payload && Carries(data, n, payload[n].msg, msgSize))
    && (forall t :: t in ops && ops[t].Sending? ==> |ops[t].msg| <= msgSize)
    && (forall t :: t in ops && ops[t].Sending? && ops[t].filled ==>
          Carries(data, ops[t].node, ops[t].msg, msgSize) &&
              (!ops[t].urgent ==> ops[t].node in next && next[ops[t].node] == NULL))
    && (forall t :: t in ops && ops[t].Receiving? ==>
          ops[t].node in payload && Carries(data, ops[t].node, payload[ops[t].node].msg, msgSize))
  }

  /** The suspend list and the resumed receivers, and that no wake-up is lost. */
  ghost predicate Sleepers(ops: Ops, waiters: seq<int>, woken: set<int>, entry: nat, prio: map<int, int>) {
    && NoDup(waiters) && IpcList.Known(waiters, prio)
    && (forall t :: t in waiters <==> t in ops && ops[t].Waiting?)
    && (forall t :: t in woken <==> t in ops && ops[t].Woken?)
    && (waiters != [] ==> entry <= |woken|)
  }

  /** The queue is a stack of urgent messages in front of a queue of normal ones. */
  ghost predicate Ordered(queued: seq<int>, payload: map<int, Item>, urgents: seq<Item>, normals: seq<Item>) {
    && |queued| == |urgents| + |normals|
    && (forall i :: 0 <= i < |queued| ==> queued[i] in payload && payload[queued[i]] == (urgents + normals)[i])
    && (forall i :: 0 <= i < |urgents| ==> urgents[i].urgent)
    && (forall i :: 0 <= i < |normals| ==> !normals[i].urgent)
  }

  /** A receiver carries the buffer size it was called with, and the node it holds the message it took. */
  ghost predicate Promised(ops: Ops, payload: map<int, Item>, asked: map<int, nat>, got: map<int, Item>) {
    && (forall t :: t in ops && (ops[t].Waiting? || ops[t].Woken? || ops[t].Receiving?) ==>
          t in asked && ops[t].size == asked[t])
    && (forall t :: t in ops && ops[t].Receiving? ==>
          t in got && ops[t].node in payload && payload[ops[t].node] == got[t])
  }

  // ---------------------------------------------------------------- how the parts move

  /** A thread gets a new program point that is not a receiver's, or keeps the size it was called with. */
  lemma PromisedStep(ops: Ops, payload: map<int, Item>, asked: map<int, nat>, got: map<int, Item>, t: int, op: Op)
    requires Promised(ops, payload, asked, got)
    requires op.Waiting? || op.Woken? ==> t in asked && op.size == asked[t]
    requires !op.Receiving?
    ensures Promised(ops[t := op], payload, asked, got) && Promised(ops - {t}, payload, asked, got)
  {
  }

  lemma PromisedTake(ops: Ops, payload: map<int, Item>, asked: map<int, nat>, got: map<int, Item>, t: int, op: Op)
    requires Promised(ops, payload, asked, got) && op.Receiving? && t in asked && op.size == asked[t]
    requires op.node in payload
    ensures Promised(ops[t := op], payload, asked, got[t := payload[op.node]])
  {
  }

  /** A node that no receiver holds is linked, the sender leaves and the first waiter is resumed. */
  lemma PromisedLink(ops: Ops, holder: map<int, int>, payload: map<int, Item>, asked: map<int, nat>,
                     got: map<int, Item>, waiters: seq<int>, t: int, item: Item)
    requires Promised(ops, payload, asked, got) && Owned(ops, holder) && t in ops && ops[t].Sending?
    requires waiters != [] ==> waiters[0] != t && waiters[0] in ops && ops[waiters[0]].Waiting?
    ensures Promised(AfterSend(ops, waiters, t), payload[ops[t].node := item], asked, got)
  {
    forall u | u in ops && ops[u].Receiving? ensures ops[u].node != ops[t].node {
      assert holder[ops[u].node] == u && holder[ops[t].node] == t;
    }
  }


  predicate HoldsNone(op: Op) {
    !op.Sending? && !op.Receiving?
  }

  predicate Free(ops: Ops, t: int) {
    t in ops ==> HoldsNone(ops[t])
  }

  lemma NodesTake(pool: set<int>, freed: seq<int>, queued: seq<int>, holder: map<int, int>, t: int)
    requires Nodes(pool, freed, queued, holder) && freed != [] && NoDup(freed)
    ensures Nodes(pool, freed[1..], queued, holder[freed[0] := t]) && freed[0] !in holder && freed[0] in pool
    ensures freed[0] !in queued
  {
    assert freed == [freed[0]] + freed[1..];
    forall n | n in freed[1..] ensures n in freed && n != freed[0] {
      var i :| 0 <= i < |freed[1..]| && freed[1..][i] == n;
      assert freed[i + 1] == n;
    }
    var n := freed[0];
    assert n in freed;
  }

  lemma NodesRecv(pool: set<int>, freed: seq<int>, queued: seq<int>, holder: map<int, int>, t: int)
    requires Nodes(pool, freed, queued, holder) && queued != [] && NoDup(queued)
    ensures Nodes(pool, freed, queued[1..], holder[queued[0] := t]) && queued[0] !in holder && queued[0] in pool
  {
    assert queued == [queued[0]] + queued[1..];
    forall n | n in queued[1..] ensures n in queued && n != queued[0] {
      var i :| 0 <= i < |queued[1..]| && queued[1..][i] == n;
      assert queued[i + 1] == n;
    }
    var n := queued[0];
    assert n in queued;
  }

  lemma NodesLink(pool: set<int>, freed: seq<int>, queued: seq<int>, holder: map<int, int>, n: int, queued': seq<int>)
    requires Nodes(pool, freed, queued, holder) && n in holder
    requires forall x :: x in queued' <==> x in queued || x == n
    ensures Nodes(pool, freed, queued', holder - {n}) && n !in queued && n !in freed && n != NULL && n in pool
    ensures forall x :: x in queued ==> x !in freed && x !in holder
  {
  }

  lemma NodesPut(pool: set<int>, freed: seq<int>, queued: seq<int>, holder: map<int, int>, n: int)
    requires Nodes(pool, freed, queued, holder) && n in holder
    ensures Nodes(pool, [n] + freed, queued, holder - {n}) && n !in queued && n !in freed && n != NULL && n in pool
  {
  }

  lemma OwnTake(ops: Ops, holder: map<int, int>, t: int, n: int, op: Op)
    requires Owned(ops, holder) && Free(ops, t) && n !in holder && Holds(op, n)
    ensures Owned(ops[t := op], holder[n := t])
  {
  }

  lemma OwnDrop(ops: Ops, holder: map<int, int>, t: int)
    requires Owned(ops, holder) && t in ops && !HoldsNone(ops[t])
    ensures ops[t].node in holder && Owned(ops - {t}, holder - {ops[t].node})
  {
  }

  /** A step of a thread that holds nothing before or after. */
  lemma OwnIdle(ops: Ops, holder: map<int, int>, ops': Ops)
    requires Owned(ops, holder)
    requires forall t :: t in ops && !HoldsNone(ops[t]) ==> t in ops' && ops'[t] == ops[t]
    requires forall t :: t in ops' && !HoldsNone(ops'[t]) ==> t in ops && ops'[t] == ops[t]
    ensures Owned(ops', holder)
  {
    forall n | n in holder ensures holder[n] in ops' && Holds(ops'[holder[n]], n) {
      var t := holder[n];
      assert t in ops && !HoldsNone(ops[t]);
    }
  }

  lemma OwnKeep(ops: Ops, holder: map<int, int>, t: int, op: Op)
    requires Owned(ops, holder) && t in ops && !HoldsNone(ops[t]) && Holds(op, ops[t].node)
    ensures Owned(ops[t := op], holder)
  {
  }

  /** The suspend list does not care about threads that are awake. */
  lemma SleepersAwake(ops: Ops, waiters: seq<int>, woken: set<int>, entry: nat, prio: map<int, int>, ops': Ops,
                      entry': nat)
    requires Sleepers(ops, waiters, woken, entry, prio) && (entry' <= entry || waiters == [])
    requires forall t :: t in ops && (ops[t].Waiting? || ops[t].Woken?) ==> t in ops' && ops'[t] == ops[t]
    requires forall t :: t in ops' && (ops'[t].Waiting? || ops'[t].Woken?) ==> t in ops && ops'[t] == ops[t]
    ensures Sleepers(ops', waiters, woken, entry', prio)
  {
  }

  lemma ShapeFree(next: Links, head: int, tail: int, free: int, entry: nat, queued: seq<int>, freed: seq<int>)
    requires Shape(next, head, tail, free, entry, queued, freed)
    ensures free == NULL <==> freed == []
    ensures freed != [] ==>
      && free == freed[0] && free in next && NoDup(freed)
      && Shape(next, head, tail, next[free], entry, queued, freed[1..])
  {
    EmptyIffNull(next, free, freed);
    if freed != [] { Pop(next, free, freed); }
  }

  lemma ContentsTake(pool: set<int>, next: Links, data: map<int, Bytes>, msgSize: nat, payload: map<int, Item>,
                     queued: seq<int>, ops: Ops, t: int, op: Op)
    requires Contents(pool, next, data, msgSize, payload, queued, ops)
    requires HoldsNone(op) || (op.Sending? && !op.filled && |op.msg| <= msgSize)
    ensures Contents(pool, next, data, msgSize, payload, queued, ops[t := op])
  {
  }

  /** Writing the link of a node that is in neither list. */
  lemma ShapeOther(next: Links, head: int, tail: int, free: int, entry: nat, queued: seq<int>, freed: seq<int>,
                   n: int, p: int)
    requires Shape(next, head, tail, free, entry, queued, freed) && n !in queued && n !in freed
    ensures Shape(next[n := p], head, tail, free, entry, queued, freed)
  {
    Frame(next, next[n := p], head, queued);
    Frame(next, next[n := p], free, freed);
  }

  /** Linking a node whose link is null behind the tail. */
  lemma ShapeAppend(next: Links, head: int, tail: int, free: int, entry: nat, queued: seq<int>, freed: seq<int>, n: int)
    requires Shape(next, head, tail, free, entry, queued, freed) && n !in queued && n !in freed && n != NULL
    requires n in next && next[n] == NULL && (forall x :: x in queued ==> x !in freed)
    ensures tail == NULL <==> queued == []
    ensures head == NULL <==> queued == []
    ensures Shape(if tail != NULL then next[tail := n] else next,
                  if head == NULL then n else head, n, free, entry + 1, queued + [n], freed)
  {
    EmptyIffNull(next, head, queued);
    Append(next, head, queued, n);
    if queued != [] {
      assert tail in queued;
      Frame(next, next[tail := n], free, freed);
    }
  }

  lemma TailQueued(next: Links, head: int, tail: int, free: int, entry: nat, queued: seq<int>, freed: seq<int>)
    requires Shape(next, head, tail, free, entry, queued, freed)
    ensures tail != NULL ==> tail in queued
  {
  }

  lemma ShapePrepend(next: Links, head: int, tail: int, free: int, entry: nat, queued: seq<int>, freed: seq<int>,
                     n: int)
    requires Shape(next, head, tail, free, entry, queued, freed) && n !in queued && n !in freed && n != NULL
    ensures Shape(next[n := head], n, if tail == NULL then n else tail, free, entry + 1, [n] + queued, freed)
  {
    EmptyIffNull(next, head, queued);
    Push(next, head, queued, n);
    Frame(next, next[n := head], free, freed);
  }

  lemma ShapeTake(next: Links, head: int, tail: int, free: int, entry: nat, queued: seq<int>, freed: seq<int>)
    requires Shape(next, head, tail, free, entry, queued, freed) && entry > 0
    ensures queued != [] && head == queued[0] && head in next && NoDup(queued)
    ensures Shape(next, next[head], if tail == head then NULL else tail, free, entry - 1, queued[1..], freed)
  {
    Pop(next, head, queued);
    assert tail == head <==> |queued| == 1;
  }

  lemma ShapePut(next: Links, head: int, tail: int, free: int, entry: nat, queued: seq<int>, freed: seq<int>, n: int)
    requires Shape(next, head, tail, free, entry, queued, freed) && n !in queued && n !in freed && n != NULL
    ensures Shape(next[n := free], head, tail, n, entry, queued, [n] + freed)
  {
    Push(next, free, freed, n);
    Frame(next, next[n := free], head, queued);
  }

  /** Filling a node that only its holder can reach. */
  lemma ContentsFill(pool: set<int>, next: Links, data: map<int, Bytes>, msgSize: nat, payload: map<int, Item>,
                     queued: seq<int>, ops: Ops, holder: map<int, int>, t: int, next': Links)
    requires Contents(pool, next, data, msgSize, payload, queued, ops) && Owned(ops, holder)
    requires t in ops && ops[t].Sending? && ops[t].node !in queued && ops[t].node in pool
    requires next' == if ops[t].urgent then next else next[ops[t].node := NULL]
    ensures var (n, msg) := (ops[t].node, ops[t].msg);
      && n in data && |msg| <= |data[n]|
      && Contents(pool, next', data[n := msg + data[n][|msg|..]], msgSize, payload, queued,
          ops[t := ops[t].(filled := true)])
  {
    var (n, msg) := (ops[t].node, ops[t].msg);
    var data' := data[n := msg + data[n][|msg|..]];
    assert Carries(data', n, msg, msgSize);
    forall u | u in ops && !HoldsNone(ops[u]) && u != t ensures ops[u].node != n {
      assert holder[ops[u].node] == u;
    }
  }

  /** Linking a filled node into the queue. */
  lemma ContentsLink(pool: set<int>, next: Links, data: map<int, Bytes>, msgSize: nat, payload: map<int, Item>,
                     queued: seq<int>, ops: Ops, holder: map<int, int>, t: int, next': Links, queued': seq<int>,
                     ops': Ops)
    requires Contents(pool, next, data, msgSize, payload, queued, ops) && Owned(ops, holder)
    requires t in ops && ops[t].Sending? && ops[t].filled
    requires forall x :: x in queued' ==> x in queued || x == ops[t].node
    requires forall x :: x in next ==> x in next'
    requires forall x :: x in holder && x in next && x != ops[t].node ==> next'[x] == next[x]
    requires forall u :: u in ops' && !HoldsNone(ops'[u]) ==> u != t && u in ops && ops'[u] == ops[u]
    ensures Contents(pool, next', data, msgSize, payload[ops[t].node := Item(ops[t].msg, ops[t].urgent)], queued', ops')
  {
    forall u | u in ops && !HoldsNone(ops[u]) && u != t ensures ops[u].node != ops[t].node && ops[u].node in holder {
      assert holder[ops[u].node] == u;
    }
  }

  /** Steps that neither fill nor link: taking a queued node, putting one back, waiting. */
  lemma ContentsMove(pool: set<int>, next: Links, data: map<int, Bytes>, msgSize: nat, payload: map<int, Item>,
                     queued: seq<int>, ops: Ops, holder: map<int, int>, t: int, next': Links, queued': seq<int>,
                     ops': Ops)
    requires Contents(pool, next, data, msgSize, payload, queued, ops) && Owned(ops, holder)
    requires forall x :: x in queued' ==> x in queued
    requires forall x :: x in next ==> x in next'
    requires forall x :: x in holder && x in next && (t in ops ==> !Holds(ops[t], x)) ==> next'[x] == next[x]
    requires forall u :: u in ops' && !HoldsNone(ops'[u]) && u != t ==> u in ops && ops'[u] == ops[u]
    requires t in ops' ==> HoldsNone(ops'[t]) || (ops'[t].Receiving? && ops'[t].node in queued)
    ensures Contents(pool, next', data, msgSize, payload, queued', ops')
  {
    forall u | u in ops && !HoldsNone(ops[u]) && u != t
      ensures ops[u].node in holder
      ensures (t in ops ==> !Holds(ops[t], ops[u].node))
    {
      assert holder[ops[u].node] == u;
    }
  }

  /** A send raises entry and, if anybody waits, moves the first waiter to the woken. */
  lemma SleepersSend(ops: Ops, waiters: seq<int>, woken: set<int>, entry: nat, prio: map<int, int>, t: int)
    requires Sleepers(ops, waiters, woken, entry, prio) && t in ops && ops[t].Sending?
    ensures waiters != [] ==> waiters[0] != t && waiters[0] in ops && ops[waiters[0]].Waiting?
    ensures Sleepers(AfterSend(ops, waiters, t), IpcList.Rest(waiters), woken + IpcList.First(waiters), entry + 1, prio)
  {
    assert woken + {} == woken;
    if waiters != [] {
      var w := waiters[0];
      assert w in waiters;
      assert w !in woken && |woken + {w}| == |woken| + 1;
      IpcList.TailMembers(waiters);
      assert IpcList.Known(waiters[1..], prio);
    }
  }

  /** A receiver takes a message, whether it was woken or just came along; or a woken one gives up. */
  lemma SleepersRun(ops: Ops, waiters: seq<int>, woken: set<int>, entry: nat, prio: map<int, int>, t: int,
                    entry': nat, ops': Ops)
    requires Sleepers(ops, waiters, woken, entry, prio) && (t in ops ==> !ops[t].Waiting?)
    requires ops' - {t} == ops - {t} && (t in ops' ==> !ops'[t].Waiting? && !ops'[t].Woken?)
    requires entry' == 0 || entry' + 1 == entry
    ensures Sleepers(ops', waiters, woken - {t}, entry', prio)
  {
    assert forall u :: u != t ==> (u in ops' <==> u in ops' - {t}) && (u in ops <==> u in ops - {t});
    forall u | u != t && u in ops' ensures u in ops && ops'[u] == ops[u] {
      assert (ops' - {t})[u] == (ops - {t})[u];
    }
    forall u | u != t && u in ops ensures u in ops' && ops'[u] == ops[u] {
      assert (ops' - {t})[u] == (ops - {t})[u];
    }
    if t in woken { assert |woken - {t}| == |woken| - 1; } else { assert woken - {t} == woken; }
  }

  lemma SleepersLeave(ops: Ops, waiters: seq<int>, woken: set<int>, entry: nat, prio: map<int, int>, t: int)
    requires Sleepers(ops, waiters, woken, entry, prio) && t in ops && (ops[t].Failed? || (ops[t].Woken? && entry == 0))
    ensures Sleepers(ops - {t}, waiters, woken - {t}, entry, prio)
  {
    if ops[t].Failed? { assert woken - {t} == woken; }
  }

  /** A thread goes to sleep on an empty queue. */
  lemma SleepersWait(ops: Ops, waiters: seq<int>, woken: set<int>, prio: map<int, int>, t: int, size: nat,
                     flag: IpcList.Flag)
    requires Sleepers(ops, waiters, woken, 0, prio) && (t in ops ==> !ops[t].Waiting?) && t in prio
    ensures IpcList.Known(waiters, prio)
    ensures Sleepers(ops[t := Waiting(size)], IpcList.Suspended(waiters, t, prio, flag), woken - {t}, 0, prio)
  {
    IpcList.SuspendedNoDup(waiters, t, prio, flag);
  }

  lemma OrderedAppend(queued: seq<int>, payload: map<int, Item>, urgents: seq<Item>, normals: seq<Item>, n: int,
                      item: Item)
    requires Ordered(queued, payload, urgents, normals) && n !in queued && !item.urgent
    ensures Ordered(queued + [n], payload[n := item], urgents, normals + [item])
  {
    assert urgents + (normals + [item]) == (urgents + normals) + [item];
  }

  lemma OrderedPrepend(queued: seq<int>, payload: map<int, Item>, urgents: seq<Item>, normals: seq<Item>, n: int,
                       item: Item)
    requires Ordered(queued, payload, urgents, normals) && n !in queued && item.urgent
    ensures Ordered([n] + queued, payload[n := item], [item] + urgents, normals)
  {
    assert ([item] + urgents) + normals == [item] + (urgents + normals);
  }

  /** What is taken is the latest urgent message if there is one, the oldest normal one otherwise. */
  lemma OrderedTake(queued: seq<int>, payload: map<int, Item>, urgents: seq<Item>, normals: seq<Item>)
    requires Ordered(queued, payload, urgents, normals) && queued != []
    ensures queued[0] in payload && (urgents != [] || normals != [])
    ensures payload[queued[0]] == FrontItem(urgents, normals)
    ensures Ordered(queued[1..], payload, RestUrgents(urgents), RestNormals(urgents, normals))
  {
    if urgents != [] {
      assert (urgents + normals)[1..] == urgents[1..] + normals;
    } else {
      assert (urgents + normals)[1..] == urgents + normals[1..];
    }
    assert forall i :: 0 <= i < |queued| - 1 ==>
        queued[1..][i] == queued[i + 1] && (urgents + normals)[1..][i] == (urgents + normals)[i + 1];
  }

  /** The first waiter, if any, is resumed. */
  function Resumed(ops: Ops, waiters: seq<int>): Ops
    requires waiters != [] ==> waiters[0] in ops && ops[waiters[0]].Waiting?
  {
    if waiters == [] then ops else ops[waiters[0] := Woken(ops[waiters[0]].size)]
  }

  /** A sender leaves, the first waiter is resumed. */
  function AfterSend(ops: Ops, waiters: seq<int>, t: int): Ops
    requires waiters != [] ==> waiters[0] != t && waiters[0] in ops && ops[waiters[0]].Waiting?
  {
    Resumed(ops - {t}, waiters)
  }

  /** Every waiter is resumed with an error. */
  function AllFailed(ops: Ops): Ops {
    map t | t in ops :: if ops[t].Waiting? then Failed else ops[t]
  }

  lemma FailOne(ops: Ops, w: int)
    requires w in ops && ops[w].Waiting?
    ensures AllFailed(ops[w := Failed]) == AllFailed(ops)
  {
  }

  lemma NoneWaits(ops: Ops, waiters: seq<int>, woken: set<int>, entry: nat, prio: map<int, int>)
    requires Sleepers(ops, waiters, woken, entry, prio) && waiters == []
    ensures AllFailed(ops) == ops
  {
    forall t | t in ops ensures !ops[t].Waiting? { assert t !in waiters; }
  }

  lemma FirstWaits(ops: Ops, waiters: seq<int>, woken: set<int>, entry: nat, prio: map<int, int>)
    requires Sleepers(ops, waiters, woken, entry, prio)
    ensures waiters != [] ==> waiters[0] in ops && ops[waiters[0]].Waiting?
  {
    if waiters != [] {
      var w := waiters[0];
      assert w in waiters;
    }
  }

  lemma OwnSend(ops: Ops, holder: map<int, int>, t: int, waiters: seq<int>)
    requires Owned(ops, holder) && t in ops && ops[t].Sending?
    requires waiters != [] ==> waiters[0] != t && waiters[0] in ops && ops[waiters[0]].Waiting?
    ensures ops[t].node in holder && Owned(AfterSend(ops, waiters, t), holder - {ops[t].node})
    ensures forall u :: u in AfterSend(ops, waiters, t) && !HoldsNone(AfterSend(ops, waiters, t)[u]) ==>
      u != t && u in ops && AfterSend(ops, waiters, t)[u] == ops[u]
  {
    OwnDrop(ops, holder, t);
    OwnIdle(ops - {t}, holder - {ops[t].node}, AfterSend(ops, waiters, t));
  }

  lemma SentNode(pool: set<int>, next: Links, data: map<int, Bytes>, msgSize: nat, payload: map<int, Item>,
                 queued: seq<int>, ops: Ops, t: int)
    requires Contents(pool, next, data, msgSize, payload, queued, ops) && t in ops && ops[t].Sending? && ops[t].filled
    ensures !ops[t].urgent ==> ops[t].node in next && next[ops[t].node] == NULL
  {
  }

  /** The message a receiver gets next, and what stays queued. */
  function FrontItem(urgents: seq<Item>, normals: seq<Item>): Item
    requires urgents != [] || normals != []
  {
    if urgents != [] then urgents[0] else normals[0]
  }

  function RestUrgents(urgents: seq<Item>): seq<Item> {
    if urgents != [] then urgents[1..] else []
  }

  function RestNormals(urgents: seq<Item>, normals: seq<Item>): seq<Item> {
    if urgents != [] || normals == [] then normals else normals[1..]
  }

  lemma SleepersTimeout(ops: Ops, waiters: seq<int>, woken: set<int>, entry: nat, prio: map<int, int>, t: int)
    requires Sleepers(ops, waiters, woken, entry, prio) && t in ops && ops[t].Waiting?
    ensures Sleepers(ops[t := Failed], IpcList.Removed(waiters, t), woken, entry, prio)
  {
    IpcList.RemovedKeeps(waiters, t, prio);
  }

  lemma ReceivedItem(pool: set<int>, next: Links, data: map<int, Bytes>, msgSize: nat, payload: map<int, Item>,
                     queued: seq<int>, ops: Ops, t: int)
    requires Contents(pool, next, data, msgSize, payload, queued, ops) && t in ops && ops[t].Receiving?
    ensures ops[t].node in payload && Carries(data, ops[t].node, payload[ops[t].node].msg, msgSize)
  {
  }

  function Min(a: nat, b: nat): (r: nat)
    ensures r <= a && r <= b && (r == a || r == b)
  {
    if a < b then a else b
  }

  /** One round of the reset loop: the head node moves from the queue to the free list. */
  lemma DropHead(pool: set<int>, next: Links, head: int, tail: int, free: int, queued: seq<int>, freed: seq<int>,
                 holder: map<int, int>, data: map<int, Bytes>, msgSize: nat, payload: map<int, Item>, ops: Ops)
    requires Shape(next, head, tail, free, |queued|, queued, freed) && Nodes(pool, freed, queued, holder)
    requires Owned(ops, holder)
    requires Contents(pool, next, data, msgSize, payload, queued, ops) && queued != []
    ensures head in next && head == queued[0]
    ensures Shape(next[head := free], next[head], if tail == head then NULL
        else tail, head, |queued| - 1, queued[1..], [head] + freed)
    ensures Nodes(pool, [head] + freed, queued[1..], holder)
    ensures Contents(pool, next[head := free], data, msgSize, payload, queued[1..], ops)
  {
    ShapeTake(next, head, tail, free, |queued|, queued, freed);
    IpcList.TailMembers(queued);
    var n := head;
    assert n in queued && n in pool;
    ShapePut(next, next[n], if tail == n then NULL else tail, free, |queued| - 1, queued[1..], freed, n);
  }

  lemma Fits(bytes: nat, stride: nat)
    requires stride > 0
    ensures bytes / stride % 0x1_0000 * stride <= bytes
  {
    var n := bytes / stride;
    assert n % 0x1_0000 * stride <= n * stride;
  }

  /** Nodes below `top`, at least `stride` apart, in falling order. */
  ghost predicate Carved(list: seq<int>, data: map<int, Bytes>, base: int, top: int, msgSize: nat) {
    && (forall i :: 0 <= i < |list| ==> base <= list[i] && list[i] + 4 + msgSize <= top)
    && (forall i, j :: 0 <= i < j < |list| ==> list[j] + 4 + msgSize <= list[i])
    && (forall i :: 0 <= i < |list| ==> list[i] in data && |data[list[i]]| == msgSize)
  }

  lemma CarveOne(list: seq<int>, data: map<int, Bytes>, base: int, top: int, msgSize: nat, bytes: Bytes)
    requires Carved(list, data, base, top, msgSize) && |bytes| == msgSize && base <= top
    ensures top !in list && Carved([top] + list, data[top := bytes], base, top + msgSize + 4, msgSize)
  {
  }

  /** The loop that carves the buffer into free nodes, the last one first in the list. */
  method BuildPool(base: int, msgSize: nat, maxMsgs: nat)
    returns (next: Links, data: map<int, Bytes>, free: int, ghost list: seq<int>)
    requires base > 0
    ensures IsList(next, free, list) && |list| == maxMsgs
    ensures Carved(list, data, base, base + maxMsgs * (msgSize + 4), msgSize)
  {
    next, data, free, list := map[], map[], NULL, [];
    var temp, at := 0, base;
    assert IsList(next, free, list) && Carved(list, data, base, at, msgSize);
    hide IsList, Carved;
    while temp < maxMsgs
      invariant 0 <= temp <= maxMsgs && |list| == temp && base <= at == base + temp * (msgSize + 4)
      invariant IsList(next, free, list) && Carved(list, data, base, at, msgSize)
    {
      var bytes := seq(msgSize, _ => 0);
      CarveOne(list, data, base, at, msgSize, bytes);
      Push(next, free, list, at);
      next := next[at := free];
      free := at;
      data := data[at := bytes];
      list := [at] + list;
      assert (temp + 1) * (msgSize + 4) == temp * (msgSize + 4) + (msgSize + 4);
      temp, at := temp + 1, at + msgSize + 4;
    }
  }

  lemma {:induction false} Distinct(s: seq<int>)
    ensures |set n | n in s| <= |s| && (NoDup(s) ==> |set n | n in s| == |s|)
  {
    if s != [] {
      var rest := s[1..];
      Distinct(rest);
      assert (set n | n in s) == (set n | n in rest) + {s[0]};
      if NoDup(s) { IpcList.TailMembers(s); }
    }
  }

  lemma SubsetSize(a: set<int>, b: set<int>)
    requires a <= b
    ensures |a| <= |b|
  {
    assert b == a + (b - a);
  }

  lemma CarvedOut(list: seq<int>, data: map<int, Bytes>, base: int, top: int, msgSize: nat)
    requires Carved(list, data, base, top, msgSize)
    ensures forall i :: 0 <= i < |list| ==> base <= list[i] && list[i] + 4 + msgSize <= top
    ensures forall i, j :: 0 <= i < j < |list| ==> list[j] + 4 + msgSize <= list[i]
  {
  }

  /** A carved pool, all of it free, satisfies every part of the invariant. */
  lemma FreshQueue(next: Links, data: map<int, Bytes>, free: int, list: seq<int>, base: int, top: int, msgSize: nat,
                   prio: map<int, int>)
    requires IsList(next, free, list) && Carved(list, data, base, top, msgSize)
    ensures Shape(next, NULL, NULL, free, 0, [], list) && Nodes((set n | n in list), list, [], map[])
    ensures Owned(map[], map[])
    ensures Contents((set n | n in list), next, data, msgSize, map[], [], map[])
    ensures Sleepers(map[], [], {}, 0, prio) && Ordered([], map[], [], []) && Traced([], [], [])
    ensures Promised(map[], map[], map[], map[])
  {
  }

  class Queue {
    const msgSize: nat
    const flag: IpcList.Flag
    var next: Links
    var data: map<int, Bytes>    // the msg_size bytes behind each node
    var head: int                // msg_queue_head
    var tail: int                // msg_queue_tail
    var free: int                // msg_queue_free
    var entry: nat
    var waiters: seq<int>        // parent.suspend_thread
    var prio: map<int, int>
    var ops: Ops                 // program point and locals of the threads inside an operation
    ghost var pool: set<int>
    ghost var queued: seq<int>
    ghost var freed: seq<int>
    ghost var holder: map<int, int>
    ghost var payload: map<int, Item>
    ghost var woken: set<int>
    ghost var urgents: seq<Item>
    ghost var normals: seq<Item>
    ghost var events: seq<Event>
    ghost var asked: map<int, nat>   // the buffer size a thread's last receive was called with
    ghost var got: map<int, Item>    // the message it took

    ghost predicate Valid()
      reads this
    {
      && Shape(next, head, tail, free, entry, queued, freed)
      && Nodes(pool, freed, queued, holder)
      && Owned(ops, holder)
      && Contents(pool, next, data, msgSize, payload, queued, ops)
      && Sleepers(ops, waiters, woken, entry, prio)
      && Ordered(queued, payload, urgents, normals)
      && Traced(events, urgents, normals)
      && Promised(ops, payload, asked, got)
      && |pool| < 0x1_0000
    }

    /** rt_mq_init over a buffer of poolBytes bytes at address base: nodes of a link word and an aligned
        message each, pushed one by one onto the free list. Both the message size and the number of nodes
        are kept in 16 bits. */
    constructor (base: int, size: nat, poolBytes: nat, flag: IpcList.Flag, prio: map<int, int>)
      requires base > 0
      ensures Valid() && entry == 0 && ops == map[] && urgents == [] && normals == [] && events == []
      ensures msgSize == (size + 3) / 4 * 4 % 0x1_0000 && |freed| == poolBytes / (msgSize + 4) % 0x1_0000
      ensures |pool| <= |freed| && this.flag == flag && this.prio == prio && waiters == []
      ensures forall i :: 0 <= i < |freed| ==> base <= freed[i] && freed[i] + 4 + msgSize <= base + poolBytes
      ensures forall i, j :: 0 <= i < j < |freed| ==> freed[j] + 4 + msgSize <= freed[i]
    {
      hide Shape, Owned, Nodes, Contents, Sleepers, Ordered, Traced, Promised, Carved, IsList;
      var aligned := (size + 3) / 4 * 4 % 0x1_0000;
      var maxMsgs := poolBytes / (aligned + 4) % 0x1_0000;
      Fits(poolBytes, aligned + 4);
      var links, bytes, first, list := BuildPool(base, aligned, maxMsgs);
      next, data, free := links, bytes, first;
      msgSize, this.flag, this.prio := aligned, flag, prio;
      head, tail, entry := NULL, NULL, 0;
      waiters, ops := [], map[];
      pool, queued, freed := set n | n in list, [], list;
      holder, payload, woken, urgents, normals := map[], map[], {}, [], [];
      events, asked, got := [], map[], map[];
      FreshQueue(links, bytes, first, list, base, base + maxMsgs * (aligned + 4), aligned, prio);
      CarvedOut(list, bytes, base, base + maxMsgs * (aligned + 4), aligned);
      Distinct(list);
    }

    /** First critical section of rt_mq_send and rt_mq_urgent: take a free node. It fails exactly when
        the message is too long or no node is free. */
    method SendTake(t: int, buffer: Bytes, urgent: bool) returns (ok: bool)
      requires Valid() && t !in ops
      modifies this`free, this`ops, this`freed, this`holder
      ensures Valid()
      ensures ok <==> |buffer| <= msgSize && old(freed) != []
      ensures !ok ==> unchanged(this)
      ensures ok ==> freed == old(freed)[1..] && ops == old(ops)[t := Sending(old(freed)[0], buffer, false, urgent)]
    {
      hide Shape, Nodes, Owned, Contents, Sleepers, Ordered, Traced, Promised;
      ShapeFree(next, head, tail, free, entry, queued, freed);
      if |buffer| > msgSize {
        return false;
      }
      var msg := free;
      if msg == NULL {
        return false;
      }
      var op := Sending(msg, buffer, false, urgent);
      NodesTake(pool, freed, queued, holder, t);
      OwnTake(ops, holder, t, msg, op);
      ContentsTake(pool, next, data, msgSize, payload, queued, ops, t, op);
      SleepersAwake(ops, waiters, woken, entry, prio, ops[t := op], entry);
      PromisedStep(ops, payload, asked, got, t, op);
      free := next[msg];
      freed := freed[1..];
      ops := ops[t := op];
      holder := holder[msg := t];
      ok := true;
    }

    /** Between the critical sections: rt_mq_send clears the link and both copy the message. */
    method SendFill(t: int)
      requires Valid() && t in ops && ops[t].Sending? && !ops[t].filled
      modifies this`next, this`data, this`ops
      ensures Valid()
      ensures ops == old(ops)[t := old(ops)[t].(filled := true)]
    {
      hide Shape, Owned, Contents, Sleepers, Ordered, Traced, Promised;
      var op := ops[t];
      var n := op.node;
      OwnDrop(ops, holder, t);
      NodesPut(pool, freed, queued, holder, n);
      ShapeOther(next, head, tail, free, entry, queued, freed, n, NULL);
      ContentsFill(pool, next, data, msgSize, payload, queued, ops, holder, t,
                   if op.urgent then next else next[n := NULL]);
      OwnKeep(ops, holder, t, op.(filled := true));
      SleepersAwake(ops, waiters, woken, entry, prio, ops[t := op.(filled := true)], entry);
      PromisedStep(ops, payload, asked, got, t, op.(filled := true));
      if !op.urgent {
        next := next[n := NULL];
      }
      data := data[n := op.msg + data[n][|op.msg|..]];
      ops := ops[t := op.(filled := true)];
    }

    /** rt_ipc_list_resume on the first waiter, if there is one. */
    method WakeOne()
      requires waiters != [] ==> waiters[0] in ops && ops[waiters[0]].Waiting?
      modifies this`ops, this`waiters, this`woken
      ensures waiters == IpcList.Rest(old(waiters)) && woken == old(woken) + IpcList.First(old(waiters))
      ensures ops == Resumed(old(ops), old(waiters))
    {
      if waiters != [] {
        var w := waiters[0];
        waiters := waiters[1..];
        ops := ops[w := Woken(ops[w].size)];
        woken := woken + {w};
      }
    }

    ghost method NoteLink(msg: int, item: Item, queued': seq<int>)
      modifies this`queued, this`holder, this`payload, this`urgents, this`normals, this`events
      ensures queued == queued' && holder == old(holder) - {msg} && payload == old(payload)[msg := item]
      ensures normals == if item.urgent then old(normals) else old(normals) + [item]
      ensures urgents == if item.urgent then [item] + old(urgents) else old(urgents)
      ensures events == old(events) + [if item.urgent then LinkUrgent(item.msg) else LinkNormal(item.msg)]
    {
      queued, holder, payload := queued', holder - {msg}, payload[msg := item];
      events := events + [if item.urgent then LinkUrgent(item.msg) else LinkNormal(item.msg)];
      if item.urgent {
        urgents := [item] + urgents;
      } else {
        normals := normals + [item];
      }
    }

    method LinkLast(t: int, msg: int)
      requires t in ops && ops[t].Sending? && !ops[t].urgent
      modifies this`next, this`head, this`tail, this`entry, this`ops, this`queued, this`holder, this`payload,
          this`urgents, this`normals, this`events
      ensures next == (if old(tail) != NULL then old(next)[old(tail) := msg] else old(next))
      ensures head == (if old(head) == NULL then msg else old(head)) && tail == msg && entry == old(entry) + 1
      ensures queued == old(queued) + [msg] && payload == old(payload)[msg := old(Linked(t))]
      ensures normals == old(normals) + [old(Linked(t))] && urgents == old(urgents)
      ensures events == old(events) + [LinkNormal(old(ops)[t].msg)]
      ensures ops == old(ops) - {t} && holder == old(holder) - {msg}
    {
      ghost var item := Linked(t);
      if tail != NULL {
        next := next[tail := msg];
      }
      tail := msg;
      if head == NULL {
        head := msg;
      }
      entry := entry + 1;
      ops := ops - {t};
      NoteLink(msg, item, queued + [msg]);
    }

    method LinkFirst(t: int, msg: int)
      requires t in ops && ops[t].Sending? && ops[t].urgent
      modifies this`next, this`head, this`tail, this`entry, this`ops, this`queued, this`holder, this`payload,
          this`urgents, this`normals, this`events
      ensures next == old(next)[msg := old(head)] && head == msg
      ensures tail == (if old(tail) == NULL then msg else old(tail)) && entry == old(entry) + 1
      ensures queued == [msg] + old(queued) && payload == old(payload)[msg := old(Linked(t))]
      ensures urgents == [old(Linked(t))] + old(urgents) && normals == old(normals)
      ensures events == old(events) + [LinkUrgent(old(ops)[t].msg)]
      ensures ops == old(ops) - {t} && holder == old(holder) - {msg}
    {
      ghost var item := Linked(t);
      next := next[msg := head];
      head := msg;
      if tail == NULL {
        tail := msg;
      }
      entry := entry + 1;
      ops := ops - {t};
      NoteLink(msg, item, [msg] + queued);
    }

    ghost function Linked(t: int): Item
      reads this
      requires t in ops && ops[t].Sending?
    {
      Item(ops[t].msg, ops[t].urgent)
    }

    /** What both second critical sections share: ownership and sleepers after the sender has left. */
    lemma LinkShared(t: int, queued': seq<int>)
      requires Valid() && t in ops && ops[t].Sending? && ops[t].filled
      requires forall x :: x in queued' <==> x in queued || x == ops[t].node
      ensures waiters != [] ==> waiters[0] in ops && ops[waiters[0]].Waiting? && waiters[0] != t
      ensures Owned(AfterSend(ops, waiters, t), holder - {ops[t].node})
      ensures Nodes(pool, freed, queued', holder - {ops[t].node})
      ensures Sleepers(AfterSend(ops, waiters, t), IpcList.Rest(waiters), woken + IpcList.First(waiters), entry + 1,
          prio)
      ensures ops[t].node !in queued && ops[t].node !in freed && ops[t].node != NULL
      ensures forall x :: x in queued ==> x !in freed && x !in holder
      ensures forall u :: u in AfterSend(ops, waiters, t) && !HoldsNone(AfterSend(ops, waiters, t)[u]) ==>
        u != t && u in ops && AfterSend(ops, waiters, t)[u] == ops[u]
    {
      hide Shape, Owned, Nodes, Contents, Sleepers, Ordered, Traced, Promised;
      FirstWaits(ops, waiters, woken, entry, prio);
      OwnSend(ops, holder, t, waiters);
      NodesLink(pool, freed, queued, holder, ops[t].node, queued');
      SleepersSend(ops, waiters, woken, entry, prio, t);
    }

    lemma SendLinked(t: int)
      requires Valid() && t in ops && ops[t].Sending? && ops[t].filled && !ops[t].urgent
      ensures waiters != [] ==> waiters[0] in ops && ops[waiters[0]].Waiting? && waiters[0] != t
      ensures Shape(if tail != NULL then next[tail := ops[t].node] else next,
                    if head == NULL then ops[t].node else head,
                    ops[t].node, free, entry + 1, queued + [ops[t].node], freed)
      ensures Nodes(pool, freed, queued + [ops[t].node], holder - {ops[t].node})
      ensures Owned(AfterSend(ops, waiters, t), holder - {ops[t].node})
      ensures Contents(pool, if tail != NULL then next[tail := ops[t].node]
          else next, data, msgSize, payload[ops[t].node := Linked(t)], queued + [ops[t].node],
          AfterSend(ops, waiters, t))
      ensures Sleepers(AfterSend(ops, waiters, t), IpcList.Rest(waiters), woken + IpcList.First(waiters), entry + 1,
          prio)
      ensures Promised(AfterSend(ops, waiters, t), payload[ops[t].node := Linked(t)], asked, got)
      ensures Ordered(queued + [ops[t].node], payload[ops[t].node := Linked(t)], urgents, normals + [Linked(t)])
    {
      hide Shape, Owned, Nodes, Contents, Sleepers, Ordered, Traced, Promised;
      LinkShared(t, queued + [ops[t].node]);
      SentNode(pool, next, data, msgSize, payload, queued, ops, t);
      ShapeAppend(next, head, tail, free, entry, queued, freed, ops[t].node);
      TailQueued(next, head, tail, free, entry, queued, freed);
      ContentsLink(pool, next, data, msgSize, payload, queued, ops, holder, t,
                   if tail != NULL then next[tail := ops[t].node] else next,
                   queued + [ops[t].node], AfterSend(ops, waiters, t));
      PromisedLink(ops, holder, payload, asked, got, waiters, t, Linked(t));
      OrderedAppend(queued, payload, urgents, normals, ops[t].node, Linked(t));
    }

    /** Second critical section of rt_mq_send: the message becomes the newest normal one. */
    method SendLink(t: int)
      requires Valid() && t in ops && ops[t].Sending? && ops[t].filled && !ops[t].urgent
      modifies this`next, this`head, this`tail, this`entry, this`ops, this`waiters, this`woken, this`queued,
          this`holder, this`payload, this`urgents, this`normals, this`events
      ensures Valid() && entry == old(entry) + 1 && t !in ops
      ensures normals == old(normals) + [Item(old(ops)[t].msg, false)] && urgents == old(urgents)
      ensures events == old(events) + [LinkNormal(old(ops)[t].msg)]
      ensures old(waiters) != [] ==>
        old(waiters)[0] != t && old(waiters)[0] in old(ops) && old(ops)[old(waiters)[0]].Waiting?
      ensures ops == AfterSend(old(ops), old(waiters), t)
      ensures woken == old(woken) + IpcList.First(old(waiters)) && waiters == IpcList.Rest(old(waiters))
    {
      hide Shape, Owned, Nodes, Contents, Sleepers, Ordered, Traced, Promised;
      var msg := ops[t].node;
      ghost var item := Linked(t);
      SendLinked(t);
      TracedStep(events, urgents, normals, LinkNormal(item.msg));
      LinkLast(t, msg);
      WakeOne();
    }

    lemma UrgentLinked(t: int)
      requires Valid() && t in ops && ops[t].Sending? && ops[t].filled && ops[t].urgent
      ensures waiters != [] ==> waiters[0] in ops && ops[waiters[0]].Waiting? && waiters[0] != t
      ensures Shape(next[ops[t].node := head], ops[t].node,
                    if tail == NULL then ops[t].node else tail,
                    free, entry + 1, [ops[t].node] + queued, freed)
      ensures Nodes(pool, freed, [ops[t].node] + queued, holder - {ops[t].node})
      ensures Owned(AfterSend(ops, waiters, t), holder - {ops[t].node})
      ensures Contents(pool, next[ops[t].node := head], data, msgSize, payload[ops[t].node := Linked(t)],
          [ops[t].node] + queued, AfterSend(ops, waiters, t))
      ensures Sleepers(AfterSend(ops, waiters, t), IpcList.Rest(waiters), woken + IpcList.First(waiters), entry + 1,
          prio)
      ensures Promised(AfterSend(ops, waiters, t), payload[ops[t].node := Linked(t)], asked, got)
      ensures Ordered([ops[t].node] + queued, payload[ops[t].node := Linked(t)], [Linked(t)] + urgents, normals)
    {
      hide Shape, Owned, Nodes, Contents, Sleepers, Ordered, Traced, Promised;
      LinkShared(t, [ops[t].node] + queued);
      ShapePrepend(next, head, tail, free, entry, queued, freed, ops[t].node);
      ContentsLink(pool, next, data, msgSize, payload, queued, ops, holder, t, next[ops[t].node := head],
          [ops[t].node] + queued, AfterSend(ops, waiters, t));
      PromisedLink(ops, holder, payload, asked, got, waiters, t, Linked(t));
      OrderedPrepend(queued, payload, urgents, normals, ops[t].node, Linked(t));
    }

    /** Second critical section of rt_mq_urgent: the message goes in front of everything. */
    method UrgentLink(t: int)
      requires Valid() && t in ops && ops[t].Sending? && ops[t].filled && ops[t].urgent
      modifies this`next, this`head, this`tail, this`entry, this`ops, this`waiters, this`woken, this`queued,
          this`holder, this`payload, this`urgents, this`normals, this`events
      ensures Valid() && entry == old(entry) + 1 && t !in ops
      ensures urgents == [Item(old(ops)[t].msg, true)] + old(urgents) && normals == old(normals)
      ensures events == old(events) + [LinkUrgent(old(ops)[t].msg)]
      ensures old(waiters) != [] ==>
        old(waiters)[0] != t && old(waiters)[0] in old(ops) && old(ops)[old(waiters)[0]].Waiting?
      ensures ops == AfterSend(old(ops), old(waiters), t)
      ensures woken == old(woken) + IpcList.First(old(waiters)) && waiters == IpcList.Rest(old(waiters))
    {
      hide Shape, Owned, Nodes, Contents, Sleepers, Ordered, Traced, Promised;
      var msg := ops[t].node;
      ghost var item := Linked(t);
      UrgentLinked(t);
      TracedStep(events, urgents, normals, LinkUrgent(item.msg));
      LinkFirst(t, msg);
      WakeOne();
    }

    lemma Taken(t: int, size: nat)
      requires Valid() && entry > 0 && (t in ops ==> ops[t].Woken?) && t in asked && asked[t] == size
      ensures queued != [] && head == queued[0] && head in next && head in payload
      ensures urgents != [] || normals != []
      ensures payload[head] == FrontItem(urgents, normals)
      ensures Shape(next, next[head], if tail == head then NULL else tail, free, entry - 1, queued[1..], freed)
      ensures Nodes(pool, freed, queued[1..], holder[head := t])
      ensures Owned(ops[t := Receiving(head, size)], holder[head := t])
      ensures Contents(pool, next, data, msgSize, payload, queued[1..], ops[t := Receiving(head, size)])
      ensures Sleepers(ops[t := Receiving(head, size)], waiters, woken - {t}, entry - 1, prio)
      ensures Promised(ops[t := Receiving(head, size)], payload, asked, got[t := payload[head]])
      ensures Ordered(queued[1..], payload, RestUrgents(urgents), RestNormals(urgents, normals))
    {
      hide Shape, Owned, Nodes, Contents, Sleepers, Ordered, Traced, Promised;
      var op := Receiving(head, size);
      ShapeTake(next, head, tail, free, entry, queued, freed);
      NodesRecv(pool, freed, queued, holder, t);
      OwnTake(ops, holder, t, head, op);
      IpcList.TailMembers(queued);
      ContentsMove(pool, next, data, msgSize, payload, queued, ops, holder, t, next, queued[1..], ops[t := op]);
      assert ops[t := op] - {t} == ops - {t};
      SleepersRun(ops, waiters, woken, entry, prio, t, entry - 1, ops[t := op]);
      OrderedTake(queued, payload, urgents, normals);
      PromisedTake(ops, payload, asked, got, t, op);
    }

    /** The end of the first critical section of rt_mq_recv: take the head node. */
    method TakeHead(t: int, size: nat)
      requires Valid() && entry > 0 && (t in ops ==> ops[t].Woken?) && t in asked && asked[t] == size
      modifies this`head, this`tail, this`entry, this`ops, this`queued, this`holder, this`woken, this`urgents,
          this`normals, this`events, this`got
      ensures Valid() && entry == old(entry) - 1
      ensures old(urgents) != [] || old(normals) != []
      ensures urgents == RestUrgents(old(urgents)) && normals == RestNormals(old(urgents), old(normals))
      ensures got == old(got)[t := FrontItem(old(urgents), old(normals))]
      ensures events == old(events) + [TakeFront]
      ensures ops == old(ops)[t := Receiving(old(head), size)]
      ensures t in ops && ops[t].Receiving? && ops[t].size == size && ops[t].node in payload
      ensures payload[ops[t].node] == FrontItem(old(urgents), old(normals))
    {
      hide Shape, Owned, Nodes, Contents, Sleepers, Ordered, Traced, Promised, FrontItem, RestUrgents, RestNormals;
      Taken(t, size);
      TracedStep(events, urgents, normals, TakeFront);
      UnlinkHead(t, size, payload[head]);
    }

    ghost method NoteTake(t: int, msg: int, item: Item)
      requires queued != []
      modifies this`queued, this`holder, this`woken, this`urgents, this`normals, this`events, this`got
      ensures queued == old(queued)[1..] && holder == old(holder)[msg := t] && woken == old(woken) - {t}
      ensures urgents == RestUrgents(old(urgents)) && normals == RestNormals(old(urgents), old(normals))
      ensures events == old(events) + [TakeFront] && got == old(got)[t := item]
    {
      hide RestUrgents, RestNormals;
      queued, holder, woken := queued[1..], holder[msg := t], woken - {t};
      urgents, normals := RestUrgents(urgents), RestNormals(urgents, normals);
      events, got := events + [TakeFront], got[t := item];
    }

    method UnlinkHead(t: int, size: nat, ghost item: Item)
      requires head in next && entry > 0 && queued != []
      modifies this`head, this`tail, this`entry, this`ops, this`queued, this`holder, this`woken, this`urgents,
          this`normals, this`events, this`got
      ensures urgents == RestUrgents(old(urgents)) && normals == RestNormals(old(urgents), old(normals))
      ensures events == old(events) + [TakeFront] && got == old(got)[t := item]
      ensures head == next[old(head)] && tail == (if old(tail) == old(head) then NULL else old(tail))
      ensures entry == old(entry) - 1
      ensures queued == old(queued)[1..] && ops == old(ops)[t := Receiving(old(head), size)]
      ensures holder == old(holder)[old(head) := t] && woken == old(woken) - {t}
    {
      hide RestUrgents, RestNormals;
      var msg := head;
      head := next[msg];
      if tail == msg {
        tail := NULL;
      }
      entry := entry - 1;
      ops := ops[t := Receiving(msg, size)];
      NoteTake(t, msg, item);
    }

    /** The suspending part of rt_mq_recv on an empty queue. */
    method Suspend(t: int, size: nat)
      requires Valid() && entry == 0 && (t in ops ==> ops[t].Woken?) && t in prio && t in asked && asked[t] == size
      modifies this`ops, this`waiters, this`woken
      ensures Valid() && ops == old(ops)[t := Waiting(size)] && woken == old(woken) - {t}
      ensures IpcList.Known(old(waiters), prio) && waiters == IpcList.Suspended(old(waiters), t, prio, flag)
    {
      hide Shape, Owned, Nodes, Contents, Sleepers, Ordered, Traced, Promised, IpcList.Suspended;
      OwnIdle(ops, holder, ops[t := Waiting(size)]);
      ContentsTake(pool, next, data, msgSize, payload, queued, ops, t, Waiting(size));
      SleepersWait(ops, waiters, woken, prio, t, size, flag);
      PromisedStep(ops, payload, asked, got, t, Waiting(size));
      waiters := IpcList.ListSuspend(waiters, t, prio, flag);
      ops, woken := ops[t := Waiting(size)], woken - {t};
    }

    /** rt_mq_recv up to its first blocking point. `wait` is a non-zero timeout. */
    method RecvStart(t: int, size: nat, wait: bool) returns (r: RecvStatus)
      requires Valid() && t !in ops && t in prio
      modifies this`head, this`tail, this`entry, this`ops, this`queued, this`holder, this`waiters, this`woken,
          this`urgents, this`normals, this`events, this`asked, this`got
      ensures Valid() && events == old(events) + (if r.Got? then [TakeFront] else [])
      ensures r == (if old(entry) > 0 then Got else if wait then Blocked else TimedOut)
      ensures r.TimedOut? ==> unchanged(this)
      ensures !r.TimedOut? ==> asked == old(asked)[t := size]
      ensures r.Got? ==>
        && t in ops && ops[t].Receiving? && ops[t].size == size && ops[t].node in payload
        && (old(urgents) != [] || old(normals) != [])
        && payload[ops[t].node] == FrontItem(old(urgents), old(normals))
        && got == old(got)[t := FrontItem(old(urgents), old(normals))]
        && ops == old(ops)[t := ops[t]] && entry == old(entry) - 1
        && urgents == RestUrgents(old(urgents)) && normals == RestNormals(old(urgents), old(normals))
      ensures !r.Got? ==> entry == old(entry) && urgents == old(urgents) && normals == old(normals)
      ensures r.Blocked? ==>
        && ops == old(ops)[t := Waiting(size)] && got == old(got)
        && IpcList.Known(old(waiters), prio) && waiters == IpcList.Suspended(old(waiters), t, prio, flag)
    {
      hide FrontItem, RestUrgents, RestNormals, Shape, Owned, Nodes, Contents, Sleepers, Ordered, Traced;
      if entry == 0 && !wait {
        return TimedOut;
      }
      asked := asked[t := size];
      hide Valid, Promised;
      if entry == 0 {
        Suspend(t, size);
        return Blocked;
      }
      TakeHead(t, size);
      r := Got;
    }

    /** A resumed receiver runs again: an error ends the call; otherwise the emptiness test is repeated,
        and an exhausted timeout ends the call only if there still is no message. It goes on with the buffer size it
        was called with. */
    method RecvResume(t: int, exhausted: bool) returns (r: RecvStatus)
      requires Valid() && t in ops && (ops[t].Woken? || ops[t].Failed?) && t in prio
      modifies this`head, this`tail, this`entry, this`ops, this`queued, this`holder, this`waiters, this`woken,
          this`urgents, this`normals, this`events, this`got
      ensures Valid() && events == old(events) + (if r.Got? then [TakeFront] else [])
      ensures r == if old(ops)[t].Failed? then Error
                   else if old(entry) > 0 then Got
                   else if exhausted then TimedOut else Blocked
      ensures r.Error? || r.TimedOut? ==> ops == old(ops) - {t} && got == old(got)
      ensures r.Got? ==>
        && t in ops && ops[t].Receiving? && ops[t].size == old(ops)[t].size && ops[t].node in payload
        && (old(urgents) != [] || old(normals) != [])
        && payload[ops[t].node] == FrontItem(old(urgents), old(normals))
        && got == old(got)[t := FrontItem(old(urgents), old(normals))]
        && ops == old(ops)[t := ops[t]] && entry == old(entry) - 1
        && urgents == RestUrgents(old(urgents)) && normals == RestNormals(old(urgents), old(normals))
      ensures !r.Got? ==> entry == old(entry) && urgents == old(urgents) && normals == old(normals)
      ensures r.Blocked? ==>
        && ops == old(ops)[t := Waiting(old(ops)[t].size)] && got == old(got)
        && IpcList.Known(old(waiters), prio) && waiters == IpcList.Suspended(old(waiters), t, prio, flag)
    {
      if ops[t].Woken? { AskedSize(t); }
      hide Valid, FrontItem, RestUrgents, RestNormals;
      if ops[t].Failed? {
        Leave(t);
        return Error;
      }
      var size := ops[t].size;
      if entry > 0 {
        TakeHead(t, size);
        return Got;
      }
      if exhausted {
        Leave(t);
        return TimedOut;
      }
      Suspend(t, size);
      r := Blocked;
    }

    /** A receiver goes on with the size it was called with. */
    lemma AskedSize(t: int)
      requires Valid() && t in ops && (ops[t].Waiting? || ops[t].Woken? || ops[t].Receiving?)
      ensures t in asked && ops[t].size == asked[t]
      ensures ops[t].Receiving? ==> t in got && ops[t].node in payload && payload[ops[t].node] == got[t]
    {
      hide Shape, Owned, Nodes, Contents, Sleepers, Ordered, Traced;
    }

    /** A receiver without a message returns to its caller. */
    method Leave(t: int)
      requires Valid() && t in ops && (ops[t].Failed? || (ops[t].Woken? && entry == 0))
      modifies this`ops, this`woken
      ensures Valid() && ops == old(ops) - {t} && woken == old(woken) - {t}
    {
      hide Shape, Owned, Nodes, Contents, Sleepers, Ordered, Traced, Promised;
      OwnIdle(ops, holder, ops - {t});
      ContentsMove(pool, next, data, msgSize, payload, queued, ops, holder, t, next, queued, ops - {t});
      SleepersLeave(ops, waiters, woken, entry, prio, t);
      PromisedStep(ops, payload, asked, got, t, Failed);
      ops, woken := ops - {t}, woken - {t};
    }

    /** Between the critical sections of rt_mq_recv: the copy out of the node delivers as many bytes as the receive was
        called for, up to the message size, and they begin with the message it took, whatever other threads did in the
        meantime and whether it had to wait or not. */
    method RecvCopy(t: int) returns (buffer: Bytes)
      requires Valid() && t in ops && ops[t].Receiving?
      ensures t in asked && t in got && ops[t].node in payload && payload[ops[t].node] == got[t]
      ensures |buffer| == Min(asked[t], msgSize) && ops[t].node in data && |data[ops[t].node]| == msgSize
      ensures buffer == data[ops[t].node][..|buffer|]
      ensures var msg := got[t].msg;
        |msg| <= msgSize && buffer[..Min(|buffer|, |msg|)] == msg[..Min(|buffer|, |msg|)]
    {
      AskedSize(t);
      hide Shape, Owned, Nodes, Contents, Sleepers, Ordered, Traced, Promised;
      ReceivedItem(pool, next, data, msgSize, payload, queued, ops, t);
      var (n, size) := (ops[t].node, ops[t].size);
      buffer := data[n][..Min(size, msgSize)];
      ghost var msg := payload[n].msg;
      assert forall k :: 0 <= k <= |msg| ==> data[n][..k] == data[n][..|msg|][..k];
    }

    lemma PutBack(t: int)
      requires Valid() && t in ops && ops[t].Receiving?
      ensures Shape(next[ops[t].node := free], head, tail, ops[t].node, entry, queued, [ops[t].node] + freed)
      ensures Nodes(pool, [ops[t].node] + freed, queued, holder - {ops[t].node})
      ensures Owned(ops - {t}, holder - {ops[t].node})
      ensures Contents(pool, next[ops[t].node := free], data, msgSize, payload, queued, ops - {t})
      ensures Sleepers(ops - {t}, waiters, woken, entry, prio) && Promised(ops - {t}, payload, asked, got)
    {
      hide Shape, Owned, Nodes, Contents, Sleepers, Ordered, Traced, Promised;
      var msg := ops[t].node;
      PromisedStep(ops, payload, asked, got, t, Failed);
      OwnDrop(ops, holder, t);
      NodesPut(pool, freed, queued, holder, msg);
      ShapePut(next, head, tail, free, entry, queued, freed, msg);
      ContentsMove(pool, next, data, msgSize, payload, queued, ops, holder, t, next[msg := free], queued, ops - {t});
      SleepersAwake(ops, waiters, woken, entry, prio, ops - {t}, entry);
    }

    /** Second critical section of rt_mq_recv: the node goes back to the free list. */
    method RecvPut(t: int)
      requires Valid() && t in ops && ops[t].Receiving?
      modifies this`next, this`free, this`ops, this`freed, this`holder
      ensures Valid() && ops == old(ops) - {t} && freed == [old(ops)[t].node] + old(freed)
    {
      hide Shape, Owned, Nodes, Contents, Sleepers, Ordered, Traced, Promised;
      PutBack(t);
      var msg := ops[t].node;
      next, free := next[msg := free], msg;
      ops, freed, holder := ops - {t}, [msg] + freed, holder - {msg};
    }

    /** rt_thread_timeout of a waiting receiver. */
    method Timeout(t: int)
      requires Valid() && t in ops && ops[t].Waiting?
      modifies this`ops, this`waiters
      ensures Valid() && ops == old(ops)[t := Failed] && waiters == IpcList.Removed(old(waiters), t)
    {
      hide Shape, Owned, Nodes, Contents, Sleepers, Ordered, Traced, Promised;
      OwnIdle(ops, holder, ops[t := Failed]);
      ContentsTake(pool, next, data, msgSize, payload, queued, ops, t, Failed);
      SleepersTimeout(ops, waiters, woken, entry, prio, t);
      PromisedStep(ops, payload, asked, got, t, Failed);
      ops, waiters := ops[t := Failed], IpcList.Removed(waiters, t);
    }

    /** rt_ipc_list_resume_all: every waiter is resumed with an error. */
    method FailAll()
      requires Valid()
      modifies this`ops, this`waiters
      ensures Valid() && waiters == [] && ops == AllFailed(old(ops))
    {
      hide Valid, AllFailed, IpcList.Removed;
      while waiters != []
        invariant Valid() && AllFailed(ops) == AllFailed(old(ops))
        decreases |waiters|
      {
        var w := waiters[0];
        FirstReceiver();
        FailOne(ops, w);
        Timeout(w);
      }
      NoReceiver();
    }

    lemma FirstReceiver()
      requires Valid() && waiters != []
      ensures waiters[0] in waiters && waiters[0] in ops && ops[waiters[0]].Waiting?
    {
      hide Shape, Owned, Nodes, Contents, Sleepers, Ordered, Traced, Promised;
      FirstWaits(ops, waiters, woken, entry, prio);
    }

    lemma NoReceiver()
      requires Valid() && waiters == []
      ensures AllFailed(ops) == ops
    {
      hide Shape, Owned, Nodes, Contents, Sleepers, Ordered, Traced, Promised;
      NoneWaits(ops, waiters, woken, entry, prio);
    }

    ghost method NoteClear()
      modifies this`urgents, this`normals, this`events
      ensures urgents == [] && normals == [] && events == old(events) + [Clear]
    {
      urgents, normals, events := [], [], events + [Clear];
    }

    /** rt_mq_control(RT_IPC_CMD_RESET): every waiter fails, every queued message is dropped, messages
        in flight stay with their threads. */
    method Reset()
      requires Valid()
      modifies this`next, this`head, this`tail, this`free, this`entry, this`ops, this`waiters, this`queued, this`freed,
          this`urgents, this`normals, this`events
      ensures Valid() && entry == 0 && waiters == [] && urgents == [] && normals == []
      ensures events == old(events) + [Clear]
      ensures ops == AllFailed(old(ops))
      ensures queued == [] && forall n :: n in freed <==> n in old(freed) || n in old(queued)
    {
      hide Shape, Owned, Nodes, Contents, Sleepers, Ordered, Traced, Promised;
      FailAll();
      Drain();
      TracedStep(events, urgents, normals, Clear);
      entry := 0;
      NoteClear();
      NothingLeft(payload, ops, woken, old(entry), prio);
    }

    /** rt_mq_send without interruption. */
    method SendAtOnce(s: int, msg: Bytes)
      requires Valid() && s !in ops && freed != [] && |msg| <= msgSize
      modifies this`next, this`data, this`free, this`head, this`tail, this`entry, this`ops, this`waiters, this`woken,
          this`queued, this`freed, this`holder, this`payload, this`urgents, this`normals, this`events
      ensures Valid() && entry == old(entry) + 1 && waiters == IpcList.Rest(old(waiters))
      ensures normals == old(normals) + [Item(msg, false)] && urgents == old(urgents)
      ensures old(waiters) != [] ==> old(waiters)[0] in old(ops) && old(ops)[old(waiters)[0]].Waiting?
      ensures ops == Resumed(old(ops), old(waiters))
    {
      hide Valid;
      if waiters != [] { FirstReceiver(); }
      var ok := SendTake(s, msg, false);
      SendFill(s);
      SendLink(s);
      assert ops == Resumed(old(ops), old(waiters));
    }

    /** The two ends together: a receiver that had to wait gets the message sent to it, cut to the size it asked for. */
    method HandOver(t: int, size: nat, s: int, msg: Bytes) returns (buffer: Bytes)
      requires Valid() && t !in ops && s !in ops && t != s && t in prio && waiters == []
      requires entry == 0 && freed != [] && |msg| <= msgSize
      modifies this
      ensures Valid() && ops == old(ops) && entry == 0
      ensures |buffer| == Min(size, msgSize)
      ensures buffer[..Min(|buffer|, |msg|)] == msg[..Min(|buffer|, |msg|)]
    {
      hide Valid, RestUrgents, RestNormals;
      Nothing();
      var r := RecvStart(t, size, true);
      assert waiters == [t];
      SendAtOnce(s, msg);
      r := RecvResume(t, false);
      buffer := RecvCopy(t);
      RecvPut(t);
      assert ops == old(ops);
    }

    lemma Nothing()
      requires Valid() && entry == 0
      ensures urgents == [] && normals == [] && queued == []
    {
      hide Owned, Nodes, Contents, Sleepers, Traced, Promised;
    }

    /** The message count never exceeds the number of nodes, so that it fits its 16 bits as that number does. */
    lemma EntryFits()
      requires Valid()
      ensures entry <= |pool| && entry < 0x1_0000
    {
      hide Owned, Contents, Sleepers, Ordered, Traced, Promised;
      Distinct(queued);
      SubsetSize((set n | n in queued), pool);
    }

    /** The object's whole past: normal messages left in link order and the rest of them is queued; nothing was lost
        or doubled. */
    lemma Delivered()
      requires Valid()
      ensures var h := Run(events);
        && NormalOnly(h.linked) == NormalOnly(h.left) + normals
        && multiset(h.linked) == multiset(h.left) + multiset(urgents) + multiset(normals)
    {
      hide Shape, Owned, Nodes, Contents, Sleepers, Ordered;
      DeliveryOrder(events);
    }

    method Drain()
      requires Shape(next, head, tail, free, entry, queued, freed) && Nodes(pool, freed, queued, holder)
      requires Owned(ops, holder)
      requires Contents(pool, next, data, msgSize, payload, queued, ops)
      modifies this`next, this`head, this`tail, this`free, this`queued, this`freed
      ensures queued == [] && forall n :: n in freed <==> n in old(freed) || n in old(queued)
      ensures Shape(next, head, tail, free, 0, [], freed) && Nodes(pool, freed, [], holder)
      ensures Contents(pool, next, data, msgSize, payload, [], ops)
    {
      hide Shape, Owned, Nodes, Contents;
      QueueCount(next, head, tail, free, entry, queued, freed);
      while head != NULL
        invariant Shape(next, head, tail, free, |queued|, queued, freed) && Nodes(pool, freed, queued, holder)
        invariant Contents(pool, next, data, msgSize, payload, queued, ops)
        invariant forall n :: n in freed || n in queued <==> n in old(freed) || n in old(queued)
        decreases |queued|
      {
        QueueCount(next, head, tail, free, |queued|, queued, freed);
        DropHead(pool, next, head, tail, free, queued, freed, holder, data, msgSize, payload, ops);
        var msg := head;
        assert queued == [msg] + queued[1..];
        head := next[msg];
        tail := if tail == msg then NULL else tail;
        next, free := next[msg := free], msg;
        queued, freed := queued[1..], [msg] + freed;
      }
      QueueCount(next, head, tail, free, |queued|, queued, freed);
    }
  }

  lemma QueueCount(next: Links, head: int, tail: int, free: int, entry: nat, queued: seq<int>, freed: seq<int>)
    requires Shape(next, head, tail, free, entry, queued, freed)
    ensures entry == |queued| && (head == NULL <==> queued == [])
  {
  }

  lemma NothingLeft(payload: map<int, Item>, ops: Ops, woken: set<int>, entry: nat, prio: map<int, int>)
    requires Sleepers(ops, [], woken, entry, prio)
    ensures Ordered([], payload, [], []) && Sleepers(ops, [], woken, 0, prio)
  {
  }

  // ---------------------------------------------------------------- delivery order over whole runs

  /** The four things that happen to the message order, in the order of their critical sections. */
  datatype Event = LinkNormal(msg: Bytes) | LinkUrgent(msg: Bytes) | TakeFront | Clear

  /** What is queued, everything that was ever linked, and everything that left, in order. */
  datatype History = History(urgents: seq<Item>, normals: seq<Item>, linked: seq<Item>, left: seq<Item>)

  function Step(h: History, e: Event): History {
    match e
    case LinkNormal(m) => h.(normals := h.normals + [Item(m, false)], linked := h.linked + [Item(m, false)])
    case LinkUrgent(m) => h.(urgents := [Item(m, true)] + h.urgents, linked := h.linked + [Item(m, true)])
    case TakeFront =>
      if h.urgents == [] && h.normals == [] then h
      else h.(urgents := RestUrgents(h.urgents), normals := RestNormals(h.urgents, h.normals),
              left := h.left + [FrontItem(h.urgents, h.normals)])
    case Clear => History([], [], h.linked, h.left + h.urgents + h.normals)
  }

  function Run(events: seq<Event>): History {
    if events == [] then History([], [], [], [])
    else Step(Run(events[..|events| - 1]), events[|events| - 1])
  }

  /** The queue's contents are what the run so far leaves. */
  ghost predicate Traced(events: seq<Event>, urgents: seq<Item>, normals: seq<Item>) {
    Run(events).urgents == urgents && Run(events).normals == normals
  }

  lemma TracedStep(events: seq<Event>, urgents: seq<Item>, normals: seq<Item>, e: Event)
    requires Traced(events, urgents, normals)
    ensures e.LinkNormal? ==> Traced(events + [e], urgents, normals + [Item(e.msg, false)])
    ensures e.LinkUrgent? ==> Traced(events + [e], [Item(e.msg, true)] + urgents, normals)
    ensures e.TakeFront? && (urgents != [] || normals != []) ==>
        Traced(events + [e], RestUrgents(urgents), RestNormals(urgents, normals))
    ensures e.Clear? ==> Traced(events + [e], [], [])
  {
    assert (events + [e])[..|events|] == events;
  }

  function NormalOnly(s: seq<Item>): seq<Item> {
    if s == [] then []
    else NormalOnly(s[..|s| - 1]) + (if s[|s| - 1].urgent then [] else [s[|s| - 1]])
  }

  lemma {:induction false} NormalOnlyConcat(a: seq<Item>, b: seq<Item>)
    ensures NormalOnly(a + b) == NormalOnly(a) + NormalOnly(b)
  {
    if b == [] {
      assert a + b == a;
    } else {
      assert (a + b)[..|a + b| - 1] == a + b[..|b| - 1];
      NormalOnlyConcat(a, b[..|b| - 1]);
    }
  }

  lemma {:induction false} AllNormal(s: seq<Item>)
    requires forall i :: 0 <= i < |s| ==> !s[i].urgent
    ensures NormalOnly(s) == s
  {
    if s != [] { AllNormal(s[..|s| - 1]); assert s == s[..|s| - 1] + [s[|s| - 1]]; }
  }

  lemma {:induction false} AllUrgent(s: seq<Item>)
    requires forall i :: 0 <= i < |s| ==> s[i].urgent
    ensures NormalOnly(s) == []
  {
    if s != [] { AllUrgent(s[..|s| - 1]); }
  }

  ghost predicate Kinds(h: History) {
    && (forall i :: 0 <= i < |h.urgents| ==> h.urgents[i].urgent)
    && (forall i :: 0 <= i < |h.normals| ==> !h.normals[i].urgent)
  }

  /** The normal messages left in the order in which they were linked, the others are still queued. */
  ghost predicate InOrder(h: History) {
    NormalOnly(h.linked) == NormalOnly(h.left) + h.normals
  }

  ghost predicate Conserved(h: History) {
    multiset(h.linked) == multiset(h.left) + multiset(h.urgents) + multiset(h.normals)
  }

  /** In every run, urgent messages never reorder normal ones: the normal messages leave in exactly the
      order in which they were linked, and what has not left yet is what is queued. Nothing is lost or
      duplicated. */
  lemma {:induction false} DeliveryOrder(events: seq<Event>)
    ensures Kinds(Run(events)) && InOrder(Run(events)) && Conserved(Run(events))
  {
    if events != [] {
      var h, e := Run(events[..|events| - 1]), events[|events| - 1];
      DeliveryOrder(events[..|events| - 1]);
      OrderStep(h, e);
      ConservedStep(h, e);
    }
  }

  lemma OrderStep(h: History, e: Event)
    requires Kinds(h) && InOrder(h)
    ensures Kinds(Step(h, e)) && InOrder(Step(h, e))
  {
    hide NormalOnly, RestUrgents, RestNormals;
    match e {
      case LinkNormal(m) => NormalOnlyOne(h.linked, Item(m, false));
      case LinkUrgent(m) => NormalOnlyOne(h.linked, Item(m, true));
      case TakeFront => OrderTake(h);
      case Clear => OrderClear(h);
    }
  }

  lemma OrderClear(h: History)
    requires Kinds(h) && InOrder(h)
    ensures Kinds(Step(h, Clear)) && InOrder(Step(h, Clear))
  {
    hide NormalOnly;
    NormalOnlyConcat(h.left + h.urgents, h.normals);
    NormalOnlyConcat(h.left, h.urgents);
    AllUrgent(h.urgents);
    AllNormal(h.normals);
  }

  lemma OrderTake(h: History)
    requires Kinds(h) && InOrder(h)
    ensures Kinds(Step(h, TakeFront)) && InOrder(Step(h, TakeFront))
  {
    hide NormalOnly;
    if h.urgents != [] {
      NormalOnlyOne(h.left, h.urgents[0]);
    } else if h.normals != [] {
      NormalOnlyOne(h.left, h.normals[0]);
      assert h.normals == [h.normals[0]] + h.normals[1..];
    }
  }

  lemma NormalOnlyOne(s: seq<Item>, item: Item)
    ensures NormalOnly(s + [item]) == NormalOnly(s) + (if item.urgent then [] else [item])
  {
    assert (s + [item])[..|s|] == s;
  }

  lemma ConservedStep(h: History, e: Event)
    requires Conserved(h)
    ensures Conserved(Step(h, e))
  {
    if e.TakeFront? {
      if h.urgents != [] {
        assert h.urgents == [h.urgents[0]] + h.urgents[1..];
      } else if h.normals != [] {
        assert h.normals == [h.normals[0]] + h.normals[1..];
      }
    }
  }

  datatype RecvStatus = Got | Blocked | TimedOut | Error
}
