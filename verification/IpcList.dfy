/** The suspend lists of ipc.c: where rt_ipc_list_suspend puts a thread. */
module IpcList {
  import opened ChainList

  datatype Flag = Fifo | Prio   // RT_IPC_FLAG_FIFO, RT_IPC_FLAG_PRIO

  type Priorities = map<int, int>   // smaller is more urgent

  ghost predicate Known(list: seq<int>, prio: Priorities) {
    forall i :: 0 <= i < |list| ==> list[i] in prio
  }

  ghost predicate Sorted(list: seq<int>, prio: Priorities) {
    && Known(list, prio)
    && forall i, j :: 0 <= i < j < |list| ==> prio[list[i]] <= prio[list[j]]
  }

  /** The list after `thread` was suspended on it: at the end, or in front of the first thread that is
      strictly less urgent. */
  function Suspended(list: seq<int>, thread: int, prio: Priorities, flag: Flag): (r: seq<int>)
    requires thread in prio && Known(list, prio)
    ensures |r| == |list| + 1
    ensures forall t :: t in r <==> t in list || t == thread
  {
    if list == [] then [thread]
    else if flag.Prio? && prio[thread] < prio[list[0]] then [thread] + list
    else [list[0]] + Suspended(list[1..], thread, prio, flag)
  }

  lemma {:induction false} SuspendedSplit(list: seq<int>, thread: int, prio: Priorities, flag: Flag, p: nat)
    requires thread in prio && Known(list, prio) && p <= |list|
    requires forall i :: 0 <= i < p ==> flag.Fifo? || prio[list[i]] <= prio[thread]
    requires p < |list| ==> flag.Prio? && prio[thread] < prio[list[p]]
    ensures Suspended(list, thread, prio, flag) == list[..p] + [thread] + list[p..]
  {
    if list != [] && p > 0 {
      assert flag.Fifo? || prio[list[0]] <= prio[thread];
      assert Known(list[1..], prio);
      SuspendedSplit(list[1..], thread, prio, flag, p - 1);
      assert list[..p] + [thread] + list[p..] == [list[0]] + (list[1..][..p - 1] + [thread] + list[1..][p - 1..]);
    }
  }

  /** A priority-ordered list stays ordered, the newcomer behind everyone of its own urgency. */
  lemma {:induction false} SuspendedSorted(list: seq<int>, thread: int, prio: Priorities)
    requires thread in prio && Sorted(list, prio)
    ensures Sorted(Suspended(list, thread, prio, Prio), prio)
  {
    if list != [] && prio[list[0]] <= prio[thread] {
      assert Sorted(list[1..], prio);
      SuspendedSorted(list[1..], thread, prio);
      var r := Suspended(list[1..], thread, prio, Prio);
      forall j | 0 <= j < |r| ensures prio[list[0]] <= prio[r[j]] {
        var x := r[j];
        assert x in r;
        if x != thread {
          var i :| 0 <= i < |list[1..]| && list[1..][i] == x;
          assert list[i + 1] == x;
        }
      }
    }
  }

  /** The newcomer's place: behind everybody at least as urgent, in front of everybody less urgent. */
  lemma SuspendedPlace(list: seq<int>, thread: int, prio: Priorities) returns (p: nat)
    requires thread in prio && Sorted(list, prio)
    ensures p <= |list| && Suspended(list, thread, prio, Prio) == list[..p] + [thread] + list[p..]
    ensures forall i :: 0 <= i < |list| ==> (i < p <==> prio[list[i]] <= prio[thread])
  {
    p := 0;
    while p < |list| && prio[list[p]] <= prio[thread]
      invariant p <= |list| && forall i :: 0 <= i < p ==> prio[list[i]] <= prio[thread]
    {
      p := p + 1;
    }
    SuspendedSplit(list, thread, prio, Prio, p);
    assert p < |list| ==> forall i :: p <= i < |list| ==> prio[list[p]] <= prio[list[i]];
  }

  lemma TailMembers(s: seq<int>)
    requires s != [] && NoDup(s)
    ensures NoDup(s[1..]) && forall x :: x in s[1..] <==> x in s && x != s[0]
  {
    forall x | x in s && x != s[0] ensures x in s[1..] {
      var i :| 0 <= i < |s| && s[i] == x;
      assert s[1..][i - 1] == x;
    }
    forall x | x in s[1..] ensures x in s && x != s[0] {
      var i :| 0 <= i < |s[1..]| && s[1..][i] == x;
      assert s[i + 1] == x;
    }
  }

  /** A thread that is not on the list yet ends up on it once. */
  lemma {:induction false} SuspendedNoDup(list: seq<int>, t: int, prio: Priorities, flag: Flag)
    requires t in prio && Known(list, prio) && NoDup(list) && t !in list
    ensures NoDup(Suspended(list, t, prio, flag)) && Known(Suspended(list, t, prio, flag), prio)
  {
    var r := Suspended(list, t, prio, flag);
    if list != [] && !(flag.Prio? && prio[t] < prio[list[0]]) {
      TailMembers(list);
      assert Known(list[1..], prio);
      SuspendedNoDup(list[1..], t, prio, flag);
      var r1 := Suspended(list[1..], t, prio, flag);
      assert r == [list[0]] + r1;
      forall j | 0 <= j < |r1| ensures r1[j] != list[0] {
        var x := r1[j];
        assert x in r1;
      }
    }
  }

  /** The list after rt_ipc_list_resume, and whom it resumed. */
  function Rest(s: seq<int>): seq<int> {
    if s == [] then [] else s[1..]
  }

  function First(s: seq<int>): set<int> {
    if s == [] then {} else {s[0]}
  }

  /** The list after `thread` left it, by a timeout or by its own deletion. */
  function Removed(list: seq<int>, thread: int): (r: seq<int>)
    ensures forall t :: t in r <==> t in list && t != thread
    ensures |r| <= |list| && (thread in list ==> |r| < |list|)
  {
    if list == [] then []
    else if list[0] == thread then Removed(list[1..], thread)
    else [list[0]] + Removed(list[1..], thread)
  }

  lemma {:induction false} RemovedKeeps(list: seq<int>, thread: int, prio: Priorities)
    requires NoDup(list) && Known(list, prio)
    ensures NoDup(Removed(list, thread)) && Known(Removed(list, thread), prio)
    ensures Sorted(list, prio) ==> Sorted(Removed(list, thread), prio)
  {
    if list != [] {
      TailMembers(list);
      assert Known(list[1..], prio);
      RemovedKeeps(list[1..], thread, prio);
      var r := Removed(list[1..], thread);
      forall j | 0 <= j < |r| ensures r[j] != list[0] && (Sorted(list, prio) ==> prio[list[0]] <= prio[r[j]]) {
        var x := r[j];
        assert x in r;
        var i :| 0 <= i < |list[1..]| && list[1..][i] == x;
        assert list[i + 1] == x;
      }
    }
  }

  /** The others stay in their order. */
  lemma {:induction false} RemovedAt(list: seq<int>, thread: int, i: nat)
    requires NoDup(list) && i < |list| && list[i] == thread
    ensures Removed(list, thread) == list[..i] + list[i + 1..]
  {
    TailMembers(list);
    if i == 0 {
      RemovedAbsent(list[1..], thread);
    } else {
      RemovedAt(list[1..], thread, i - 1);
      assert list[..i] + list[i + 1..] == [list[0]] + (list[1..][..i - 1] + list[1..][i..]);
    }
  }

  lemma {:induction false} RemovedAbsent(list: seq<int>, thread: int)
    requires thread !in list
    ensures Removed(list, thread) == list
  {
    if list != [] {
      assert forall x :: x in list[1..] ==> x in list;
      RemovedAbsent(list[1..], thread);
    }
  }

  /** rt_ipc_list_suspend: the search loop over the list. */
  method ListSuspend(list: seq<int>, thread: int, prio: Priorities, flag: Flag) returns (r: seq<int>)
    requires thread in prio && Known(list, prio)
    ensures r == Suspended(list, thread, prio, flag)
  {
    var n := 0;
    match flag {
      case Fifo => n := |list|;
      case Prio =>
        while n < |list| && prio[thread] >= prio[list[n]]
          invariant n <= |list| && forall i :: 0 <= i < n ==> prio[list[i]] <= prio[thread]
        {
          n := n + 1;
        }
    }
    SuspendedSplit(list, thread, prio, flag, n);
    r := list[..n] + [thread] + list[n..];
  }
}
