/** The offset arithmetic shared by mailbox and fmq: a ring of `size` slots, `entry` of them in use from
    `out` on, denotes the sequence of its items. */
module RingBuffer {

  /** The slot i places behind slot `out`. */
  function Slot(out: nat, i: nat, size: nat): (r: nat)
    requires out < size && i <= size
    ensures r < size
  {
    if out + i < size then out + i else out + i - size
  }

  /** Advance an offset the way the code does: increment, back to zero at the end. */
  function Inc(k: nat, size: nat): (r: nat)
    requires k < size
    ensures r < size && r == Slot(k, 1, size)
  {
    if k + 1 >= size then 0 else k + 1
  }

  function Dec(k: nat, size: nat): (r: nat)
    requires k < size
    ensures r < size && Inc(r, size) == k
  {
    if k == 0 then size - 1 else k - 1
  }

  /** One slot after the other, and back to where one started after all of them. */
  lemma SlotSteps(out: nat, i: nat, size: nat)
    requires out < size && i < size
    ensures Slot(out, 0, size) == out && Slot(out, i + 1, size) == Inc(Slot(out, i, size), size)
    ensures Slot(out, size, size) == out
  {
  }

  ghost function Items<T>(buf: seq<T>, out: nat, entry: nat): (r: seq<T>)
    requires out < |buf| && entry <= |buf|
    ensures |r| == entry && forall i :: 0 <= i < entry ==> r[i] == buf[Slot(out, i, |buf|)]
  {
    seq(entry, i requires 0 <= i < entry => buf[Slot(out, i, |buf|)])
  }

  lemma PushBack<T>(buf: seq<T>, out: nat, entry: nat, v: T)
    requires out < |buf| && entry < |buf|
    ensures Items(buf[Slot(out, entry, |buf|) := v], out, entry + 1) == Items(buf, out, entry) + [v]
    ensures Inc(Slot(out, entry, |buf|), |buf|) == Slot(out, entry + 1, |buf|)
  {
  }

  lemma PopFront<T>(buf: seq<T>, out: nat, entry: nat)
    requires out < |buf| && 0 < entry <= |buf|
    ensures buf[out] == Items(buf, out, entry)[0]
    ensures Items(buf, Inc(out, |buf|), entry - 1) == Items(buf, out, entry)[1..]
    ensures Slot(Inc(out, |buf|), entry - 1, |buf|) == Slot(out, entry, |buf|)
  {
    var a, b := Items(buf, Inc(out, |buf|), entry - 1), Items(buf, out, entry)[1..];
    forall i | 0 <= i < entry - 1 ensures a[i] == b[i] {
      assert Slot(Inc(out, |buf|), i, |buf|) == Slot(out, i + 1, |buf|);
    }
  }

  lemma PushFront<T>(buf: seq<T>, out: nat, entry: nat, v: T)
    requires out < |buf| && entry < |buf|
    ensures var o := Dec(out, |buf|);
      && Items(buf[o := v], o, entry + 1) == [v] + Items(buf, out, entry)
      && Slot(o, entry + 1, |buf|) == Slot(out, entry, |buf|)
  {
    var o := Dec(out, |buf|);
    var a, b := Items(buf[o := v], o, entry + 1), [v] + Items(buf, out, entry);
    forall i | 0 <= i < entry + 1 ensures a[i] == b[i] {
      if i > 0 { assert Slot(o, i, |buf|) == Slot(out, i - 1, |buf|) != o; }
    }
  }

  lemma ReplaceFront<T>(buf: seq<T>, out: nat, entry: nat, v: T)
    requires out < |buf| && 0 < entry <= |buf|
    ensures Items(buf[out := v], out, entry) == [v] + Items(buf, out, entry)[1..]
  {
  }
}
