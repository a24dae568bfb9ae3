/** The bounded request history (internal/history/history.go). */
module RingBuffer {

  /** The last `n` elements, or all of them when there are fewer. */
  function Last<T>(s: seq<T>, n: nat): seq<T> {
    if |s| <= n then s else s[|s| - n..]
  }

  /** The index `i` places after `head`, around the end of the buffer. */
  function Slot(head: nat, i: nat, size: nat): (slot: nat)
    requires head < size && i <= size
    ensures slot < size
  {
    if head + i < size then head + i else head + i - size
  }

  lemma NextSlot(slot: nat, size: nat)
    requires slot < size
    ensures (slot + 1) % size == Slot(slot, 1, size)
  {
    if slot + 1 < size {
    } else {
      assert (slot + 1) % size == 0;
    }
  }

  /** The `count` slots from `head` on hold the end of `added`, in order. */
  ghost predicate Holds<T>(slots: seq<T>, head: nat, tail: nat, count: nat, added: seq<T>) {
    var size := |slots|;
    && count == (if |added| < size then |added| else size)
    && (size == 0 ==> head == tail == 0)
    && (size > 0 ==> head < size && tail == Slot(head, count, size))
    && forall i :: 0 <= i < count ==> slots[Slot(head, i, size)] == added[|added| - count + i]
  }

  lemma HoldsAfterGrowing<T>(slots: seq<T>, head: nat, tail: nat, count: nat, added: seq<T>, r: T)
    requires Holds(slots, head, tail, count, added) && count < |slots|
    ensures Holds(slots[tail := r], head, (tail + 1) % |slots|, count + 1, added + [r])
  {
    var size := |slots|;
    NextSlot(tail, size);
    forall i | 0 <= i < count + 1
      ensures slots[tail := r][Slot(head, i, size)] == (added + [r])[|added| - count + i]
    {
    }
  }

  lemma HoldsAfterOverwriting<T>(slots: seq<T>, head: nat, tail: nat, count: nat, added: seq<T>, r: T)
    requires Holds(slots, head, tail, count, added) && 0 < count == |slots|
    ensures Holds(slots[tail := r], (head + 1) % |slots|, (tail + 1) % |slots|, count, added + [r])
  {
    var size := |slots|;
    NextSlot(tail, size);
    NextSlot(head, size);
    assert head == tail;
    var next := Slot(head, 1, size);
    forall i | 0 <= i < count
      ensures slots[tail := r][Slot(next, i, size)] == (added + [r])[|added| + 1 - count + i]
    {
      assert Slot(next, i, size) == Slot(head, i + 1, size);
    }
  }

  class RingBuffer<T(0)> {
    var records: array<T>
    var head: nat
    var tail: nat
    var size: nat
    var count: nat

    /** Everything added since creation or the last Clear, oldest first. */
    ghost var added: seq<T>

    ghost predicate Valid()
      reads this, records
    {
      records.Length == size && Holds(records[..], head, tail, count, added)
    }

    constructor (capacity: nat)
      ensures Valid() && fresh(records)
      ensures size == capacity && added == []
    {
      records := new T[capacity];
      head, tail, size, count := 0, 0, capacity, 0;
      added := [];
    }

    method Add(r: T)
      requires Valid()
      modifies this, records
      ensures Valid() && records == old(records) && size == old(size)
      ensures added == old(added) + [r]
    {
      added := added + [r];
      if size == 0 {
        return;
      }
      if count < size {
        HoldsAfterGrowing(records[..], head, tail, count, old(added), r);
      } else {
        HoldsAfterOverwriting(records[..], head, tail, count, old(added), r);
      }
      ghost var slots := records[..][tail := r];
      records[tail] := r;
      assert records[..] == slots;
      tail := (tail + 1) % size;
      if count < size {
        count := count + 1;
      } else {
        head := (head + 1) % size;
      }
    }

    method GetAll() returns (result: seq<T>)
      requires Valid()
      ensures result == Last(added, size)
    {
      if count == 0 {
        return [];
      }
      if head < tail {
        result := records[head..tail];
      } else {
        result := records[head..] + records[..tail];
      }
      assert forall i :: 0 <= i < count ==> result[i] == records[Slot(head, i, size)];
      assert forall i :: 0 <= i < count ==> Last(added, size)[i] == added[|added| - count + i];
    }

    method Clear()
      requires Valid()
      modifies this
      ensures Valid() && records == old(records) && size == old(size)
      ensures added == []
    {
      head, tail, count := 0, 0, 0;
      added := [];
    }

    method Count() returns (n: nat)
      requires Valid()
      ensures n == |Last(added, size)|
    {
      n := count;
    }
  }
}
