/** A ring buffer over a fixed array. */
module CircularQueues {
  import opened Wrappers

  /** The slot `k` steps on from the start of the buffer, at most once around. */
  function Slot(k: nat, n: nat): nat { if k < n then k else k - n }

  /** The values of `size` slots from `tail` on, around the end of the buffer. */
  function Ring<T>(slots: seq<T>, tail: nat, size: nat): (r: seq<T>)
    requires size <= |slots| && tail <= |slots|
    ensures |r| == size
    ensures forall i | 0 <= i < size :: r[i] == slots[Slot(tail + i, |slots|)]
  {
    seq(size, i requires 0 <= i < size => slots[Slot(tail + i, |slots|)])
  }

  /** Writing the slot after the last one adds a value at the end. */
  lemma RingPush<T>(slots: seq<T>, tail: nat, size: nat, value: T)
    requires size < |slots| && tail < |slots|
    ensures Ring(slots[Slot(tail + size, |slots|) := value], tail, size + 1) == Ring(slots, tail, size) + [value]
  {
  }

  /** Advancing the tail drops the first value. */
  lemma RingPop<T>(slots: seq<T>, tail: nat, size: nat)
    requires 0 < size <= |slots| && tail < |slots|
    ensures Ring(slots, Slot(tail + 1, |slots|), size - 1) == Ring(slots, tail, size)[1..]
    ensures Ring(slots, tail, size)[0] == slots[tail]
  {
  }

  class CircularQueue<T(0)> {
    const buffer: array<T>
    var size: nat
    var head: nat
    var tail: nat

    ghost predicate Valid()
      reads this
    {
      && size <= buffer.Length
      && (buffer.Length == 0 ==> head == 0 && tail == 0)
      && (buffer.Length > 0 ==> tail < buffer.Length && head == Slot(tail + size, buffer.Length))
    }

    ghost function Contents(): seq<T>
      requires Valid()
      reads this, buffer
    {
      Ring(buffer[..], tail, size)
    }

    function Capacity(): nat { buffer.Length }

    constructor (capacity: nat)
      ensures Valid() && Contents() == [] && Capacity() == capacity && fresh(buffer)
    {
      buffer := new T[capacity];
      size, head, tail := 0, 0, 0;
    }

    function NextIndex(idx: nat): (r: nat)
      requires idx < buffer.Length
      ensures r == Slot(idx + 1, buffer.Length)
    {
      (idx + 1) % buffer.Length
    }

    method TryPushBack(value: T) returns (pushed: bool)
      requires Valid()
      modifies this, buffer
      ensures Valid()
      ensures pushed <==> |old(Contents())| < Capacity()
      ensures Contents() == if pushed then old(Contents()) + [value] else old(Contents())
    {
      if size == buffer.Length { return false; }
      var oldHead := head;
      head := NextIndex(head);
      RingPush(buffer[..], tail, size, value);
      buffer[oldHead] := value;
      size := size + 1;
      assert buffer[..] == old(buffer[..])[oldHead := value];
      return true;
    }

    method PopFront() returns (r: Option<T>)
      requires Valid()
      modifies this
      ensures Valid()
      ensures old(Contents()) == [] ==> r == None && Contents() == []
      ensures old(Contents()) != [] ==> r == Some(old(Contents())[0]) && Contents() == old(Contents())[1..]
    {
      if size == 0 { return None; }
      RingPop(buffer[..], tail, size);
      var oldTail := tail;
      tail := NextIndex(tail);
      size := size - 1;
      return Some(buffer[oldTail]);
    }
  }
}
