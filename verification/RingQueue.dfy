/** A fixed-capacity FIFO over a ring of slots. It stands for both the report pool and the event queues. */
module RingQueue {
  class Queue<T(0)> {
    const storage: array<T>
    var head: nat
    var tail: nat
    var count: nat

    ghost predicate Valid()
      reads this
    {
      && storage.Length > 0
      && head < storage.Length && tail < storage.Length && count <= storage.Length
      && tail == (if head + count < storage.Length then head + count else head + count - storage.Length)
    }

    /** The elements, front first. */
    ghost function Contents(): (s: seq<T>)
      requires Valid()
      reads this, storage
      ensures |s| == count
    {
      if head + count <= storage.Length then storage[head..head + count]
      else storage[head..] + storage[..head + count - storage.Length]
    }

    constructor (capacity: nat)
      requires capacity > 0
      ensures Valid() && fresh(storage) && storage.Length == capacity && Contents() == []
    {
      storage := new T[capacity];
      head, tail, count := 0, 0, 0;
    }

    function NextIndex(index: nat): (next: nat)
      requires index < storage.Length
      ensures next == (if index + 1 == storage.Length then 0 else index + 1)
    {
      (index + 1) % storage.Length
    }

    method Push(item: T) returns (stored: bool)
      requires Valid()
      modifies this, storage
      ensures Valid()
      ensures stored <==> |old(Contents())| < storage.Length
      ensures Contents() == old(Contents()) + (if stored then [item] else [])
    {
      if count == storage.Length {
        return false;
      }
      storage[tail] := item;
      tail := NextIndex(tail);
      count := count + 1;
      return true;
    }

    /** Takes the front element, if there is one. */
    method Pop() returns (item: T, found: bool)
      requires Valid()
      modifies `head, `count
      ensures Valid()
      ensures found <==> old(Contents()) != []
      ensures found ==> old(Contents()) == [item] + Contents()
      ensures !found ==> Contents() == []
    {
      item := storage[head];
      if count == 0 {
        return item, false;
      }
      ghost var s := Contents();
      assert s[0] == item && s == [item] + s[1..];
      head := NextIndex(head);
      count := count - 1;
      assert Contents() == s[1..];
      return item, true;
    }

    method Clear()
      requires Valid()
      modifies `head, `tail, `count
      ensures Valid() && Contents() == []
    {
      head, tail, count := 0, 0, 0;
    }
  }
}
