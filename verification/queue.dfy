/** The bounded FIFO byte queues `txFifo` and `rxFifo` (the SDK's `queue_t`,
    initialised with element size 1). Only the operations the core calls are
    modelled; the queue's ring-buffer storage and its spin lock belong to the
    SDK and are represented by the sequence of queued bytes. */
module Queue {

  class ByteQueue {
    /** Queued bytes, oldest first. */
    var contents: seq<bv8>
    const capacity: nat
    const elementSize: nat

    ghost predicate Valid()
      reads this
    {
      |contents| <= capacity
    }

    /** `queue_init(q, elementSize, capacity)` */
    constructor Init(elementSize: nat, capacity: nat)
      ensures Valid()
      ensures contents == [] && this.capacity == capacity && this.elementSize == elementSize
    {
      contents := [];
      this.capacity := capacity;
      this.elementSize := elementSize;
    }

    /** `queue_try_add`: append at the tail unless the queue is full. */
    method TryAdd(x: bv8) returns (ok: bool)
      requires Valid()
      modifies this
      ensures Valid()
      ensures ok <==> |old(contents)| < capacity
      ensures contents == if ok then old(contents) + [x] else old(contents)
    {
      ok := |contents| < capacity;
      if ok {
        contents := contents + [x];
      }
    }

    /** `queue_remove_blocking`: take the head. The core calls it only on a
        queue it has just seen to be non-empty. */
    method RemoveBlocking() returns (x: bv8)
      requires Valid() && contents != []
      modifies this
      ensures Valid()
      ensures x == old(contents)[0] && contents == old(contents)[1..]
    {
      x := contents[0];
      contents := contents[1..];
    }

    /** `queue_is_empty` */
    method IsEmpty() returns (empty: bool)
      ensures empty <==> contents == []
    {
      empty := |contents| == 0;
    }

    /** `queue_is_full` */
    method IsFull() returns (full: bool)
      requires Valid()
      ensures full <==> |contents| == capacity
    {
      full := |contents| >= capacity;
    }

    /** `queue_get_level` */
    method Level() returns (level: nat)
      requires Valid()
      ensures level == |contents| && level <= capacity
    {
      level := |contents|;
    }
  }
}
