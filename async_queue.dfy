/**
 * A consumer queue, reduced to what the adapter touches: a buffer of pushed
 * activities and an ended flag. The consumer keeps the queue after the adapter
 * unregisters it, so it is an object the adapter updates in place.
 */
module AsyncQueue {

  class Queue<A> {
    var buffer: seq<A>
    var ended: bool

    constructor ()
      ensures buffer == [] && !ended
    {
      buffer := [];
      ended := false;
    }

    /** `push(value)`: appends to the buffer, ignored once the queue has ended. */
    method Push(a: A)
      modifies this
      ensures ended == old(ended)
      ensures buffer == if old(ended) then old(buffer) else old(buffer) + [a]
    {
      if !ended {
        buffer := buffer + [a];
      }
    }

    /** `end()`: marks the queue exhausted; what is buffered stays to be drained. */
    method End()
      modifies this
      ensures ended && buffer == old(buffer)
    {
      ended := true;
    }
  }
}
