/** Go's buffered channels, as far as the two pipelines use them: a send that gives up when
    the buffer is full, a receive that takes the oldest element, and a close. */
module Channels {
  class Channel<T> {
    const capacity: nat
    var queue: seq<T>
    var closed: bool

    constructor (capacity: nat)
      ensures this.capacity == capacity && queue == [] && !closed
    {
      this.capacity := capacity;
      queue, closed := [], false;
    }

    /** A send in a select with a default branch. Sending on a closed channel panics. */
    method TrySend(x: T) returns (sent: bool)
      requires !closed
      modifies this`queue
      ensures sent <==> |old(queue)| < capacity
      ensures queue == if sent then old(queue) + [x] else old(queue)
    {
      if |queue| < capacity {
        queue := queue + [x];
        return true;
      }
      return false;
    }

    /** A receive that finds the buffer non-empty; it works after close too. */
    method Receive() returns (x: T)
      requires queue != []
      modifies this`queue
      ensures [x] + queue == old(queue)
    {
      x := queue[0];
      queue := queue[1..];
    }

    /** Closing twice panics. */
    method Close()
      requires !closed
      modifies this`closed
      ensures closed
    {
      closed := true;
    }
  }
}
