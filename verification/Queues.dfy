/** The queue between the two threads: first in, first out, and drained to the end even after it is stopped. */
module Queues {
  import opened Common

  class TsQueue<T> {
    var queue: seq<T>
    var stopped: bool
    /** Everything ever pushed, and everything that has left: popped, or dropped by a clear. */
    ghost var pushed: seq<T>
    ghost var gone: seq<T>

    constructor ()
      ensures Valid() && queue == [] && !stopped && pushed == []
    {
      queue, stopped, pushed, gone := [], false, [], [];
    }

    /** Values leave in the order they came, and none is lost or made up. */
    ghost predicate Valid()
      reads this
    {
      gone + queue == pushed
    }

    method Push(value: T)
      requires Valid()
      modifies this
      ensures Valid() && pushed == old(pushed) + [value] && gone == old(gone) && stopped == old(stopped)
    {
      queue := queue + [value];
      pushed := pushed + [value];
    }

    /** The step at which a blocked caller goes on: something is queued, or the queue is stopped. */
    method WaitPop() returns (value: Option<T>)
      requires Valid() && (queue != [] || stopped)
      modifies this
      ensures Valid() && pushed == old(pushed) && stopped == old(stopped)
      ensures value.None? <==> old(gone) == old(pushed)
      ensures value.None? ==> gone == old(gone) && stopped
      ensures value.Some? ==> gone == old(gone) + [value.value]
    {
      if stopped && |queue| == 0 {
        return None;
      }
      value := Some(queue[0]);
      gone := gone + [queue[0]];
      queue := queue[1..];
    }

    /** With a time limit, or without waiting: nothing is returned exactly when nothing is queued. */
    method TryPop() returns (value: Option<T>)
      requires Valid()
      modifies this
      ensures Valid() && pushed == old(pushed) && stopped == old(stopped)
      ensures value.None? <==> old(gone) == old(pushed)
      ensures gone == old(gone) + if value.Some? then [value.value] else []
    {
      if |queue| == 0 {
        return None;
      }
      value := Some(queue[0]);
      gone := gone + [queue[0]];
      queue := queue[1..];
    }

    method Clear()
      requires Valid()
      modifies this
      ensures Valid() && queue == [] && pushed == old(pushed) == gone && stopped == old(stopped)
    {
      while |queue| > 0
        invariant Valid() && pushed == old(pushed) && stopped == old(stopped)
      {
        gone := gone + [queue[0]];
        queue := queue[1..];
      }
    }

    method Stop()
      requires Valid()
      modifies this
      ensures Valid() && stopped && pushed == old(pushed) && gone == old(gone)
    {
      stopped := true;
    }
  }
}
