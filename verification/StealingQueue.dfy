/** The mutex-protected deque whose owner works at the back while thieves take from the front. */
module StealingQueue {

  datatype Option<T> = None | Some(value: T)

  /** What is left after taking the last, or the first, element. */
  function WithoutLast<T>(q: seq<T>): seq<T> {
    if q == [] then [] else q[..|q| - 1]
  }

  function WithoutFirst<T>(q: seq<T>): seq<T> {
    if q == [] then [] else q[1..]
  }

  function Last<T>(q: seq<T>): Option<T> {
    if q == [] then None else Some(q[|q| - 1])
  }

  function First<T>(q: seq<T>): Option<T> {
    if q == [] then None else Some(q[0])
  }

  class StealingQueue<T> {
    var queue: seq<T>

    constructor ()
      ensures queue == []
    {
      queue := [];
    }

    method PushBack(val: T)
      modifies this
      ensures queue == old(queue) + [val]
    {
      queue := queue + [val];
    }

    /** The owner takes the task it pushed last. */
    method TryPopBack() returns (ret: Option<T>)
      modifies this
      ensures ret == Last(old(queue)) && queue == WithoutLast(old(queue))
      ensures ret.Some? ==> old(queue) == queue + [ret.value]
      ensures ret.None? <==> old(queue) == []
    {
      if queue == [] { return None; }
      ret := Some(queue[|queue| - 1]);
      queue := queue[..|queue| - 1];
    }

    /** A thief takes the task that has waited longest. */
    method TryStealFront() returns (ret: Option<T>)
      modifies this
      ensures ret == First(old(queue)) && queue == WithoutFirst(old(queue))
      ensures ret.Some? ==> old(queue) == [ret.value] + queue
      ensures ret.None? <==> old(queue) == []
    {
      if queue == [] { return None; }
      ret := Some(queue[0]);
      queue := queue[1..];
    }
  }
}
