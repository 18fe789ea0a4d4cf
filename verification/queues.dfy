/** The bounded containers from Python's `queue` module that hold idle objects,
    as sequences. Elements enter at the end; a `LifoQueue` hands out the last
    element, a `Queue` the first. A blocking `get` on an empty container and a
    blocking `put` on a full one can never be woken in a sequential model, so
    they are modelled as raising `queue.Empty` and `queue.Full` at once. */
module Queues {
  import opened Common

  /** `Queue(maxsize)` treats a non-positive maxsize as unbounded. */
  predicate Full(maxsize: int, size: nat) {
    maxsize > 0 && size >= maxsize
  }

  /** `put`: None stands for `queue.Full`. */
  function Put<T>(maxsize: int, q: seq<T>, x: T): (r: Option<seq<T>>)
    ensures r.None? <==> Full(maxsize, |q|)
    ensures r.Some? ==> r.value == q + [x]
  {
    if Full(maxsize, |q|) then None else Some(q + [x])
  }

  /** `LifoQueue.get`: the most recently put element and what remains; None
      stands for `queue.Empty`. */
  function LifoGet<T>(q: seq<T>): (r: Option<(T, seq<T>)>)
    ensures r.None? <==> |q| == 0
    ensures r.Some? ==> q == r.value.1 + [r.value.0]
  {
    if |q| == 0 then None else Some((q[|q| - 1], q[..|q| - 1]))
  }

  /** `Queue.get`: the earliest put element and what remains; None stands
      for `queue.Empty`. */
  function FifoGet<T>(q: seq<T>): (r: Option<(T, seq<T>)>)
    ensures r.None? <==> |q| == 0
    ensures r.Some? ==> q == [r.value.0] + r.value.1
  {
    if |q| == 0 then None else Some((q[0], q[1..]))
  }

  /** A LIFO get undoes the put just before it. */
  lemma LifoPutGet<T>(maxsize: int, q: seq<T>, x: T)
    requires !Full(maxsize, |q|)
    ensures LifoGet(Put(maxsize, q, x).value) == Some((x, q))
  {
  }

  /** A FIFO get on a non-empty queue is not affected by a put behind it. */
  lemma FifoGetAfterPut<T>(maxsize: int, q: seq<T>, x: T)
    requires |q| > 0 && !Full(maxsize, |q|)
    ensures FifoGet(Put(maxsize, q, x).value) == Some((q[0], q[1..] + [x]))
  {
    assert (q + [x])[1..] == q[1..] + [x];
  }
}
