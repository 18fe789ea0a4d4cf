/** `object_pool.ObjectContext`, the `with`-block wrapper of the older pool:
    `__enter__` borrows, and `__exit__` and `__del__` give the held object back
    if there is one and then forget it. The two release methods have the same
    body, so both are `Release` here. */
module FifoContext {
  import opened Common
  import opened Queues
  import opened FifoPool

  /** The context's `obj` field; the pool it belongs to travels beside it. */
  datatype Context = Context(obj: Option<ObjId>)

  /** `__enter__`: hold whatever the borrow handed out, possibly None. */
  function Enter(p: Pool, made: Made): (r: (Pool, Context))
    // It holds nothing exactly when the borrow failed, and then the pool is untouched.
    ensures r.1.obj.None? <==>
      && |p.queue| == 0
      && (|| p.usingNum + 1 > p.num || p.factory != CallableFactory
          || made.FactoryRaised? || !made.isInstance)
    ensures r.1.obj.None? ==> r.0 == p
    ensures r.1.obj.Some? ==> r.0.usingNum == p.usingNum + 1
    // The bound and the factory are never touched.
    ensures r.0.num == p.num && r.0.factory == p.factory
    // It holds the head of the queue, which has left the queue,
    ensures |p.queue| > 0 ==> r.1.obj == Some(p.queue[0]) && r.0.queue == p.queue[1..]
    // or else the object the factory just made, while the queue stays empty.
    ensures |p.queue| == 0 && r.1.obj.Some? ==> r.1.obj == Some(made.id) && r.0.queue == []
  {
    var st := Borrow(p, made);
    (st.pool, Context(st.got))
  }

  /** `__exit__` and `__del__`: return the held object, if any, then clear the
      field. When the return raises `queue.Full` the field is not cleared. */
  function Release(p: Pool, c: Context): (r: (Pool, Context))
    // A context holding nothing never gives anything back.
    ensures c.obj.None? ==> r == (p, c)
    ensures c.obj.Some? && Full(p.num, |p.queue|) ==> r == (p, c)
    // Otherwise the held object joins the back of the queue, once, and is forgotten.
    ensures c.obj.Some? && !Full(p.num, |p.queue|) ==>
      && r.1.obj.None?
      && r.0 == p.(queue := p.queue + [c.obj.value], usingNum := p.usingNum - 1)
  {
    match c.obj
    case None => (p, Context(None))
    case Some(o) =>
      match Return(p, o)
      case None => (p, c)
      case Some(q) => (q, Context(None))
  }

  /** Releasing twice, as `__exit__` followed by `__del__` does, gives the
      object back at most once: the second release changes nothing. */
  lemma ReleaseAtMostOnce(p: Pool, c: Context)
    ensures var (p1, c1) := Release(p, c);
            Release(p1, c1) == (p1, c1)
  {
  }

  /** A whole `with` block on a pool within its bound: enter, `__exit__`, then
      `__del__`. The counter ends where it started, the held object was given
      back exactly once, at the back of the queue, and the bound still holds. */
  lemma WithBlock(p: Pool, made: Made)
    requires Inv(p)
    ensures var (p1, c1) := Enter(p, made);
            var (p2, c2) := Release(p1, c1);
            && Release(p2, c2) == (p2, c2)
            && c2.obj.None?
            && p2.usingNum == p.usingNum
            && Inv(p2)
            && (c1.obj.Some? ==> p2.queue == p1.queue + [c1.obj.value])
            && (c1.obj.None? ==> p2 == p)
            && (|p.queue| > 0 ==> p2.queue == p.queue[1..] + [p.queue[0]])
  {
  }
}
