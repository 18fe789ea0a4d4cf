/** `universal_object_pool._ObjectContext`, the object `ObjectPool.get` returns
    for a `with` block: `__enter__` borrows, and `__exit__` and `__del__` give
    the held object back if there is one and then forget it. The two release
    methods have the same body, so both are `Release` here. */
module UniversalContext {
  import opened Common
  import opened Queues
  import opened UniversalPool

  /** The context's `obj` field; the pool it belongs to travels beside it. */
  datatype Context = Context(obj: Option<Obj>)

  /** `ObjectPool.get`: a context that holds nothing yet; the pool is not
      touched until the block is entered. */
  function Get(): (c: Context)
    ensures c.obj.None?
  {
    Context(None)
  }

  /** `__enter__`: hold whatever the borrow handed out, possibly None. */
  function Enter(p: Pool, now: Time, ctor: Construction): (r: (Pool, Context))
    // It holds nothing exactly when the borrow failed, and then the pool is untouched.
    ensures r.1.obj.None? <==> |p.stack| == 0 && (p.usingNum + 1 > p.num || ctor.Raised?)
    ensures r.1.obj.None? ==> r.0 == p
    ensures r.1.obj.Some? ==> r.0.usingNum == p.usingNum + 1 && r.1.obj.value.lastUse == now
    ensures r.0.num == p.num
    // It holds the restamped top of the stack, which has left the stack,
    ensures |p.stack| > 0 ==>
      && r.1.obj == Some(p.stack[|p.stack| - 1].(lastUse := now))
      && r.0.stack == p.stack[..|p.stack| - 1]
    // or else the object just built, while the stack stays empty.
    ensures |p.stack| == 0 && r.1.obj.Some? ==>
      && r.1.obj == Some(Obj(ctor.id, now)) && r.0.stack == []
  {
    var st := Borrow(p, now, ctor);
    (st.pool, Context(st.got))
  }

  /** `__exit__` and `__del__`: return the held object, if any, then clear the
      field. When the return raises `queue.Full` the field is not cleared. */
  function Release(p: Pool, c: Context): (r: (Pool, Context))
    // A context holding nothing never gives anything back.
    ensures c.obj.None? ==> r == (p, c)
    ensures c.obj.Some? && Full(p.num, |p.stack|) ==> r == (p, c)
    // Otherwise the held object goes on top of the stack, once, and is forgotten.
    ensures c.obj.Some? && !Full(p.num, |p.stack|) ==>
      && r.1.obj.None?
      && r.0 == Pool(p.num, p.stack + [c.obj.value], p.usingNum - 1)
  {
    match c.obj
    case None => (p, Context(None))
    case Some(o) =>
      match Return(p, o)
      case None => (p, c)
      case Some(q) => (q, Context(None))
  }

  /** Releasing twice, as `__exit__` followed by `__del__` does, gives the
      object back at most once: the second release changes nothing. */
  lemma ReleaseAtMostOnce(p: Pool, c: Context)
    ensures var (p1, c1) := Release(p, c);
            Release(p1, c1) == (p1, c1)
  {
  }

  /** A whole `with` block on a pool within its bound: enter, `__exit__`, then
      `__del__`. The counter ends where it started, the held object was given
      back exactly once and is on top of the stack, and the bound still holds. */
  lemma WithBlock(p: Pool, now: Time, ctor: Construction)
    requires Inv(p)
    ensures var (p1, c1) := Enter(p, now, ctor);
            var (p2, c2) := Release(p1, c1);
            && Release(p2, c2) == (p2, c2)
            && c2.obj.None?
            && p2.usingNum == p.usingNum
            && Inv(p2)
            && (c1.obj.Some? ==> p2.stack == p1.stack + [c1.obj.value])
            && (c1.obj.None? ==> p2 == p)
            && (|p.stack| > 0 ==>
                  p2.stack == p.stack[..|p.stack| - 1] + [p.stack[|p.stack| - 1].(lastUse := now)])
  {
  }
}
