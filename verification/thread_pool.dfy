/** `ThreadObjectPool._borrow_a_object`, the capacity-based borrow of the
    thread-pool adapter. Unlike the other pools it counts the objects it has
    created and builds a new one whenever that count is below the pool size,
    even if idle objects are waiting; it commits each counter only after the
    step that can fail has succeeded, and it re-raises every error. The base
    class that declares these fields is not part of this model; its idle queue
    is taken to be a `LifoQueue(object_pool_size)` like the universal pool's. */
module ThreadPoolBorrow {
  import opened Common
  import opened Queues

  /** The fields the borrow uses: `_queue` (bottom first, top last),
      `_has_create_object_num`, `object_pool_size` and `is_using_num`. */
  datatype Pool = Pool(queue: seq<Obj>, hasCreated: int, size: int, usingNum: int)

  /** The errors the borrow re-raises: `queue.Empty` from the get, whatever
      the constructor raised, and `queue.Full` from the put. */
  datatype Error = EmptyQueue | ConstructorFailed | QueueFull

  /** What the caller sees: the object, or the exception. */
  datatype Outcome = Got(obj: Obj) | Raise(error: Error)

  datatype BorrowStep = BorrowStep(pool: Pool, outcome: Outcome)

  /** `_borrow_a_object`, all under the pool lock. */
  function Borrow(p: Pool, now: Time, ctor: Construction): (r: BorrowStep)
    // Whatever is raised reaches the caller, and the pool is as it was:
    // no counter moved and nothing was queued.
    ensures r.outcome.Raise? ==> r.pool == p
    ensures r.outcome == Raise(ConstructorFailed) <==> p.hasCreated < p.size && ctor.Raised?
    ensures r.outcome == Raise(QueueFull) <==> p.hasCreated < p.size && ctor.Built? && Full(p.size, |p.queue|)
    ensures r.outcome == Raise(EmptyQueue) <==> p.hasCreated >= p.size && |p.queue| == 0
    // A success counts one more object in use and stamps it with the clock.
    ensures r.outcome.Got? ==>
      && r.pool.usingNum == p.usingNum + 1 && r.pool.size == p.size
      && r.outcome.obj.lastUse == now
    // Below the size a new object is built even when idle ones wait, counted
    // once it is queued, and handed out at once.
    ensures p.hasCreated < p.size && r.outcome.Got? ==>
      && r.outcome.obj.id == ctor.id
      && r.pool.hasCreated == p.hasCreated + 1
      && r.pool.queue == p.queue
    // At the size the top idle object is reused.
    ensures p.hasCreated >= p.size && |p.queue| > 0 ==>
      && r.outcome == Got(p.queue[|p.queue| - 1].(lastUse := now))
      && r.pool == Pool(p.queue[..|p.queue| - 1], p.hasCreated, p.size, p.usingNum + 1)
    // The creation count never passes the size.
    ensures p.hasCreated <= p.size ==> r.pool.hasCreated <= p.size
  {
    if p.hasCreated < p.size then
      match ctor
      case Raised => BorrowStep(p, Raise(ConstructorFailed))
      case Built(id) =>
        match Put(p.size, p.queue, Obj(id, now))
        case None => BorrowStep(p, Raise(QueueFull))
        case Some(queue) => Take(p.(queue := queue, hasCreated := p.hasCreated + 1), now)
    else Take(p, now)
  }

  /** The get that follows the optional construction, on the pool as it
      stands after it. The `except` clauses only re-raise, undoing nothing. */
  function Take(stocked: Pool, now: Time): (r: BorrowStep)
    // queue.Empty exactly on an empty queue, with the pool left as it was;
    ensures r.outcome.Raise? <==> |stocked.queue| == 0
    ensures r.outcome.Raise? ==> r == BorrowStep(stocked, Raise(EmptyQueue))
    // otherwise the top leaves the queue, restamped, and one more is in use.
    ensures r.outcome.Got? ==>
      && r.outcome.obj == stocked.queue[|stocked.queue| - 1].(lastUse := now)
      && r.pool == stocked.(queue := stocked.queue[..|stocked.queue| - 1], usingNum := stocked.usingNum + 1)
  {
    match LifoGet(stocked.queue)
    case None => BorrowStep(stocked, Raise(EmptyQueue))
    case Some((o, rest)) =>
      BorrowStep(stocked.(queue := rest, usingNum := stocked.usingNum + 1), Got(o.(lastUse := now)))
  }

  /** The bookkeeping the pool keeps sequentially: the objects idle or in use
      are among those created, and no more than the size were created. */
  predicate Valid(p: Pool) {
    0 <= p.usingNum && |p.queue| + p.usingNum <= p.hasCreated <= p.size
  }

  /** A borrow keeps the bookkeeping, and on such a pool the put never finds
      the queue full. */
  lemma BorrowKeepsValid(p: Pool, now: Time, ctor: Construction)
    requires Valid(p)
    ensures Valid(Borrow(p, now, ctor).pool)
    ensures Borrow(p, now, ctor).outcome != Raise(QueueFull)
  {
  }

  /** Borrows one after another, the i-th with the i-th constructor outcome. */
  function BorrowSeq(p: Pool, now: Time, ctors: seq<Construction>): (Pool, seq<Outcome>)
    decreases |ctors|
  {
    if |ctors| == 0 then (p, [])
    else
      var st := Borrow(p, now, ctors[0]);
      var (q, outs) := BorrowSeq(st.pool, now, ctors[1..]);
      (q, [st.outcome] + outs)
  }

  /** While the creation count stays below the size, every borrow builds a
      new object and hands it out, however many idle objects wait: the queue
      is left as it was and each borrow is counted once in each counter. */
  lemma {:induction false} BorrowsBuildBelowSize(p: Pool, now: Time, ctors: seq<Construction>)
    requires Valid(p)
    requires p.hasCreated + |ctors| <= p.size
    requires forall i :: 0 <= i < |ctors| ==> ctors[i].Built?
    ensures var (q, outs) := BorrowSeq(p, now, ctors);
            && q == Pool(p.queue, p.hasCreated + |ctors|, p.size, p.usingNum + |ctors|)
            && |outs| == |ctors|
            && forall i :: 0 <= i < |ctors| ==> outs[i] == Got(Obj(ctors[i].id, now))
    decreases |ctors|
  {
    if |ctors| > 0 {
      BorrowKeepsValid(p, now, ctors[0]);
      var st := Borrow(p, now, ctors[0]);
      assert st.pool == Pool(p.queue, p.hasCreated + 1, p.size, p.usingNum + 1);
      BorrowsBuildBelowSize(st.pool, now, ctors[1..]);
      var (q, outs) := BorrowSeq(st.pool, now, ctors[1..]);
      forall i | 0 <= i < |ctors|
        ensures ([st.outcome] + outs)[i] == Got(Obj(ctors[i].id, now))
      {
        if i > 0 {
          assert ctors[1..][i - 1] == ctors[i];
        }
      }
    }
  }

  /** Over any run of borrows the creation count stays within the size. */
  lemma {:induction false} BorrowSeqWithinSize(p: Pool, now: Time, ctors: seq<Construction>)
    requires p.hasCreated <= p.size
    ensures BorrowSeq(p, now, ctors).0.hasCreated <= p.size
    ensures BorrowSeq(p, now, ctors).0.size == p.size
    decreases |ctors|
  {
    if |ctors| > 0 {
      BorrowSeqWithinSize(Borrow(p, now, ctors[0]).pool, now, ctors[1..]);
    }
  }
}
