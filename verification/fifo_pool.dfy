/** `object_pool.ObjectPool`, the older pool: the idle objects wait in a
    bounded FIFO `Queue(num)`, new objects come from a factory the user sets
    with `specify_create_object_fun`, and the objects carry no time stamp. Each
    call is one atomic step; what the factory does on a call is a parameter. */
module FifoPool {
  import opened Common
  import opened Queues

  /** The `_create_object_fun` field: unset (None), set to something that is
      not callable, or set to a callable. */
  datatype Factory = NoFactory | NotCallable | CallableFactory

  /** What one call of the factory did: it returned an object with the given
      identity, which is or is not an instance of `object_type`, or it raised. */
  datatype Made = Made(id: ObjId, isInstance: bool) | FactoryRaised

  /** The pool's bound `num`, its idle queue (head first), the factory and
      `_is_using_num`. */
  datatype Pool = Pool(num: int, queue: seq<ObjId>, factory: Factory, usingNum: int)

  /** A freshly constructed pool: no factory yet. */
  function Init(num: int): Pool {
    Pool(num, [], NoFactory, 0)
  }

  /** `specify_create_object_fun`: replace the factory; nothing else changes. */
  function SpecifyCreateObjectFun(p: Pool, f: Factory): (r: Pool)
    ensures r.factory == f
    ensures r.(factory := p.factory) == p
  {
    p.(factory := f)
  }

  /** Why the `try` block of a borrow raised; the source only logs it. The
      first two are the `ValueError`s the pool raises itself. */
  datatype Failure = MissingFactory | WrongType | FactoryFailed | EmptyQueue

  /** Whether a borrow on this pool, whose counter is already incremented,
      goes to the factory. */
  predicate Constructs(p: Pool) {
    |p.queue| == 0 && p.usingNum <= p.num
  }

  /** The `try` block of `borrow_a_object`, run on the pool whose counter has
      already been incremented. */
  function Attempt(p: Pool, made: Made): (r: Result<(Pool, ObjId), Failure>)
    // No factory, or one that cannot be called: ValueError before any call.
    ensures r == Err(MissingFactory) <==> Constructs(p) && p.factory != CallableFactory
    // The factory raised.
    ensures r == Err(FactoryFailed) <==> Constructs(p) && p.factory == CallableFactory && made.FactoryRaised?
    // The factory returned the wrong type: ValueError, and the object is not queued.
    ensures r == Err(WrongType) <==>
      Constructs(p) && p.factory == CallableFactory && made.Made? && !made.isInstance
    // The queue is empty and no construction was allowed.
    ensures r == Err(EmptyQueue) <==> |p.queue| == 0 && p.usingNum > p.num
    // A new object is handed out at once; otherwise the head of the queue is.
    ensures r.Ok? && Constructs(p) ==> r.value == (p, made.id)
    ensures r.Ok? && !Constructs(p) ==> r.value == (p.(queue := p.queue[1..]), p.queue[0])
  {
    if Constructs(p) && p.factory != CallableFactory then Err(MissingFactory)
    else if Constructs(p) && made.FactoryRaised? then Err(FactoryFailed)
    else if Constructs(p) && !made.isInstance then Err(WrongType)
    else
      // An empty queue is never full, so this put cannot block.
      var queue := if Constructs(p) then Put(p.num, p.queue, made.id).value else p.queue;
      match FifoGet(queue)
      case None => Err(EmptyQueue)
      case Some((o, rest)) => Ok((p.(queue := rest), o))
  }

  /** What `borrow_a_object` leaves behind: the pool afterwards and the object
      handed out, or None when the attempt raised and the exception was
      swallowed. */
  datatype BorrowStep = BorrowStep(pool: Pool, got: Option<ObjId>)

  /** `borrow_a_object`: increment the counter, run the attempt, and on any
      exception restore the counter and return None. */
  function Borrow(p: Pool, made: Made): (r: BorrowStep)
    // Every failure leaves the pool as it was: counter restored, nothing queued.
    ensures r.got.None? ==> r.pool == p
    // It fails exactly when the queue is empty and either construction is not
    // allowed or the factory is missing, raises, or returns the wrong type.
    ensures r.got.None? <==>
      && |p.queue| == 0
      && (|| p.usingNum + 1 > p.num || p.factory != CallableFactory
          || made.FactoryRaised? || !made.isInstance)
    ensures r.got.Some? ==>
      && r.pool.usingNum == p.usingNum + 1
      && r.pool.num == p.num && r.pool.factory == p.factory
    // Reuse takes the head of the queue, without calling the factory.
    ensures |p.queue| > 0 ==> r == BorrowStep(p.(queue := p.queue[1..], usingNum := p.usingNum + 1), Some(p.queue[0]))
    // A new object comes only from a callable factory that returned an
    // instance, on an empty queue, and it is handed out at once.
    ensures |p.queue| == 0 && r.got.Some? ==>
      && p.factory == CallableFactory && made.Made? && made.isInstance
      && r.got.value == made.id && r.pool.queue == []
  {
    var counted := p.(usingNum := p.usingNum + 1);
    match Attempt(counted, made)
    case Ok((q, o)) => BorrowStep(q, Some(o))
    case Err(_) => BorrowStep(counted.(usingNum := counted.usingNum - 1), None)
  }

  /** `back_a_object`: enqueue the object, then decrement the counter. None
      stands for `queue.Full` escaping to the caller before the decrement. */
  function Return(p: Pool, o: ObjId): (r: Option<Pool>)
    ensures r.None? <==> Full(p.num, |p.queue|)
    // Exactly that object joins the back of the queue and the counter drops by one.
    ensures r.Some? ==> r.value == p.(queue := p.queue + [o], usingNum := p.usingNum - 1)
  {
    match Put(p.num, p.queue, o)
    case None => None
    case Some(queue) => Some(p.(queue := queue, usingNum := p.usingNum - 1))
  }

  /** FIFO reuse: after returning a and then b to an empty queue, the next two
      borrows yield a and then b, and leave the pool as before the returns. */
  lemma FifoReuse(p: Pool, a: ObjId, b: ObjId, made: Made)
    requires p.queue == []
    requires Return(p, a).Some? && Return(Return(p, a).value, b).Some?
    ensures var q := Return(Return(p, a).value, b).value;
            var first := Borrow(q, made);
            && first.got == Some(a)
            && Borrow(first.pool, made) == BorrowStep(p, Some(b))
  {
  }

  /** Returns the objects one after another, in order; None if a put raised. */
  function ReturnAll(p: Pool, xs: seq<ObjId>): Option<Pool>
    decreases |xs|
  {
    if |xs| == 0 then Some(p)
    else match Return(p, xs[0])
      case None => None
      case Some(q) => ReturnAll(q, xs[1..])
  }

  /** Borrows n times in a row; the objects handed out, in order. */
  function BorrowMany(p: Pool, n: nat, made: Made): (Pool, seq<ObjId>)
    decreases n
  {
    if n == 0 then (p, [])
    else
      var st := Borrow(p, made);
      var (q, got) := BorrowMany(st.pool, n - 1, made);
      (q, (if st.got.Some? then [st.got.value] else []) + got)
  }

  /** Returning objects appends them to the back of the queue, in order. */
  lemma {:induction false} ReturnAllAppends(p: Pool, xs: seq<ObjId>)
    requires ReturnAll(p, xs).Some?
    ensures ReturnAll(p, xs).value == p.(queue := p.queue + xs, usingNum := p.usingNum - |xs|)
    decreases |xs|
  {
    if |xs| == 0 {
      assert p.queue + xs == p.queue;
    } else {
      var q := Return(p, xs[0]).value;
      ReturnAllAppends(q, xs[1..]);
      assert (p.queue + [xs[0]]) + xs[1..] == p.queue + xs;
    }
  }

  /** Borrowing n objects from a queue that holds at least n hands out its
      first n, in queue order, and never calls the factory. */
  lemma {:induction false} BorrowManyTakesFront(p: Pool, n: nat, made: Made)
    requires n <= |p.queue|
    ensures BorrowMany(p, n, made) == (p.(queue := p.queue[n..], usingNum := p.usingNum + n), p.queue[..n])
    decreases n
  {
    if n == 0 {
      assert p.queue[0..] == p.queue;
    } else {
      var q := Borrow(p, made).pool;
      BorrowManyTakesFront(q, n - 1, made);
      assert q.queue[n - 1..] == p.queue[n..];
      assert [p.queue[0]] + q.queue[..n - 1] == p.queue[..n];
    }
  }

  /** FIFO reuse over any number of objects: after returning xs, the pool
      hands out the objects already queued and then xs, in the order they
      were returned. */
  lemma ReturnAllThenBorrowMany(p: Pool, xs: seq<ObjId>, made: Made)
    requires ReturnAll(p, xs).Some?
    ensures BorrowMany(ReturnAll(p, xs).value, |p.queue| + |xs|, made).1 == p.queue + xs
  {
    ReturnAllAppends(p, xs);
    var q := ReturnAll(p, xs).value;
    BorrowManyTakesFront(q, |q.queue|, made);
    assert q.queue[..|q.queue|] == q.queue;
  }

  /** The sequential bound: every object the pool made and still holds, idle
      or borrowed, fits in `num`. */
  predicate Inv(p: Pool) {
    0 <= p.usingNum && |p.queue| + p.usingNum <= p.num
  }

  /** A new pool meets the bound exactly when `num` is not negative, and since
      no factory is set yet, its first borrow fails whatever `num` is. */
  lemma InitInv(num: int, made: Made)
    ensures Inv(Init(num)) <==> num >= 0
    ensures Borrow(Init(num), made) == BorrowStep(Init(num), None)
  {
  }

  /** A borrow keeps the bound. */
  lemma BorrowKeepsInv(p: Pool, made: Made)
    requires Inv(p)
    ensures Inv(Borrow(p, made).pool)
  {
  }

  /** Returning an object while some object is out never finds the queue
      full, and keeps the bound. */
  lemma ReturnKeepsInv(p: Pool, o: ObjId)
    requires Inv(p) && p.usingNum > 0
    ensures Return(p, o).Some?
    ensures Inv(Return(p, o).value)
  {
  }
}
