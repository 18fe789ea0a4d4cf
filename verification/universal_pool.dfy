/** `universal_object_pool.ObjectPool`: the idle objects sit on a bounded
    `LifoQueue(num)`, the pool counts the objects in use in `_is_using_num`, and
    a borrow stamps the object it hands out with the current time. Each call is
    one atomic step; the clock reading and the constructor's behaviour are
    parameters. */
module UniversalPool {
  import opened Common
  import opened Queues

  /** The pool's bound `num`, its idle stack (bottom first, top last) and
      `_is_using_num`. */
  datatype Pool = Pool(num: int, stack: seq<Obj>, usingNum: int)

  /** A freshly constructed pool. */
  function Init(num: int): Pool {
    Pool(num, [], 0)
  }

  /** What `_borrow_a_object` leaves behind: the pool afterwards and the object
      handed out, or None when the attempt raised and the exception was
      swallowed. */
  datatype BorrowStep = BorrowStep(pool: Pool, got: Option<Obj>)

  /** Why the `try` block of a borrow raised; the source only logs it. */
  datatype Failure = ConstructorRaised | EmptyQueue

  /** The `try` block of `_borrow_a_object`, run on the pool whose counter has
      already been incremented: construct and put a new object when the stack
      is empty and the counter is within `num`, then get the top object and
      stamp it. */
  function Attempt(p: Pool, now: Time, ctor: Construction): (r: Result<(Pool, Obj), Failure>)
    // The constructor is called, and raises, only on an empty stack with the counter within num.
    ensures r == Err(ConstructorRaised) <==> |p.stack| == 0 && p.usingNum <= p.num && ctor.Raised?
    // The get on an empty stack, when nothing was built, raises queue.Empty.
    ensures r == Err(EmptyQueue) <==> |p.stack| == 0 && p.usingNum > p.num
    // A new object goes through the stack and straight back out, stamped with now;
    ensures r.Ok? && |p.stack| == 0 ==> r.value == (p, Obj(ctor.id, now))
    // otherwise the top is popped and restamped.
    ensures r.Ok? && |p.stack| > 0 ==>
      r.value == (p.(stack := p.stack[..|p.stack| - 1]), p.stack[|p.stack| - 1].(lastUse := now))
  {
    var construct := |p.stack| == 0 && p.usingNum <= p.num;
    if construct && ctor.Raised? then Err(ConstructorRaised)
    else
      // An empty queue is never full, so this put cannot block.
      var stack := if construct then Put(p.num, p.stack, Obj(ctor.id, now)).value else p.stack;
      match LifoGet(stack)
      case None => Err(EmptyQueue)
      case Some((o, rest)) => Ok((p.(stack := rest), o.(lastUse := now)))
  }

  /** `_borrow_a_object`: increment the counter, run the attempt, and on any
      exception restore the counter and return None. */
  function Borrow(p: Pool, now: Time, ctor: Construction): (r: BorrowStep)
    // It fails exactly when the stack is empty and no object may be or could be built,
    ensures r.got.None? <==> |p.stack| == 0 && (p.usingNum + 1 > p.num || ctor.Raised?)
    // and then the pool is as it was: the counter is restored and nothing was queued.
    ensures r.got.None? ==> r.pool == p
    ensures r.got.Some? ==> r.pool.num == p.num && r.pool.usingNum == p.usingNum + 1
    ensures r.got.Some? ==> r.got.value.lastUse == now
    // Reuse takes the top of the stack, which is then no longer idle.
    ensures |p.stack| > 0 ==>
      && r.got == Some(p.stack[|p.stack| - 1].(lastUse := now))
      && r.pool.stack == p.stack[..|p.stack| - 1]
    // A new object only comes from a constructor call on an empty stack with
    // the incremented counter within num, and it is handed out at once.
    ensures |p.stack| == 0 && r.got.Some? ==>
      && ctor.Built? && p.usingNum + 1 <= p.num
      && r.got.value.id == ctor.id && r.pool.stack == []
  {
    var counted := p.(usingNum := p.usingNum + 1);
    match Attempt(counted, now, ctor)
    case Ok((q, o)) => BorrowStep(q, Some(o))
    case Err(_) => BorrowStep(counted.(usingNum := counted.usingNum - 1), None)
  }

  /** `_back_a_object`: push the object, then decrement the counter. None stands
      for `queue.Full` escaping to the caller before the decrement. */
  function Return(p: Pool, o: Obj): (r: Option<Pool>)
    ensures r.None? <==> Full(p.num, |p.stack|)
    // Exactly that object goes on top, its stamp untouched, and the counter drops by one.
    ensures r.Some? ==> r.value == Pool(p.num, p.stack + [o], p.usingNum - 1)
  {
    match Put(p.num, p.stack, o)
    case None => None
    case Some(stack) => Some(Pool(p.num, stack, p.usingNum - 1))
  }

  /** Borrowing hands back the object just returned, restamped, and leaves the
      pool as it was before the return. */
  lemma ReturnThenBorrow(p: Pool, o: Obj, now: Time, ctor: Construction)
    requires Return(p, o).Some?
    ensures Borrow(Return(p, o).value, now, ctor) == BorrowStep(p, Some(o.(lastUse := now)))
  {
  }

  /** LIFO reuse: after returning a and then b with no borrow between, the next
      borrow yields b and the one after it yields a. */
  lemma LifoReuse(p: Pool, a: Obj, b: Obj, now: Time, ctor: Construction)
    requires Return(p, a).Some? && Return(Return(p, a).value, b).Some?
    ensures var q := Return(Return(p, a).value, b).value;
            var first := Borrow(q, now, ctor);
            && first.got == Some(b.(lastUse := now))
            && Borrow(first.pool, now, ctor) == BorrowStep(p, Some(a.(lastUse := now)))
  {
  }

  /** Returns the objects one after another, in order; None if a put raised. */
  function ReturnAll(p: Pool, xs: seq<Obj>): Option<Pool>
    decreases |xs|
  {
    if |xs| == 0 then Some(p)
    else match Return(p, xs[0])
      case None => None
      case Some(q) => ReturnAll(q, xs[1..])
  }

  /** Borrows n times in a row; the objects handed out, in order. */
  function BorrowMany(p: Pool, n: nat, now: Time, ctor: Construction): (Pool, seq<Obj>) {
    if n == 0 then (p, [])
    else
      var (q, got) := BorrowMany(p, n - 1, now, ctor);
      var st := Borrow(q, now, ctor);
      (st.pool, got + (if st.got.Some? then [st.got.value] else []))
  }

  /** LIFO reuse over any number of objects: returning xs and then borrowing
      |xs| times hands the objects out in the reverse order, restamped, and
      leaves the pool exactly as before the returns. */
  lemma {:induction false} ReturnAllThenBorrowMany(p: Pool, xs: seq<Obj>, now: Time, ctor: Construction)
    requires ReturnAll(p, xs).Some?
    ensures BorrowMany(ReturnAll(p, xs).value, |xs|, now, ctor) == (p, Stamp(Reverse(xs), now))
    decreases |xs|
  {
    if |xs| > 0 {
      var p1 := Return(p, xs[0]).value;
      var q := ReturnAll(p1, xs[1..]).value;
      assert ReturnAll(p, xs).value == q;
      ReturnAllThenBorrowMany(p1, xs[1..], now, ctor);
      ReturnThenBorrow(p, xs[0], now, ctor);
      // The first |xs| - 1 borrows bring the pool back to p1, the last one to p.
      var (q1, got1) := BorrowMany(q, |xs| - 1, now, ctor);
      assert q1 == p1 && got1 == Stamp(Reverse(xs[1..]), now);
      var st := Borrow(p1, now, ctor);
      assert st == BorrowStep(p, Some(xs[0].(lastUse := now)));
      assert BorrowMany(q, |xs|, now, ctor) == (st.pool, got1 + [st.got.value]);
      assert Reverse(xs) == Reverse(xs[1..]) + [xs[0]] by {
        assert xs == [xs[0]] + xs[1..];
        ReverseAppend([xs[0]], xs[1..]);
        assert Reverse([xs[0]]) == [xs[0]];
      }
      StampAppend(Reverse(xs[1..]), [xs[0]], now);
      assert Stamp([xs[0]], now) == [xs[0].(lastUse := now)];
    }
  }

  /** The sequential bound: every object the pool made and still holds, idle
      or borrowed, fits in `num`. */
  predicate Inv(p: Pool) {
    0 <= p.usingNum && |p.stack| + p.usingNum <= p.num
  }

  /** A new pool satisfies the bound when `num` is not negative. */
  lemma InitInv(num: int)
    ensures Inv(Init(num)) <==> num >= 0
  {
  }

  /** A borrow keeps the bound. */
  lemma BorrowKeepsInv(p: Pool, now: Time, ctor: Construction)
    requires Inv(p)
    ensures Inv(Borrow(p, now, ctor).pool)
  {
  }

  /** Returning an object while some object is out never finds the stack full,
      and keeps the bound. */
  lemma ReturnKeepsInv(p: Pool, o: Obj)
    requires Inv(p) && p.usingNum > 0
    ensures Return(p, o).Some?
    ensures Inv(Return(p, o).value)
  {
  }
}
