# Object pool bookkeeping in Dafny

This project models the bookkeeping of a generic Python object pool. The pool
hands out expensive, non-thread-safe objects (database connections, SSH
sessions, browser drivers) to one caller at a time and takes them back for
reuse. The source has three variants, and all three are modelled:

- `universal_object_pool.ObjectPool`. Idle objects sit on a bounded LIFO stack
  (`LifoQueue(num)`), and `_is_using_num` counts the objects in use. A borrow
  stamps the object it hands out with the current time. A periodic reaper is
  meant to clean up objects that have been idle for more than thirty minutes;
  as written its loop cannot finish while a fresher object is idle (see
  "## Findings"), so the model has both that loop and a corrected pass. The
  context object `_ObjectContext` gives the held object back at most once.
- `object_pool.ObjectPool`, the older sibling. Idle objects wait in a bounded
  FIFO `Queue(num)`. New objects come from a user-supplied factory that is
  checked for callability and for the type it returns. It has the same
  `ObjectContext`.
- `ThreadObjectPool._borrow_a_object`, the borrow of the thread-pool adapter.
  It counts the objects it has created, builds a new one while that count is
  below `object_pool_size`, commits each counter only after the step that can
  fail has succeeded, and re-raises every error.

Each call is one atomic step of a sequential state machine. Pools are
immutable records, and every operation is a pure function from the old pool
to the new pool plus a result. Object identities are natural numbers. The
clock is an abstract natural number passed to each call. What a constructor
or factory call does (returns an object with a given identity, returns the
wrong type, or raises) is also a parameter of the call.

Files, one module each:

- `common.dfy` (`Common`): objects with their last-use stamp, constructor
  outcomes, the 30·60 idle limit, and sequence helpers.
- `queues.dfy` (`Queues`): the bounded `queue.Queue` and `queue.LifoQueue`
  operations.
- `universal_pool.dfy` (`UniversalPool`): borrow, return, LIFO reuse, and the
  sequential capacity bound.
- `universal_reaper.dfy` (`UniversalReaper`): the reaper loop as written, and
  the corrected reaper pass.
- `universal_context.dfy` (`UniversalContext`): `get`, `__enter__`,
  `__exit__` and `__del__`.
- `universal_session.dfy` (`UniversalSession`): the universal pool together
  with the objects its callers hold, over any sequence of calls.
- `fifo_pool.dfy` (`FifoPool`) and `fifo_context.dfy` (`FifoContext`): the
  older pool and its context.
- `thread_pool.dfy` (`ThreadPoolBorrow`): the capacity-based borrow.

Modelling choices:

- A blocking `get` on an empty container, or a blocking `put` on a full one,
  can never be woken in a sequential model. Both are modelled as failing at
  once, with `queue.Empty` and `queue.Full`.
- `Queue(maxsize)` with a non-positive `maxsize` is unbounded, as in Python's
  `queue` module.
- A stack is a sequence whose top is its last element. A FIFO queue is a
  sequence whose head is its first element. Both receive new elements at the
  end.
- `_is_using_num` is an unbounded integer. A return of an object that was
  never borrowed can drive it below zero, exactly as in the source. The
  invariant lemmas assume that callers return only what they borrowed.
- `UniversalSession` adds two pieces of bookkeeping that the source does not
  have: the list of lent objects, and the identity the constructor will use
  next. They exist so that "no object is held by two callers" can be stated.

Behaviours of the code worth noting, all followed by the model:

- The universal and FIFO pools increment `_is_using_num` before the attempt
  and restore it on any exception.
- Those two pools swallow every borrow error and return `None`; they do not
  propagate it.
- They construct a new object when the stack is empty and the incremented
  counter is at most `num`. They keep no count of live objects.
- A stamp is written only when an object is borrowed, never when it is
  returned.
- The reaper does not touch `_is_using_num`.
- No engine calls `before_use`, `before_back_to_queue` or
  `error_type_list_set_not_available`, so there is no invalidation path.

## Model

| member | source | states |
|---|---|---|
| `Queues.Put` | universal_object_pool/__init__.py:13 | a bounded put raises `queue.Full` exactly when the queue holds `maxsize` items (never, for a non-positive `maxsize`); otherwise the item joins the end |
| `Queues.LifoGet` | universal_object_pool/__init__.py:13 | a LIFO get raises `queue.Empty` exactly on an empty stack; otherwise it removes and returns the last item put |
| `Queues.FifoGet` | object_pool/__init__.py:11 | a FIFO get raises `queue.Empty` exactly on an empty queue; otherwise it removes and returns the earliest item put |
| `Queues.LifoPutGet` | universal_object_pool/__init__.py:13 | a LIFO get undoes the put just before it |
| `Queues.FifoGetAfterPut` | object_pool/__init__.py:11 | on a non-empty FIFO queue, a put behind the head does not change what the next get returns |
| `UniversalPool.Attempt` | universal_object_pool/__init__.py:38-48 | on the pool with the incremented counter: the constructor raises only when it is called, on an empty stack with the counter within `num`; an empty stack with no construction raises `queue.Empty`; a new object is put and got straight back with the current stamp; otherwise the top of the stack is popped and restamped |
| `UniversalPool.Borrow` | universal_object_pool/__init__.py:35-52 | a borrow fails (returns None) exactly when the stack is empty and either the incremented counter exceeds `num` or the constructor raises; a failure leaves the pool unchanged, so the counter is restored; a success adds one to the counter and stamps the object with the current time; reuse takes the top of the stack, which leaves the stack; a new object is built only on an empty stack with the incremented counter within `num`, and it is handed out at once |
| `UniversalPool.Return` | universal_object_pool/__init__.py:54-58 | a return raises `queue.Full` exactly when the stack is full; otherwise it pushes exactly that object, with its stamp untouched, subtracts one from the counter, and changes nothing else |
| `UniversalPool.ReturnThenBorrow` | universal_object_pool/__init__.py:35-58 | borrowing right after a return yields the returned object, restamped, and restores the pool to what it was before the return |
| `UniversalPool.LifoReuse` | universal_object_pool/__init__.py:35-58 | after returning a and then b with no borrow between, the next borrow yields b and the one after it yields a, leaving the pool as it was before the returns |
| `UniversalPool.ReturnAllThenBorrowMany` | universal_object_pool/__init__.py:35-58 | returning any sequence of objects and then borrowing as many times hands them out in reverse order, restamped, and restores the pool |
| `UniversalPool.InitInv` | universal_object_pool/__init__.py:11-15 | a new pool satisfies the capacity bound exactly when `num` is not negative |
| `UniversalPool.BorrowKeepsInv` | universal_object_pool/__init__.py:39-45 | a borrow keeps `0 <= _is_using_num` and idle + borrowed <= `num` |
| `UniversalPool.ReturnKeepsInv` | universal_object_pool/__init__.py:54-58 | under the bound, with some object out, a return never finds the stack full and keeps the bound |
| `UniversalReaper.Reap` | universal_object_pool/__init__.py:21-33 | the loop of the corrected pass (pop every idle object, set the survivors aside, push them back) computes the reference result `ReapResult` |
| `UniversalReaper.ReapAsWritten` | universal_object_pool/__init__.py:23-33 | the loop as written, run for a bounded number of iterations: it can only finish through `queue.Empty`, so only with an empty stack, and then it has cleaned up every idle object it started with, each of them expired, after those cleaned up before |
| `UniversalReaper.ReapSplitsIdleObjects` | universal_object_pool/__init__.py:21-33 | after the corrected pass (`ReapResult`) the stack holds exactly the idle objects with now − last use <= 1800; every other idle object was cleaned up; together they are the old stack as a multiset; the counter is unchanged; the survivors' relative order is reversed |
| `UniversalReaper.ReapKeepsInv` | universal_object_pool/__init__.py:21-33 | the corrected pass (`ReapResult`) keeps the capacity bound |
| `UniversalReaper.ReapAsWrittenSpinsOnFreshTop` | universal_object_pool/__init__.py:23-33 | as written, when the top object is still within the idle limit the loop pops it, pushes it back and pops it again, for any number of iterations |
| `UniversalReaper.ReapAsWrittenExpiredTop` | universal_object_pool/__init__.py:25-31 | as written, an expired top object is cleaned up and the loop goes on with the rest of the stack |
| `UniversalReaper.ReapAsWrittenNeverFinishesWithSurvivor` | universal_object_pool/__init__.py:23-33 | as written, the loop never reaches the empty stack while any idle object is within the limit |
| `UniversalReaper.ReapAsWrittenFinishesWhenAllExpired` | universal_object_pool/__init__.py:23-33 | as written, when every idle object has expired the loop ends with an empty stack, having cleaned up all of them in pop order |
| `UniversalReaper.ReaperCounterexample` | universal_object_pool/__init__.py:23-33 | on a stack holding one object used at time 0 and reaped at time 0, the written loop never ends, while the corrected pass keeps the object and cleans up nothing |
| `UniversalContext.Get` | universal_object_pool/__init__.py:60-70 | `get` returns a context that holds no object yet |
| `UniversalContext.Enter` | universal_object_pool/__init__.py:72-74 | entering holds None exactly when the borrow fails (empty stack and either the incremented counter exceeds `num` or the constructor raises), and then the pool is unchanged; otherwise the counter has gone up by one and the held object carries the current stamp; `num` is never changed; it is the top of the stack, which leaves the stack, or on an empty stack the object just built |
| `UniversalContext.Release` | universal_object_pool/__init__.py:76-86 | a context that holds None never returns anything; otherwise the held object is pushed once and forgotten, unless the push raises `queue.Full`, in which case nothing changes |
| `UniversalContext.ReleaseAtMostOnce` | universal_object_pool/__init__.py:76-86 | `__exit__` followed by `__del__` returns the object at most once: the second release changes nothing |
| `UniversalContext.WithBlock` | universal_object_pool/__init__.py:72-86 | on a pool within its bound, enter + `__exit__` + `__del__` returns the counter to where it started, gives the object back exactly once (on top of the stack), and keeps the bound; a reused object comes back restamped |
| `UniversalSession.StartInv` | universal_object_pool/__init__.py:11-15 | a new pool with a non-negative bound satisfies the session invariant |
| `UniversalSession.BorrowKeepsSessionInv` | universal_object_pool/__init__.py:35-52 | a borrow keeps the invariant, and the object it hands out is neither held by another caller nor left idle |
| `UniversalSession.ReturnKeepsSessionInv` | universal_object_pool/__init__.py:54-58 | returning a lent object never finds the stack full and keeps the invariant |
| `UniversalSession.ReapKeepsSessionInv` | universal_object_pool/__init__.py:21-33 | the corrected reaper pass (`ReapResult`) keeps the invariant |
| `UniversalSession.StepKeepsSessionInv` | universal_object_pool/__init__.py:21-58 | each borrow, return or reap keeps the invariant and `num` |
| `UniversalSession.RunKeepsSessionInv` | universal_object_pool/__init__.py:21-58 | over any sequence of calls, idle + lent objects never exceed `num`, the counter equals the number of lent objects, and no object is in two places |
| `FifoPool.SpecifyCreateObjectFun` | object_pool/__init__.py:18-19 | setting the factory replaces it and changes nothing else |
| `FifoPool.Attempt` | object_pool/__init__.py:24-38 | with an empty queue and the counter within `num`: a missing or non-callable factory raises `ValueError` before any call; a raising factory fails; an object of the wrong type raises `ValueError` and is not queued. An empty queue with no construction allowed raises `queue.Empty`. A new object is handed out at once; otherwise the head of the queue is |
| `FifoPool.Borrow` | object_pool/__init__.py:21-42 | a borrow fails (returns None) exactly when the queue is empty and either construction is not allowed or the factory is missing, raises or returns the wrong type; every failure leaves the pool unchanged with the counter restored; a success adds one to the counter; reuse takes the head of the queue without calling the factory; on an empty queue a success means a callable factory returned an instance, and exactly that object is handed out with the queue left empty |
| `FifoPool.Return` | object_pool/__init__.py:44-48 | a return raises `queue.Full` exactly when the queue is full; otherwise the object joins the back of the queue and the counter drops by one, with nothing else changed |
| `FifoPool.FifoReuse` | object_pool/__init__.py:21-48 | after returning a and then b to an empty queue, the next two borrows yield a and then b, leaving the pool as it was |
| `FifoPool.ReturnAllAppends` | object_pool/__init__.py:44-48 | returning a sequence of objects appends it, in order, to the back of the queue and lowers the counter by its length |
| `FifoPool.BorrowManyTakesFront` | object_pool/__init__.py:21-38 | n borrows from a queue holding at least n objects hand out its first n, in queue order, without calling the factory |
| `FifoPool.ReturnAllThenBorrowMany` | object_pool/__init__.py:21-48 | objects are handed out in the order they were returned, after those already queued |
| `FifoPool.InitInv` | object_pool/__init__.py:9-14 | a new pool satisfies the capacity bound exactly when `num` is not negative; as no factory is set yet, its first borrow returns None and leaves the pool unchanged, whatever `num` is (for `num >= 1` through the missing-factory `ValueError` of lines 26-28, otherwise through `queue.Empty`) |
| `FifoPool.BorrowKeepsInv` | object_pool/__init__.py:25-36 | a borrow keeps `0 <= _is_using_num` and idle + borrowed <= `num` |
| `FifoPool.ReturnKeepsInv` | object_pool/__init__.py:44-48 | under the bound, with some object out, a return never finds the queue full and keeps the bound |
| `FifoContext.Enter` | object_pool/__init__.py:58-60 | entering holds None exactly when the borrow fails (empty queue and either construction is not allowed or the factory is missing, raises or returns the wrong type), and then the pool is unchanged; otherwise the counter has gone up by one and the held object is the head of the queue, which leaves the queue, or on an empty queue the object the factory just made; `num` and the factory are never changed |
| `FifoContext.Release` | object_pool/__init__.py:62-72 | a context that holds None never returns anything; otherwise the held object is enqueued once and forgotten, unless the put raises `queue.Full` |
| `FifoContext.ReleaseAtMostOnce` | object_pool/__init__.py:62-72 | `__exit__` followed by `__del__` returns the object at most once |
| `FifoContext.WithBlock` | object_pool/__init__.py:58-72 | on a pool within its bound, a whole `with` block returns the counter to where it started and gives the object back exactly once, at the back of the queue |
| `ThreadPoolBorrow.Borrow` | universal_object_pool/contrib/threadpool_using_object_pool.py:17-43 | every error (constructor failure, `queue.Full`, `queue.Empty`) reaches the caller and leaves the pool unchanged; each error occurs exactly under its condition; a success adds one to `is_using_num` and stamps the object; below `object_pool_size` a new object is built even when idle ones wait, is counted after its put, and is handed out; at the size the top idle object is reused; the creation count never passes the size |
| `ThreadPoolBorrow.Take` | universal_object_pool/contrib/threadpool_using_object_pool.py:28-38 | the get after the optional construction raises `queue.Empty` exactly on an empty queue and then leaves the pool as it was; otherwise the top leaves the queue restamped and `is_using_num` goes up by one |
| `ThreadPoolBorrow.BorrowKeepsValid` | universal_object_pool/contrib/threadpool_using_object_pool.py:21-31 | a borrow keeps idle + in use <= created <= size, and on such a pool the put never finds the queue full |
| `ThreadPoolBorrow.BorrowsBuildBelowSize` | universal_object_pool/contrib/threadpool_using_object_pool.py:21-34 | while the creation count stays below the size, every successful construction is handed out by its own borrow, whatever is idle, and both counters rise once per borrow |
| `ThreadPoolBorrow.BorrowSeqWithinSize` | universal_object_pool/contrib/threadpool_using_object_pool.py:21-26 | over any run of borrows, `_has_create_object_num` never exceeds `object_pool_size` |

## Left out

- Locking and concurrency: every call is one atomic step. The periodic
  `keep_circulating` daemon that runs the reaper is left out; a reaper pass
  is a step that callers of the model may take at any time.
- Blocking waits and timeouts: the `block` and `timeout` arguments of
  `get`, `_borrow_a_object` and the contexts are dropped. A wait on an empty
  stack fails at once with `queue.Empty`, and a wait on a full one with
  `queue.Full`.
- Wall-clock floats from `time.time()` and `time.perf_counter()`: the clock
  is an abstract natural number and the 30·60 threshold is an integer. Within
  one reaper pass the clock does not move.
- What `clean_up` does to an object: the model records which objects a pass
  cleans up, in order, and nothing more.
- Logging calls, and `AbstractObject.__getattr__`, which forwards attributes
  to the wrapped object and has no pool behaviour.
- The `ThreadOperator` worker thread, `ThreadObjectPool.submit`, and the work
  queue.
- ThreadPoolBorrow.Borrow: the base class that declares `_queue`,
  `_has_create_object_num`, `object_pool_size` and `is_using_num` is not part
  of this model. Its queue is taken to be a `LifoQueue(object_pool_size)`, and
  its return path and reaper are not modelled.
- ReapAsWritten: runs the written loop for at most `fuel` iterations and
  answers None while the loop is still going, because the loop need not
  terminate; what happens after more iterations than the fuel allows is
  stated only through the lemmas that hold for every fuel.
- Entering a context twice, which overwrites the held object and leaks the
  first one, is not modelled: `Enter` starts from an empty context.
- Errors raised by collaborators outside the listed paths are not modelled.
  An example is an object returned without a stamp, which makes the reaper
  fail on the missing attribute.
- The contrib adapters (webdriver, pymysql, paramiko, http, pika), the test
  and demo scripts, and packaging are out of scope.

## Findings

| source | as written | input that shows it | evidently intended | confidence | as-written member | corrected member |
|---|---|---|---|---|---|---|
| universal_object_pool/__init__.py:23-33 | the reaper drains the stack with `get_nowait`, but inside the same loop it puts each surviving object straight back onto the same `LifoQueue`; the next `get_nowait` then pops that object again, and the loop only stops once the stack is empty | an idle stack holding one object last used at time 0, reaped at time 0 (in general, any stack with an object within the 1800 s limit) | drain the whole stack first, then push back the objects still within the limit, so that fresh objects stay idle and the pass ends | high; not executed | `UniversalReaper.ReapAsWrittenNeverFinishesWithSurvivor` | `UniversalReaper.Reap` |

With a fixed clock, the written loop never ends while any idle object is
within the limit (`ReapAsWrittenNeverFinishesWithSurvivor`,
`ReaperCounterexample`). It ends only when every idle object has expired
(`ReapAsWrittenFinishesWhenAllExpired`); `ReapAsWritten` itself states
that whenever it finishes, the stack is empty and every idle object it
started with was expired and cleaned up. With a real clock the loop keeps
reading `time.time()`. It therefore spins while holding the pool lock, which
blocks every borrow, until the object on top ages past thirty minutes. It
cleans that object up and repeats with the next one. So a pass ends only
after every idle object has been cleaned up, however recently it was used.

The corrected pass is `ReapResult`, with its loop `Reap`. It drains the stack
into a temporary sequence and then re-pushes the survivors in pop order. The
rest of the model, including `UniversalSession`, uses it.
