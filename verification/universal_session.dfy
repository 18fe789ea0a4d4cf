/** A universal pool used by sequential callers, closed over what they hold.
    Besides the pool the state records the objects currently lent out and the
    identity the constructor gives its next object; both are bookkeeping of
    the model, not fields of the source. Every step keeps the pool within its
    bound and never hands out an object that someone already holds. */
module UniversalSession {
  import opened Common
  import opened Queues
  import opened UniversalPool
  import opened UniversalReaper

  datatype Session = Session(pool: Pool, lent: seq<Obj>, nextId: ObjId)

  /** Every identity in `os` was handed out by the constructor before `next`. */
  predicate IdsBelow(os: seq<Obj>, next: ObjId) {
    forall i :: 0 <= i < |os| ==> os[i].id < next
  }

  /** The counter counts the lent objects, idle and lent objects together fit
      in `num`, and no object is in two places. */
  predicate SessionInv(s: Session) {
    && Inv(s.pool)
    && s.pool.usingNum == |s.lent|
    && Distinct(s.pool.stack) && Distinct(s.lent) && Disjoint(s.pool.stack, s.lent)
    && IdsBelow(s.pool.stack, s.nextId) && IdsBelow(s.lent, s.nextId)
  }

  function Start(num: int): Session {
    Session(Init(num), [], 0)
  }

  /** A borrow; when it builds, the constructor succeeds exactly when `builds`
      holds and gives the next identity. The object handed out joins the lent
      ones. */
  function SessionBorrow(s: Session, now: Time, builds: bool): (Session, Option<Obj>) {
    var st := Borrow(s.pool, now, if builds then Built(s.nextId) else Raised);
    (Session(st.pool, s.lent + (if st.got.Some? then [st.got.value] else []), s.nextId + 1), st.got)
  }

  /** The holder of the i-th lent object gives it back. */
  function SessionReturn(s: Session, i: nat): Session
    requires i < |s.lent|
  {
    match Return(s.pool, s.lent[i])
    case None => s
    case Some(p) => Session(p, s.lent[..i] + s.lent[i + 1..], s.nextId)
  }

  /** A reaper pass, with the intended drain-then-requeue loop. */
  function SessionReap(s: Session, now: Time): Session {
    s.(pool := ReapResult(s.pool, now).0)
  }

  lemma StartInv(num: int)
    requires num >= 0
    ensures SessionInv(Start(num))
  {
  }

  /** Reuse: the top idle object moves to the lent ones. */
  lemma MoveTopToLent(stack: seq<Obj>, lent: seq<Obj>, o: Obj, next: ObjId)
    requires |stack| > 0 && o.id == stack[|stack| - 1].id
    requires Distinct(stack) && Distinct(lent) && Disjoint(stack, lent)
    requires IdsBelow(stack, next) && IdsBelow(lent, next)
    ensures var rest := stack[..|stack| - 1];
            && Distinct(rest) && Distinct(lent + [o]) && Disjoint(rest, lent + [o])
            && IdsBelow(rest, next + 1) && IdsBelow(lent + [o], next + 1)
            && (forall i :: 0 <= i < |lent| ==> lent[i].id != o.id)
            && (forall i :: 0 <= i < |rest| ==> rest[i].id != o.id)
  {
    var rest := stack[..|stack| - 1];
    var lent' := lent + [o];
    assert forall i :: 0 <= i < |rest| ==> rest[i] == stack[i];
    assert forall i :: 0 <= i < |lent| ==> lent'[i] == lent[i];
    assert forall i :: 0 <= i < |lent| ==> lent[i].id != o.id by {
      forall i | 0 <= i < |lent| ensures lent[i].id != o.id {
        assert stack[|stack| - 1].id != lent[i].id;
      }
    }
    assert Distinct(lent') by {
      forall i, j | 0 <= i < |lent'| && 0 <= j < |lent'| && i != j
        ensures lent'[i].id != lent'[j].id
      {
        if i < |lent| && j < |lent| {
          assert lent'[i] == lent[i] && lent'[j] == lent[j];
        }
      }
    }
    assert Disjoint(rest, lent') by {
      forall i, j | 0 <= i < |rest| && 0 <= j < |lent'|
        ensures rest[i].id != lent'[j].id
      {
        if j < |lent| {
          assert lent'[j] == lent[j];
          assert stack[i].id != lent[j].id;
        } else {
          assert stack[i].id != stack[|stack| - 1].id;
        }
      }
    }
  }

  /** Construction: a fresh identity joins the lent ones. */
  lemma NewToLent(lent: seq<Obj>, o: Obj, next: ObjId)
    requires o.id == next && Distinct(lent) && IdsBelow(lent, next)
    ensures Distinct(lent + [o]) && IdsBelow(lent + [o], next + 1)
    ensures forall i :: 0 <= i < |lent| ==> lent[i].id != o.id
  {
    var lent' := lent + [o];
    assert forall i :: 0 <= i < |lent| ==> lent'[i] == lent[i];
    assert Distinct(lent') by {
      forall i, j | 0 <= i < |lent'| && 0 <= j < |lent'| && i != j
        ensures lent'[i].id != lent'[j].id
      {
        if i < |lent| && j < |lent| {
          assert lent'[i] == lent[i] && lent'[j] == lent[j];
        }
      }
    }
  }

  /** A borrow keeps the invariant, and what it hands out was neither lent
      nor left idle: no object is ever held by two callers at once. */
  lemma BorrowKeepsSessionInv(s: Session, now: Time, builds: bool)
    requires SessionInv(s)
    ensures SessionInv(SessionBorrow(s, now, builds).0)
    ensures var got := SessionBorrow(s, now, builds).1;
            got.Some? ==> forall i :: 0 <= i < |s.lent| ==> s.lent[i].id != got.value.id
    ensures var (t, got) := SessionBorrow(s, now, builds);
            got.Some? ==> forall i :: 0 <= i < |t.pool.stack| ==> t.pool.stack[i].id != got.value.id
  {
    var ctor := if builds then Built(s.nextId) else Raised;
    BorrowKeepsInv(s.pool, now, ctor);
    var st := Borrow(s.pool, now, ctor);
    var stack := s.pool.stack;
    if st.got.None? {
      assert SessionBorrow(s, now, builds).0 == s.(nextId := s.nextId + 1);
    } else if |stack| > 0 {
      MoveTopToLent(stack, s.lent, st.got.value, s.nextId);
      assert SessionBorrow(s, now, builds) == (Session(st.pool, s.lent + [st.got.value], s.nextId + 1), st.got);
    } else {
      NewToLent(s.lent, st.got.value, s.nextId);
      assert SessionBorrow(s, now, builds) == (Session(st.pool, s.lent + [st.got.value], s.nextId + 1), st.got);
    }
  }

  /** Giving back a lent object never finds the stack full and keeps the
      invariant. */
  lemma ReturnKeepsSessionInv(s: Session, i: nat)
    requires SessionInv(s) && i < |s.lent|
    ensures Return(s.pool, s.lent[i]).Some?
    ensures SessionInv(SessionReturn(s, i))
  {
    ReturnKeepsInv(s.pool, s.lent[i]);
    var t := SessionReturn(s, i);
    var o := s.lent[i];
    var rest := s.lent[..i] + s.lent[i + 1..];
    assert t.lent == rest;
    assert t.pool.stack == s.pool.stack + [o];
    assert forall k :: 0 <= k < |rest| ==> rest[k] == s.lent[if k < i then k else k + 1];
    assert forall k :: 0 <= k < |rest| ==> rest[k].id != o.id;
    assert forall k :: 0 <= k < |s.pool.stack| ==> s.pool.stack[k].id != o.id;
  }

  /** A reaper pass keeps the invariant. */
  lemma ReapKeepsSessionInv(s: Session, now: Time)
    requires SessionInv(s)
    ensures SessionInv(SessionReap(s, now))
  {
    ReapKeepsInv(s.pool, now);
    ReapSplitsIdleObjects(s.pool, now);
    var survivors := ReapResult(s.pool, now).0.stack;
    ReverseDistinct(s.pool.stack);
    SurvivorsDistinct(Reverse(s.pool.stack), now);
    forall k | 0 <= k < |survivors|
      ensures survivors[k].id < s.nextId
      ensures forall j :: 0 <= j < |s.lent| ==> survivors[k].id != s.lent[j].id
    {
      assert survivors[k] in s.pool.stack;
    }
  }

  /** One call by some caller: a borrow, the return of the i-th lent object,
      or a reaper pass. */
  datatype Op = BorrowOp(now: Time, builds: bool) | ReturnOp(i: nat) | ReapOp(now: Time)

  /** One call; a return naming no lent object is skipped. */
  function Step(s: Session, op: Op): Session {
    match op
    case BorrowOp(now, builds) => SessionBorrow(s, now, builds).0
    case ReturnOp(i) => if i < |s.lent| then SessionReturn(s, i) else s
    case ReapOp(now) => SessionReap(s, now)
  }

  /** Runs the calls in order. */
  function Run(s: Session, ops: seq<Op>): Session
    decreases |ops|
  {
    if |ops| == 0 then s else Run(Step(s, ops[0]), ops[1..])
  }

  /** Every call keeps the invariant and the bound `num`. */
  lemma StepKeepsSessionInv(s: Session, op: Op)
    requires SessionInv(s)
    ensures SessionInv(Step(s, op))
    ensures Step(s, op).pool.num == s.pool.num
  {
    match op {
      case BorrowOp(now, builds) => BorrowKeepsSessionInv(s, now, builds);
      case ReturnOp(i) => if i < |s.lent| { ReturnKeepsSessionInv(s, i); }
      case ReapOp(now) => ReapKeepsSessionInv(s, now);
    }
  }

  /** For any sequence of calls from a state satisfying the invariant, idle
      and lent objects together never exceed `num`, the counter equals the
      number of lent objects, and no object is in two places. */
  lemma {:induction false} RunKeepsSessionInv(s: Session, ops: seq<Op>)
    requires SessionInv(s)
    ensures SessionInv(Run(s, ops))
    ensures |Run(s, ops).pool.stack| + |Run(s, ops).lent| <= s.pool.num
    ensures Run(s, ops).pool.num == s.pool.num
    decreases |ops|
  {
    if |ops| > 0 {
      StepKeepsSessionInv(s, ops[0]);
      RunKeepsSessionInv(Step(s, ops[0]), ops[1..]);
    }
  }
}
