/** The idle reaper of `universal_object_pool.ObjectPool`
    (`_check_and_cleanup_objects`): one pass over the idle stack at one clock
    reading, holding the pool lock, that cleans up every object idle for more
    than thirty minutes.

    The source drains the stack with `get_nowait` but puts each surviving
    object straight back onto the same LIFO stack, so the next `get_nowait`
    returns that object again; `ReapAsWritten` models that loop. `ReapResult`
    and `Reap` model the evidently intended pass, which drains first and
    re-pushes the survivors afterwards; the rest of the model uses it. */
module UniversalReaper {
  import opened Common
  import opened Queues
  import opened UniversalPool

  /** The objects of `s` that survive a pass at `now`, in the order of `s`. */
  function Survivors(s: seq<Obj>, now: Time): seq<Obj> {
    if |s| == 0 then []
    else (if Expired(s[0], now) then [] else [s[0]]) + Survivors(s[1..], now)
  }

  /** The objects of `s` that a pass at `now` cleans up, in the order of `s`. */
  function Expiring(s: seq<Obj>, now: Time): seq<Obj> {
    if |s| == 0 then []
    else (if Expired(s[0], now) then [s[0]] else []) + Expiring(s[1..], now)
  }

  /** Membership in the survivors and in the cleaned objects splits `s` by
      expiry, and the two together are a rearrangement of `s`. */
  lemma {:induction false} SplitByExpiry(s: seq<Obj>, now: Time)
    ensures forall o :: o in Survivors(s, now) <==> o in s && !Expired(o, now)
    ensures forall o :: o in Expiring(s, now) <==> o in s && Expired(o, now)
    ensures multiset(Survivors(s, now)) + multiset(Expiring(s, now)) == multiset(s)
  {
    if |s| > 0 {
      SplitByExpiry(s[1..], now);
      assert s == [s[0]] + s[1..];
    }
  }

  /** Keeping the survivors commutes with reading the sequence backwards. */
  lemma {:induction false} SurvivorsOfReverse(s: seq<Obj>, now: Time)
    ensures Survivors(Reverse(s), now) == Reverse(Survivors(s, now))
  {
    if |s| > 0 {
      var last := s[|s| - 1];
      var init := s[..|s| - 1];
      var kept := if Expired(last, now) then [] else [last];
      SurvivorsOfReverse(init, now);
      assert Survivors([last], now) == kept;
      SurvivorsAppend(init, [last], now);
      assert s == init + [last];
      assert Survivors(s, now) == Survivors(init, now) + kept;
      ReverseAppend(Survivors(init, now), kept);
      assert Reverse(kept) == kept;
      assert Reverse(s) == [last] + Reverse(init);
      assert Survivors(Reverse(s), now) == kept + Survivors(Reverse(init), now);
    }
  }

  lemma {:induction false} SurvivorsAppend(a: seq<Obj>, b: seq<Obj>, now: Time)
    ensures Survivors(a + b, now) == Survivors(a, now) + Survivors(b, now)
  {
    if |a| == 0 {
      assert a + b == b;
    } else {
      assert (a + b)[0] == a[0];
      assert (a + b)[1..] == a[1..] + b;
      SurvivorsAppend(a[1..], b, now);
    }
  }

  /** Every survivor is one of the objects it was kept from. */
  lemma {:induction false} SurvivorsIn(s: seq<Obj>, now: Time)
    ensures forall k :: 0 <= k < |Survivors(s, now)| ==> Survivors(s, now)[k] in s
  {
    if |s| > 0 {
      SurvivorsIn(s[1..], now);
      assert forall o :: o in s[1..] ==> o in s;
    }
  }

  /** Survivors of a sequence without repeated identities have none either. */
  lemma {:induction false} SurvivorsDistinct(s: seq<Obj>, now: Time)
    requires Distinct(s)
    ensures Distinct(Survivors(s, now))
  {
    if |s| > 0 {
      var tail := s[1..];
      assert Distinct(tail) by {
        forall i, j | 0 <= i < |tail| && 0 <= j < |tail| && i != j
          ensures tail[i].id != tail[j].id
        {
          assert tail[i] == s[i + 1] && tail[j] == s[j + 1];
        }
      }
      assert forall m :: 0 <= m < |tail| ==> tail[m].id != s[0].id by {
        forall m | 0 <= m < |tail|
          ensures tail[m].id != s[0].id
        {
          assert tail[m] == s[m + 1];
        }
      }
      SurvivorsDistinct(tail, now);
      SurvivorsIn(tail, now);
      var rest := Survivors(tail, now);
      assert forall k :: 0 <= k < |rest| ==> rest[k].id != s[0].id;
      if !Expired(s[0], now) {
        var r := [s[0]] + rest;
        assert Survivors(s, now) == r;
        forall i, j | 0 <= i < |r| && 0 <= j < |r| && i != j
          ensures r[i].id != r[j].id
        {
          if i > 0 && j > 0 {
            assert r[i] == rest[i - 1] && r[j] == rest[j - 1];
          } else if i == 0 {
            assert r[j] == rest[j - 1];
          } else {
            assert r[i] == rest[i - 1];
          }
        }
      } else {
        assert Survivors(s, now) == rest;
      }
    }
  }

  /** A sequence read backwards repeats no identity it did not repeat before. */
  lemma ReverseDistinct(s: seq<Obj>)
    requires Distinct(s)
    ensures Distinct(Reverse(s))
  {
    var r := Reverse(s);
    forall i, j | 0 <= i < |r| && 0 <= j < |r| && i != j
      ensures r[i].id != r[j].id
    {
      ReverseIndex(s, i);
      ReverseIndex(s, j);
    }
  }

  /** The intended reaper pass as a value: the pool afterwards and the objects
      cleaned up, in the order they were popped. Survivors are re-pushed in
      pop order once the stack has been drained. */
  function ReapResult(p: Pool, now: Time): (Pool, seq<Obj>) {
    var popped := Reverse(p.stack);
    (p.(stack := Survivors(popped, now)), Expiring(popped, now))
  }

  /** Popping the top object of `s` decides its fate first. */
  lemma PopOne(s: seq<Obj>, now: Time)
    requires |s| > 0
    ensures var o := s[|s| - 1];
            && Survivors(Reverse(s), now) == (if Expired(o, now) then [] else [o]) + Survivors(Reverse(s[..|s| - 1]), now)
            && Expiring(Reverse(s), now) == (if Expired(o, now) then [o] else []) + Expiring(Reverse(s[..|s| - 1]), now)
  {
  }

  /** The intended reaper pass as a loop in the shape of the source: pop every
      idle object, clean up the expired ones and keep the others aside, then
      push the kept ones back. */
  method Reap(p: Pool, now: Time) returns (q: Pool, cleaned: seq<Obj>)
    ensures (q, cleaned) == ReapResult(p, now)
  {
    var rest := p.stack;
    var kept: seq<Obj> := [];
    cleaned := [];
    while |rest| > 0
      invariant Survivors(Reverse(p.stack), now) == kept + Survivors(Reverse(rest), now)
      invariant Expiring(Reverse(p.stack), now) == cleaned + Expiring(Reverse(rest), now)
      decreases |rest|
    {
      var o := rest[|rest| - 1];
      var below := rest[..|rest| - 1];
      PopOne(rest, now);
      if Expired(o, now) {
        assert Survivors(Reverse(rest), now) == Survivors(Reverse(below), now);
        assert cleaned + Expiring(Reverse(rest), now) == (cleaned + [o]) + Expiring(Reverse(below), now);
        cleaned := cleaned + [o];
      } else {
        assert kept + Survivors(Reverse(rest), now) == (kept + [o]) + Survivors(Reverse(below), now);
        assert Expiring(Reverse(rest), now) == Expiring(Reverse(below), now);
        kept := kept + [o];
      }
      rest := below;
    }
    assert kept + [] == kept && cleaned + [] == cleaned;
    q := p.(stack := kept);
  }

  /** What a pass achieves: the counter and the bound are untouched; the
      stack holds exactly the idle objects still within the limit and every
      other idle object was cleaned up, each exactly once; and re-pushing in
      pop order reverses the survivors' relative order. */
  lemma ReapSplitsIdleObjects(p: Pool, now: Time)
    ensures var (q, cleaned) := ReapResult(p, now);
            && q.num == p.num && q.usingNum == p.usingNum
            && (forall o :: o in q.stack <==> o in p.stack && !Expired(o, now))
            && (forall o :: o in cleaned <==> o in p.stack && Expired(o, now))
            && multiset(q.stack) + multiset(cleaned) == multiset(p.stack)
            && q.stack == Reverse(Survivors(p.stack, now))
  {
    var popped := Reverse(p.stack);
    ReverseMultiset(p.stack);
    assert forall o :: o in popped <==> o in p.stack by {
      forall o ensures o in popped <==> o in p.stack {
        assert o in popped <==> o in multiset(popped);
        assert o in p.stack <==> o in multiset(p.stack);
      }
    }
    SplitByExpiry(popped, now);
    SurvivorsOfReverse(p.stack, now);
  }

  /** The pass keeps the pool's sequential bound. */
  lemma ReapKeepsInv(p: Pool, now: Time)
    requires Inv(p)
    ensures Inv(ReapResult(p, now).0)
  {
    SplitByExpiry(Reverse(p.stack), now);
    var s := Reverse(p.stack);
    assert |Survivors(s, now)| + |Expiring(s, now)| == |s| by {
      assert |multiset(Survivors(s, now))| + |multiset(Expiring(s, now))| == |multiset(s)|;
    }
  }

  /** The source's loop, run for at most `fuel` iterations: pop the top; clean
      it up if it is expired, otherwise put it straight back onto the same
      stack. Some((stack, cleaned)) once `get_nowait` raises `queue.Empty`;
      None while the loop is still running after `fuel` iterations. */
  function ReapAsWritten(stack: seq<Obj>, cleaned: seq<Obj>, now: Time, fuel: nat): (r: Option<(seq<Obj>, seq<Obj>)>)
    // The loop only ever leaves through queue.Empty, so it can only finish
    // with an empty stack,
    ensures r.Some? ==> r.value.0 == []
    // having cleaned up, after what was cleaned before, exactly the idle
    // objects it started with that had expired.
    ensures r.Some? ==>
      && |cleaned| <= |r.value.1| && r.value.1[..|cleaned|] == cleaned
      && multiset(r.value.1) == multiset(cleaned) + multiset(stack)
      && forall i :: |cleaned| <= i < |r.value.1| ==> Expired(r.value.1[i], now)
    decreases fuel
  {
    if fuel == 0 then None
    else match LifoGet(stack)
      case None => Some((stack, cleaned))
      case Some((o, rest)) =>
        if Expired(o, now) then ReapAsWritten(rest, cleaned + [o], now, fuel - 1)
        else ReapAsWritten(rest + [o], cleaned, now, fuel - 1)
  }

  /** As written, a fresh object on top is popped and pushed back for ever:
      the loop never reaches the empty stack. */
  lemma {:induction false} ReapAsWrittenSpinsOnFreshTop(stack: seq<Obj>, cleaned: seq<Obj>, now: Time, fuel: nat)
    requires |stack| > 0 && !Expired(stack[|stack| - 1], now)
    ensures ReapAsWritten(stack, cleaned, now, fuel).None?
    decreases fuel
  {
    if fuel > 0 {
      assert stack[..|stack| - 1] + [stack[|stack| - 1]] == stack;
      ReapAsWrittenSpinsOnFreshTop(stack, cleaned, now, fuel - 1);
    }
  }

  /** As written, an expired object on top is cleaned up and the loop goes on
      with the rest of the stack. */
  lemma ReapAsWrittenExpiredTop(stack: seq<Obj>, cleaned: seq<Obj>, now: Time, fuel: nat)
    requires |stack| > 0 && fuel > 0 && Expired(stack[|stack| - 1], now)
    ensures ReapAsWritten(stack, cleaned, now, fuel)
         == ReapAsWritten(stack[..|stack| - 1], cleaned + [stack[|stack| - 1]], now, fuel - 1)
  {
  }

  /** As written, the loop finishes exactly when every idle object has
      expired: with any survivor it runs for ever, */
  lemma {:induction false} ReapAsWrittenNeverFinishesWithSurvivor(stack: seq<Obj>, cleaned: seq<Obj>, now: Time, fuel: nat)
    requires exists o :: o in stack && !Expired(o, now)
    ensures ReapAsWritten(stack, cleaned, now, fuel).None?
    decreases fuel
  {
    if fuel > 0 {
      var top := stack[|stack| - 1];
      var rest := stack[..|stack| - 1];
      if Expired(top, now) {
        assert stack == rest + [top];
        assert exists o :: o in rest && !Expired(o, now);
        ReapAsWrittenNeverFinishesWithSurvivor(rest, cleaned + [top], now, fuel - 1);
      } else {
        ReapAsWrittenSpinsOnFreshTop(stack, cleaned, now, fuel);
      }
    }
  }

  /** and when none survives it cleans up every object, in pop order, and
      leaves the stack empty. */
  lemma {:induction false} ReapAsWrittenFinishesWhenAllExpired(stack: seq<Obj>, cleaned: seq<Obj>, now: Time)
    requires forall i :: 0 <= i < |stack| ==> Expired(stack[i], now)
    ensures ReapAsWritten(stack, cleaned, now, |stack| + 1) == Some(([], cleaned + Reverse(stack)))
    decreases |stack|
  {
    if |stack| == 0 {
      assert cleaned + Reverse(stack) == cleaned;
    } else {
      var top := stack[|stack| - 1];
      var rest := stack[..|stack| - 1];
      ReapAsWrittenFinishesWhenAllExpired(rest, cleaned + [top], now);
      ReapAsWrittenExpiredTop(stack, cleaned, now, |stack| + 1);
      assert Reverse(stack) == [top] + Reverse(rest);
      assert cleaned + Reverse(stack) == (cleaned + [top]) + Reverse(rest);
    }
  }

  /** The discrepancy on one input: a pool holding a single object used at
      time 0, reaped at time 0. As written the pass never finishes; the
      intended pass keeps the object and cleans nothing. */
  lemma ReaperCounterexample(fuel: nat)
    ensures ReapAsWritten([Obj(0, 0)], [], 0, fuel).None?
    ensures ReapResult(Pool(10, [Obj(0, 0)], 0), 0) == (Pool(10, [Obj(0, 0)], 0), [])
  {
    ReapAsWrittenSpinsOnFreshTop([Obj(0, 0)], [], 0, fuel);
    var s := [Obj(0, 0)];
    assert Reverse(s) == s by {
      assert s[..0] == [];
    }
    assert s[1..] == [];
    assert Survivors(s, 0) == s;
    assert Expiring(s, 0) == [];
  }
}
