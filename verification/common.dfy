/** Values shared by the three pool variants: object identities, the abstract
    clock, the idle-time stamp the pool writes on an object, what one call of an
    object constructor can do, and a few sequence helpers. */
module Common {

  datatype Option<+T> = None | Some(value: T)

  datatype Result<+T, +E> = Ok(value: T) | Err(error: E)

  /** Identity of a pooled object. */
  type ObjId = nat

  /** The abstract clock standing in for `time.time()`. */
  type Time = nat

  /** A pooled object together with its `the_obj_last_use_time` attribute. */
  datatype Obj = Obj(id: ObjId, lastUse: Time)

  /** What one call of the object type's constructor did: it returned a new
      object with the given identity, or it raised. */
  datatype Construction = Built(id: ObjId) | Raised

  /** The reaper's idle limit: thirty minutes, in seconds. */
  const MaxIdleSeconds: int := 30 * 60

  /** An idle object the reaper cleans up at `now`. */
  predicate Expired(o: Obj, now: Time) {
    now - o.lastUse > MaxIdleSeconds
  }

  /** The sequence read back to front. */
  function Reverse<T>(s: seq<T>): (r: seq<T>)
    ensures |r| == |s|
  {
    if |s| == 0 then [] else [s[|s| - 1]] + Reverse(s[..|s| - 1])
  }

  /** Element i of the reversed sequence is element |s| - 1 - i of s. */
  lemma {:induction false} ReverseIndex<T>(s: seq<T>, i: nat)
    requires i < |s|
    ensures Reverse(s)[i] == s[|s| - 1 - i]
    decreases |s|
  {
    if i > 0 {
      ReverseIndex(s[..|s| - 1], i - 1);
    }
  }

  /** Reading a concatenation backwards reads each part backwards, in swapped order. */
  lemma {:induction false} ReverseAppend<T>(a: seq<T>, b: seq<T>)
    ensures Reverse(a + b) == Reverse(b) + Reverse(a)
    decreases |b|
  {
    if |b| == 0 {
      assert a + b == a;
    } else {
      assert (a + b)[..|a + b| - 1] == a + b[..|b| - 1];
      ReverseAppend(a, b[..|b| - 1]);
    }
  }

  /** Reading backwards rearranges the elements and nothing more. */
  lemma {:induction false} ReverseMultiset<T>(s: seq<T>)
    ensures multiset(Reverse(s)) == multiset(s)
    decreases |s|
  {
    if |s| > 0 {
      ReverseMultiset(s[..|s| - 1]);
      assert s == s[..|s| - 1] + [s[|s| - 1]];
    }
  }

  /** The objects as handed out at `now`: each carries the new stamp. */
  function Stamp(os: seq<Obj>, now: Time): (r: seq<Obj>)
    ensures |r| == |os|
    ensures forall i :: 0 <= i < |os| ==> r[i] == os[i].(lastUse := now)
  {
    if |os| == 0 then [] else [os[0].(lastUse := now)] + Stamp(os[1..], now)
  }

  /** Stamping a concatenation stamps each part. */
  lemma StampAppend(a: seq<Obj>, b: seq<Obj>, now: Time)
    ensures Stamp(a + b, now) == Stamp(a, now) + Stamp(b, now)
  {
  }

  /** No identity occurs twice. */
  predicate Distinct(os: seq<Obj>) {
    forall i, j :: 0 <= i < |os| && 0 <= j < |os| && i != j ==> os[i].id != os[j].id
  }

  /** No identity occurs in both sequences. */
  predicate Disjoint(a: seq<Obj>, b: seq<Obj>) {
    forall i, j :: 0 <= i < |a| && 0 <= j < |b| ==> a[i].id != b[j].id
  }
}
