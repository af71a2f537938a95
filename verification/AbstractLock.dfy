/** The specification both hand-written locks implement: a lock is free or has
    one owner, and only its owner releases it. */
module AbstractLock {

  datatype Owner = Free | HeldBy(thread: nat)

  /** What one atomic instruction of a lock means to its callers. */
  datatype Op = Acquire(thread: nat) | Release(thread: nat) | Internal

  predicate Allowed(o: Owner, op: Op) {
    match op
    case Acquire(_) => o.Free?
    case Release(t) => o == HeldBy(t)
    case Internal => true
  }

  function Next(o: Owner, op: Op): Owner {
    match op
    case Acquire(t) => HeldBy(t)
    case Release(_) => Free
    case Internal => o
  }

  predicate Legal(o: Owner, ops: seq<Op>)
    decreases |ops|
  {
    ops == [] || (Allowed(o, ops[0]) && Legal(Next(o, ops[0]), ops[1..]))
  }

  function After(o: Owner, ops: seq<Op>): Owner
    decreases |ops|
  {
    if ops == [] then o else After(Next(o, ops[0]), ops[1..])
  }

  /** A thread that owns the lock releases it before anybody acquires it. */
  lemma {:induction false} OwnerReleasesFirst(t: nat, ops: seq<Op>, j: nat) returns (k: nat)
    requires Legal(HeldBy(t), ops)
    requires j < |ops| && ops[j].Acquire?
    ensures k < j && ops[k] == Release(t)
  {
    if ops[0] == Release(t) {
      k := 0;
    } else {
      assert ops[0].Internal? && j > 0;
      var k' := OwnerReleasesFirst(t, ops[1..], j - 1);
      k := k' + 1;
    }
  }

  /** Mutual exclusion read off a history: between two acquisitions the first
      acquirer has released the lock. */
  lemma {:induction false} AcquisitionsAlternate(o: Owner, ops: seq<Op>, i: nat, j: nat) returns (k: nat)
    requires Legal(o, ops)
    requires i < j < |ops| && ops[i].Acquire? && ops[j].Acquire?
    ensures i < k < j && ops[k] == Release(ops[i].thread)
    decreases |ops|
  {
    if i == 0 {
      var k' := OwnerReleasesFirst(ops[0].thread, ops[1..], j - 1);
      k := k' + 1;
    } else {
      var k' := AcquisitionsAlternate(Next(o, ops[0]), ops[1..], i - 1, j - 1);
      k := k' + 1;
    }
  }
}
