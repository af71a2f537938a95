/** Finite sets of thread numbers: the two facts about cardinality that the
    protocol invariants need. */
module ThreadSets {

  /** The threads 0 .. n-1. */
  function Threads(n: nat): (r: set<nat>)
    ensures forall t: nat :: t in r <==> t < n
  {
    if n == 0 then {} else Threads(n - 1) + {n - 1}
  }

  lemma {:induction false} ThreadsSize(n: nat)
    ensures |Threads(n)| == n
  {
    if n == 0 {
    } else {
      ThreadsSize(n - 1);
      assert n - 1 !in Threads(n - 1);
    }
  }

  lemma {:induction false} SubsetSize(a: set<nat>, b: set<nat>)
    requires a <= b
    ensures |a| <= |b|
    ensures |a| == |b| ==> a == b
    decreases |a|
  {
    if a == {} {
      assert |b| == 0 ==> b == {};
    } else {
      var x :| x in a;
      SubsetSize(a - {x}, b - {x});
      assert a == (a - {x}) + {x} && b == (b - {x}) + {x};
    }
  }

  /** A set of n threads out of n misses nobody, and no set of threads is larger. */
  lemma FullSet(a: set<nat>, n: nat)
    requires a <= Threads(n)
    ensures |a| <= n
    ensures |a| == n <==> forall t: nat :: t < n ==> t in a
  {
    ThreadsSize(n);
    SubsetSize(a, Threads(n));
    if forall t: nat :: t < n ==> t in a {
      assert a == Threads(n);
    }
  }
}
