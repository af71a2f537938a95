/** The program around the sleep lock: each of n threads calls lock() and unlock() once. */
module SleepLockMain {
  import opened ThreadSets
  import opened L = SleepLock

  /** called[t] says that t has made its one call of lock(). */
  datatype Main = Main(lock: L.State, called: seq<bool>)

  function Start(n: nat): Main {
    Main(L.Init(n), seq(n, _ => false))
  }

  predicate Returned(m: Main, t: nat) {
    t < |m.lock.pc| && t < |m.called| && m.lock.pc[t].Outside? && m.called[t]
  }

  /** A thread that has returned does nothing more. */
  function Next(m: Main, e: Event): (m': Main)
    ensures |m'.called| == |m.called| && |m'.lock.pc| == |m.lock.pc|
  {
    var t := e.thread;
    if t >= |m.called| || Returned(m, t) then m
    else Main(L.Step(m.lock, e), if e.Run? then m.called[t := true] else m.called)
  }

  function Go(m: Main, sched: seq<Event>): (m': Main)
    ensures |m'.called| == |m.called| && |m'.lock.pc| == |m.lock.pc|
    decreases |sched|
  {
    if sched == [] then m else Go(Next(m, sched[0]), sched[1..])
  }

  ghost predicate BadIn(m: Main, sched: seq<Event>)
    decreases |sched|
  {
    sched != [] && (L.BadStore(m.lock, sched[0]) || BadIn(Next(m, sched[0]), sched[1..]))
  }

  ghost predicate MainInv(m: Main) {
    && |m.called| == |m.lock.pc|
    && L.Inv(m.lock)
    && forall t: nat :: t < |m.called| && !m.called[t] ==> m.lock.pc[t].Outside?
  }

  lemma NextKeepsInv(m: Main, e: Event)
    requires MainInv(m)
    ensures MainInv(Next(m, e))
    ensures L.Lost(Next(m, e).lock) <==> L.Lost(m.lock) || L.BadStore(m.lock, e)
    ensures forall t: nat :: Returned(m, t) ==> Returned(Next(m, e), t)
  {
    L.StepKeepsInv(m.lock, e);
  }

  lemma {:induction false} GoKeepsInv(m: Main, sched: seq<Event>)
    requires MainInv(m)
    ensures MainInv(Go(m, sched))
    ensures L.Lost(Go(m, sched).lock) <==> L.Lost(m.lock) || BadIn(m, sched)
    ensures forall t: nat :: Returned(m, t) ==> Returned(Go(m, sched), t)
    decreases |sched|
  {
    if sched == [] {
    } else {
      NextKeepsInv(m, sched[0]);
      GoKeepsInv(Next(m, sched[0]), sched[1..]);
    }
  }

  lemma StartInv(n: nat)
    ensures MainInv(Start(n)) && !L.Lost(Start(n).lock)
  {
    L.InitInv(n);
  }

  // ----- A thread that has the lock, or is about to wake the others, returns -----

  predicate Leaving(m: Main, t: nat) {
    t < |m.lock.pc| && (m.lock.pc[t].Critical? || m.lock.pc[t].StoreOne? || m.lock.pc[t].Wake?)
  }

  lemma LeavingStaysNext(m: Main, e: Event, t: nat)
    requires MainInv(m) && (Leaving(m, t) || Returned(m, t))
    ensures Leaving(Next(m, e), t) || Returned(Next(m, e), t)
  {
  }

  lemma {:induction false} LeavingStays(m: Main, sched: seq<Event>, t: nat)
    requires MainInv(m) && (Leaving(m, t) || Returned(m, t))
    ensures Leaving(Go(m, sched), t) || Returned(Go(m, sched), t)
    decreases |sched|
  {
    if sched == [] {
    } else {
      NextKeepsInv(m, sched[0]);
      LeavingStaysNext(m, sched[0], t);
      LeavingStays(Next(m, sched[0]), sched[1..], t);
    }
  }

  lemma {:induction false} LeavingReturns(m: Main, sched: seq<Event>, t: nat)
    requires MainInv(m)
    requires Returned(m, t) || (Leaving(m, t) && L.Turns(sched, t) >= L.WakeDistance(m.lock.pc[t]))
    ensures Returned(Go(m, sched), t)
    decreases |sched|
  {
    if sched == [] {
    } else {
      NextKeepsInv(m, sched[0]);
      LeavingReturns(Next(m, sched[0]), sched[1..], t);
    }
  }

  // ----- A free lock is taken -----

  /** Nobody has the lock, and nobody is asleep. */
  ghost predicate Open(m: Main) {
    MainInv(m) && !L.Lost(m.lock) && forall t: nat :: !Leaving(m, t)
  }

  lemma OpenWord(m: Main)
    requires Open(m)
    ensures !L.Held(m.lock) && m.lock.word == L.UNLOCKED
    ensures forall t: nat :: !L.IsAsleep(m.lock, t)
  {
    if t: nat :| L.Holds(m.lock, t) {
      assert Leaving(m, t);
    }
    if t: nat :| L.IsAsleep(m.lock, t) {
      var w: nat :| L.Waker(m.lock, w);
      assert Leaving(m, w);
    }
  }

  /** Turns a thread that has not returned needs at most to take a free lock. */
  function TakeDistance(pc: L.PC): nat {
    match pc
    case Outside => 2
    case FutexWait => 2
    case _ => 1
  }

  /** While the lock is open, a thread that has not returned comes closer to taking it with
      each of its turns, unless its turn is a bad store or somebody takes the lock. */
  lemma OpenStep(m: Main, e: Event, u: nat)
    requires Open(m) && u < |m.called| && !Returned(m, u) && !L.BadStore(m.lock, e)
    ensures Leaving(Next(m, e), e.thread) || (Open(Next(m, e)) && !Returned(Next(m, e), u)
      && TakeDistance(Next(m, e).lock.pc[u]) <= TakeDistance(m.lock.pc[u]) - (if e == L.Run(u) then 1 else 0))
  {
    OpenWord(m);
    NextKeepsInv(m, e);
    assert !L.IsAsleep(m.lock, u) && !Leaving(m, u) && !L.IsAsleep(m.lock, e.thread) && !Leaving(m, e.thread);
    if !Leaving(Next(m, e), e.thread) {
      forall t: nat
        ensures !Leaving(Next(m, e), t)
      {
        assert !Leaving(m, t);
      }
    }
  }

  /** In a stretch that gives u enough turns and contains no bad store, somebody takes an
      open lock; at its end that thread is leaving or has returned. */
  lemma {:induction false} OpenIsTaken(m: Main, sched: seq<Event>, u: nat) returns (v: nat)
    requires Open(m) && u < |m.called| && !Returned(m, u)
    requires !BadIn(m, sched) && L.Turns(sched, u) >= TakeDistance(m.lock.pc[u])
    ensures !Returned(m, v) && (Leaving(Go(m, sched), v) || Returned(Go(m, sched), v))
    decreases |sched|
  {
    var e := sched[0];
    OpenStep(m, e, u);
    NextKeepsInv(m, e);
    if Leaving(Next(m, e), e.thread) {
      v := e.thread;
      LeavingStays(Next(m, e), sched[1..], v);
    } else {
      v := OpenIsTaken(Next(m, e), sched[1..], u);
    }
  }

  // ----- Fair schedules -----

  /** Every thread gets at least three turns. */
  predicate Generous(part: seq<Event>, n: nat) {
    forall t :: 0 <= t < n ==> L.Turns(part, t) >= 3
  }

  ghost function Callers(m: Main): set<nat> {
    set t: nat | t < |m.called| && !Returned(m, t)
  }

  /** In two generous stretches without a bad store somebody returns. */
  lemma SomebodyReturns(m: Main, a: seq<Event>, b: seq<Event>) returns (v: nat)
    requires MainInv(m) && !L.Lost(m.lock) && Callers(m) != {}
    requires Generous(a, |m.called|) && Generous(b, |m.called|)
    requires !BadIn(m, a)
    ensures v in Callers(m) && (Returned(Go(m, a), v) || Returned(Go(Go(m, a), b), v))
  {
    var m1 := Go(m, a);
    GoKeepsInv(m, a);
    if w: nat :| Leaving(m, w) {
      v := w;
      LeavingReturns(m, a, v);
    } else {
      var u :| u in Callers(m);
      v := OpenIsTaken(m, a, u);
      if Leaving(m1, v) {
        LeavingReturns(m1, b, v);
      }
    }
  }

  /** Two generous stretches without a bad store let one more caller return. */
  lemma OneMoreReturns(m: Main, a: seq<Event>, b: seq<Event>)
    requires MainInv(m) && !L.Lost(m.lock) && Callers(m) != {}
    requires Generous(a, |m.called|) && Generous(b, |m.called|)
    requires !BadIn(m, a)
    ensures Callers(Go(Go(m, a), b)) < Callers(m)
  {
    var v := SomebodyReturns(m, a, b);
    GoKeepsInv(m, a);
    GoKeepsInv(Go(m, a), b);
    assert Returned(Go(Go(m, a), b), v) && v in Callers(m);
  }

  function GoParts(m: Main, parts: seq<seq<Event>>): (m': Main)
    ensures |m'.called| == |m.called| && |m'.lock.pc| == |m.lock.pc|
    decreases |parts|
  {
    if parts == [] then m else GoParts(Go(m, parts[0]), parts[1..])
  }

  ghost predicate BadInParts(m: Main, parts: seq<seq<Event>>)
    decreases |parts|
  {
    parts != [] && (BadIn(m, parts[0]) || BadInParts(Go(m, parts[0]), parts[1..]))
  }

  lemma {:induction false} PartsKeepInv(m: Main, parts: seq<seq<Event>>)
    requires MainInv(m)
    ensures MainInv(GoParts(m, parts))
    ensures L.Lost(GoParts(m, parts).lock) <==> L.Lost(m.lock) || BadInParts(m, parts)
    decreases |parts|
  {
    if parts == [] {
    } else {
      GoKeepsInv(m, parts[0]);
      PartsKeepInv(Go(m, parts[0]), parts[1..]);
    }
  }

  lemma {:induction false} PartsLetReturn(m: Main, parts: seq<seq<Event>>, k: nat)
    requires MainInv(m) && !L.Lost(m.lock)
    requires |parts| == 2 * k && |Callers(m)| <= k
    requires forall i :: 0 <= i < |parts| ==> Generous(parts[i], |m.called|)
    requires !BadInParts(m, parts)
    ensures Callers(GoParts(m, parts)) == {}
    decreases k
  {
    if k == 0 {
    } else {
      var m1 := Go(m, parts[0]);
      var m2 := Go(m1, parts[1]);
      GoKeepsInv(m, parts[0]);
      GoKeepsInv(m1, parts[1]);
      assert parts[1..][0] == parts[1] && parts[1..][1..] == parts[2..];
      if Callers(m) != {} {
        OneMoreReturns(m, parts[0], parts[1]);
        SubsetSize(Callers(m2), Callers(m));
      } else {
        assert Callers(m2) == {};
      }
      PartsLetReturn(m2, parts[2..], k - 1);
    }
  }

  /** When every thread calls lock() once, as in main(), every fair schedule lets all n
      callers return, if and only if no store of -1 finds the lock without an owner: 2n
      stretches with three turns for everybody are enough. */
  lemma FairRunReturnsIff(n: nat, parts: seq<seq<Event>>)
    requires |parts| == 2 * n
    requires forall i :: 0 <= i < |parts| ==> Generous(parts[i], n)
    ensures (forall t: nat :: t < n ==> Returned(GoParts(Start(n), parts), t)) <==> !BadInParts(Start(n), parts)
  {
    var m, last := Start(n), GoParts(Start(n), parts);
    StartInv(n);
    PartsKeepInv(m, parts);
    if BadInParts(m, parts) {
      var t: nat :| L.InLock(last.lock, t);
      assert !Returned(last, t);
    } else {
      FullSet(Callers(m), n);
      PartsLetReturn(m, parts, n);
      forall t: nat | t < n
        ensures Returned(last, t)
      {
        assert t !in Callers(last);
      }
    }
  }
}
