/** The futex sleep lock. One step per atomic instruction or system call, any
    number of threads, any interleaving, sequentially consistent memory. */
module SleepLock {
  import opened AbstractLock
  import opened ThreadSets

  const UNLOCKED: int := 1

  datatype PC =
    | Outside    // not inside lock() or unlock(), lock not held
    | Fetch      // line 33: about to subtract
    | StoreNeg   // line 36: about to store -1
    | FutexWait  // line 37: about to call FUTEX_WAIT
    | Asleep     // line 37: sleeping in the kernel
    | Critical   // lock() has returned; next is line 56
    | StoreOne   // line 62: about to store 1
    | Wake       // line 63: about to wake everybody

  datatype State = State(word: int, pc: seq<PC>)

  /** A thread executes its next instruction, or a sleeper is woken for no reason. */
  datatype Event = Run(thread: nat) | Spurious(thread: nat)

  function Init(n: nat): State {
    State(UNLOCKED, seq(n, _ => Outside))
  }

  /** FUTEX_WAKE with INT_MAX: every sleeper leaves the kernel and retries. */
  function WakeAll(pc: seq<PC>): (r: seq<PC>)
    ensures |r| == |pc|
    ensures forall i :: 0 <= i < |pc| ==> r[i] == if pc[i].Asleep? then Fetch else pc[i]
  {
    seq(|pc|, i requires 0 <= i < |pc| => if pc[i].Asleep? then Fetch else pc[i])
  }

  function RunThread(s: State, t: nat): State
    requires t < |s.pc|
  {
    match s.pc[t]
    case Outside => s.(pc := s.pc[t := Fetch])
    case Fetch =>
      var ret := s.word - 1;
      State(ret, s.pc[t := if ret < 0 then StoreNeg else Critical])
    case StoreNeg => State(-1, s.pc[t := FutexWait])
    case FutexWait => s.(pc := s.pc[t := if s.word == -1 then Asleep else Fetch])
    case Asleep => s
    case Critical =>
      var ret := s.word + 1;
      State(ret, s.pc[t := if ret != 1 then StoreOne else Outside])
    case StoreOne => State(1, s.pc[t := Wake])
    case Wake => s.(pc := WakeAll(s.pc)[t := Outside])
  }

  function Step(s: State, e: Event): (s': State)
    ensures |s'.pc| == |s.pc|
  {
    if e.thread >= |s.pc| then s
    else match e
      case Run(t) => RunThread(s, t)
      case Spurious(t) => if s.pc[t].Asleep? then s.(pc := s.pc[t := Fetch]) else s
  }

  function Exec(s: State, sched: seq<Event>): (s': State)
    ensures |s'.pc| == |s.pc|
    decreases |sched|
  {
    if sched == [] then s else Exec(Step(s, sched[0]), sched[1..])
  }

  // ----- Mutual exclusion -----

  /** t is between its acquiring subtraction and its releasing write. */
  predicate Holds(s: State, t: nat) {
    t < |s.pc| && (s.pc[t].Critical? || s.pc[t].StoreOne?)
  }

  ghost predicate Held(s: State) {
    exists t: nat :: Holds(s, t)
  }

  /** No thread holds the lock and yet nobody can take it. */
  ghost predicate Lost(s: State) {
    !Held(s) && s.word < 0
  }

  /** t is certain to reach line 63: its next steps can no longer skip the wake. */
  predicate Waker(s: State, t: nat) {
    t < |s.pc| && (s.pc[t].Wake? || s.pc[t].StoreOne? || (s.pc[t].Critical? && s.word < 0))
  }

  predicate IsAsleep(s: State, t: nat) {
    t < |s.pc| && s.pc[t].Asleep?
  }

  /** t has called lock() and lock() has not returned. */
  predicate InLock(s: State, t: nat) {
    t < |s.pc| && (s.pc[t].Fetch? || s.pc[t].StoreNeg? || s.pc[t].FutexWait? || s.pc[t].Asleep?)
  }

  ghost predicate Inv(s: State) {
    && (forall t: nat, u: nat :: Holds(s, t) && Holds(s, u) ==> t == u)
    && (Held(s) ==> s.word <= 0)
    && (!Held(s) ==> s.word == UNLOCKED || s.word < 0)
    && (!Lost(s) && (exists u: nat :: IsAsleep(s, u)) ==> exists t: nat :: Waker(s, t))
    && (Lost(s) ==> exists t: nat :: InLock(s, t))
  }

  /** The threads between lines 33 and 36. */
  ghost function Pending(s: State): set<nat> {
    set t: nat | t < |s.pc| && s.pc[t].StoreNeg?
  }

  ghost predicate InRange(s: State) {
    -1 - |Pending(s)| <= s.word <= 1
  }

  /** The store of -1 at line 36 executes while nobody owns the lock. */
  ghost predicate BadStore(s: State, e: Event) {
    e.Run? && e.thread < |s.pc| && s.pc[e.thread].StoreNeg? && !Held(s)
  }

  ghost predicate BadStoreIn(s: State, sched: seq<Event>)
    decreases |sched|
  {
    sched != [] && (BadStore(s, sched[0]) || BadStoreIn(Step(s, sched[0]), sched[1..]))
  }

  lemma StepKeepsExclusion(s: State, e: Event)
    requires Inv(s)
    ensures var s' := Step(s, e);
      && (forall t: nat, u: nat :: Holds(s', t) && Holds(s', u) ==> t == u)
      && (Held(s') ==> s'.word <= 0)
      && (!Held(s') ==> s'.word == UNLOCKED || s'.word < 0)
      && (Lost(s') <==> Lost(s) || BadStore(s, e))
  {
    var s' := Step(s, e);
    var t := e.thread;
    assert forall u: nat :: u != t ==> (Holds(s', u) <==> Holds(s, u));
    if Held(s) {
      var h: nat :| Holds(s, h);
      if h != t { assert Holds(s', h); }
    }
    assert Holds(s', t) ==> Held(s');
    assert Holds(s, t) ==> Held(s);
  }

  lemma StepKeepsWaker(s: State, e: Event)
    requires Inv(s) && !Lost(Step(s, e))
    requires exists u: nat :: IsAsleep(Step(s, e), u)
    ensures exists t: nat :: Waker(Step(s, e), t)
  {
    var s' := Step(s, e);
    var t := e.thread;
    StepKeepsExclusion(s, e);
    var u: nat :| IsAsleep(s', u);
    if IsAsleep(s, u) {
      var w: nat :| Waker(s, w);
      assert Holds(s, t) ==> Held(s);
      assert s.pc[w].Critical? ==> Holds(s, w);
      assert Waker(s', w);
    } else {
      assert u == t && s.word == -1;
      var h: nat :| Holds(s, h);
      assert Waker(s', h);
    }
  }

  lemma StepKeepsCaller(s: State, e: Event)
    requires Inv(s) && (Lost(s) || BadStore(s, e))
    ensures exists t: nat :: InLock(Step(s, e), t)
  {
    if BadStore(s, e) {
      assert InLock(Step(s, e), e.thread);
    } else {
      var t: nat :| InLock(s, t);
      assert InLock(Step(s, e), t);
    }
  }

  lemma StepKeepsInv(s: State, e: Event)
    requires Inv(s)
    ensures Inv(Step(s, e))
    ensures Lost(Step(s, e)) <==> Lost(s) || BadStore(s, e)
  {
    StepKeepsExclusion(s, e);
    if Lost(Step(s, e)) { StepKeepsCaller(s, e); }
    if !Lost(Step(s, e)) && exists u: nat :: IsAsleep(Step(s, e), u) {
      StepKeepsWaker(s, e);
    }
  }

  lemma StepKeepsRange(s: State, e: Event)
    requires Inv(s) && InRange(s)
    ensures InRange(Step(s, e))
  {
    var t := e.thread;
    StepMovesPending(s, e);
    assert Holds(s, t) ==> Held(s);
  }

  predicate EntersPending(s: State, e: Event) {
    e.Run? && e.thread < |s.pc| && s.pc[e.thread].Fetch? && s.word - 1 < 0
  }

  predicate LeavesPending(s: State, e: Event) {
    e.Run? && e.thread < |s.pc| && s.pc[e.thread].StoreNeg?
  }

  lemma StepMovesPending(s: State, e: Event)
    ensures Pending(Step(s, e)) ==
      if EntersPending(s, e) then Pending(s) + {e.thread}
      else if LeavesPending(s, e) then Pending(s) - {e.thread}
      else Pending(s)
    ensures EntersPending(s, e) ==> e.thread !in Pending(s)
    ensures LeavesPending(s, e) ==> e.thread in Pending(s)
  {
  }

  lemma InitInv(n: nat)
    ensures Inv(Init(n)) && InRange(Init(n)) && !Lost(Init(n))
  {
    assert Pending(Init(n)) == {};
  }

  lemma {:induction false} ExecKeepsInv(s: State, sched: seq<Event>)
    requires Inv(s) && InRange(s)
    ensures Inv(Exec(s, sched)) && InRange(Exec(s, sched))
    ensures Lost(Exec(s, sched)) <==> Lost(s) || BadStoreIn(s, sched)
    decreases |sched|
  {
    if sched == [] {
    } else {
      StepKeepsInv(s, sched[0]);
      StepKeepsRange(s, sched[0]);
      ExecKeepsInv(Step(s, sched[0]), sched[1..]);
    }
  }

  /** Any number of threads, any run, spurious wake-ups included: two threads never
      hold the lock together, and the word is not positive while it is held. */
  lemma MutualExclusion(n: nat, sched: seq<Event>, t: nat, u: nat)
    requires Holds(Exec(Init(n), sched), t)
    ensures Holds(Exec(Init(n), sched), u) ==> t == u
    ensures Exec(Init(n), sched).word <= 0
  {
    InitInv(n);
    ExecKeepsInv(Init(n), sched);
  }

  /** The word never leaves [-1-p, 1], p threads being between lines 33 and 36; so it
      stays above -2-n, far from the limits of a 32-bit int. */
  lemma WordInRange(n: nat, sched: seq<Event>)
    ensures var s := Exec(Init(n), sched);
      -1 - |Pending(s)| <= s.word <= 1 && |Pending(s)| <= n
  {
    InitInv(n);
    ExecKeepsInv(Init(n), sched);
    FullSet(Pending(Exec(Init(n), sched)), n);
  }

  // ----- Progress, exactly characterised -----

  /** The lock is lost exactly when some store of -1 found no owner. */
  lemma LostIffBadStore(n: nat, sched: seq<Event>)
    ensures Lost(Exec(Init(n), sched)) <==> BadStoreIn(Init(n), sched)
  {
    InitInv(n);
    ExecKeepsInv(Init(n), sched);
  }

  lemma BadStoreFollows(s: State, e: Event, rest: seq<Event>)
    requires BadStoreIn(Step(s, e), rest)
    ensures BadStoreIn(s, [e] + rest)
  {
    assert ([e] + rest)[1..] == rest;
  }

  /** Thread 1 fails to take the lock that thread 0 holds, and its store of -1 comes only
      after the release. */
  lemma BadStoreHappens(n: nat) returns (sched: seq<Event>)
    requires n >= 2
    ensures BadStoreIn(Init(n), sched)
  {
    var a, b := Run(0), Run(1);
    var s0 := Init(n);
    var s2 := Step(Step(s0, a), a);
    assert s2 == State(0, s0.pc[0 := Critical]);
    var s4 := Step(Step(s2, b), b);
    assert s4 == State(-1, s0.pc[0 := Critical][1 := StoreNeg]);
    var s6 := Step(Step(s4, a), a);
    assert s6 == State(1, s0.pc[0 := Wake][1 := StoreNeg]);
    assert BadStore(s6, b);
    assert BadStoreIn(s6, [b]);
    BadStoreFollows(Step(s4, a), a, [b]);
    BadStoreFollows(s4, a, [a] + [b]);
    BadStoreFollows(Step(s2, b), b, [a] + ([a] + [b]));
    BadStoreFollows(s2, b, [b] + ([a] + ([a] + [b])));
    BadStoreFollows(Step(s0, a), a, [b] + ([b] + ([a] + ([a] + [b]))));
    sched := [a] + ([a] + ([b] + ([b] + ([a] + ([a] + [b])))));
    BadStoreFollows(s0, a, sched[1..]);
  }

  /** Nobody uses the lock, or one thread alone. */
  predicate Alone(s: State) {
    s.pc == [] || s == State(0, [Critical]) || s == State(1, [Fetch]) || s == State(1, [Outside])
  }

  /** Without a second thread every subtraction finds the lock free. */
  lemma {:induction false} AloneNeverStores(s: State, sched: seq<Event>)
    requires Alone(s)
    ensures !BadStoreIn(s, sched) && Alone(Exec(s, sched))
    decreases |sched|
  {
    if sched == [] {
    } else {
      AloneNeverStores(Step(s, sched[0]), sched[1..]);
    }
  }

  lemma InitAlone(n: nat)
    requires n < 2
    ensures Alone(Init(n))
  {
    assert n == 0 ==> Init(n).pc == [];
    assert n == 1 ==> Init(n) == State(1, [Outside]);
  }

  ghost predicate CanBeLost(n: nat) {
    exists sched :: BadStoreIn(Init(n), sched)
  }

  /** The lock can be lost in some run exactly when at least two threads use it. */
  lemma CanBeLostIff(n: nat)
    ensures CanBeLost(n) <==> n >= 2
  {
    if n >= 2 {
      var sched := BadStoreHappens(n);
      assert BadStoreIn(Init(n), sched);
    } else {
      InitAlone(n);
      forall sched
        ensures !BadStoreIn(Init(n), sched)
      {
        AloneNeverStores(Init(n), sched);
      }
    }
  }

  /** t's next instruction is the subtraction that takes the lock. */
  predicate AboutToAcquire(s: State, t: nat) {
    t < |s.pc| && s.pc[t].Fetch? && s.word - 1 >= 0
  }

  ghost predicate CanAcquire(s: State) {
    exists sched, t: nat :: AboutToAcquire(Exec(s, sched), t)
  }

  /** A lost lock stays lost: whatever runs next, nobody holds it and nobody takes it. */
  lemma LostForEver(s: State, sched: seq<Event>)
    requires Inv(s) && InRange(s) && Lost(s)
    ensures !Held(Exec(s, sched))
    ensures forall t: nat :: !AboutToAcquire(Exec(s, sched), t)
  {
    ExecKeepsInv(s, sched);
  }

  /** With every thread at line 36 the very next store is a bad one. */
  lemma {:induction false} AllPendingNeverAcquires(s: State, sched: seq<Event>, t: nat)
    requires Inv(s) && InRange(s)
    requires forall u: nat :: u < |s.pc| ==> s.pc[u].StoreNeg?
    ensures !AboutToAcquire(Exec(s, sched), t)
  {
    if sched == [] {
    } else {
      var e := sched[0];
      StepKeepsInv(s, e);
      StepKeepsRange(s, e);
      if BadStore(s, e) {
        LostForEver(Step(s, e), sched[1..]);
      } else {
        AllPendingNeverAcquires(s, sched[1..], t);
      }
    }
  }

  /** t's own steps lead it to line 33 of a free lock. */
  ghost predicate OnTrack(s: State, t: nat) {
    Holds(s, t) ||
    (!Held(s) && s.word == UNLOCKED && t < |s.pc| && !s.pc[t].StoreNeg? && !s.pc[t].Asleep?)
  }

  lemma {:induction false} OwnStepsAcquire(s: State, t: nat) returns (sched: seq<Event>)
    requires Inv(s) && OnTrack(s, t)
    ensures AboutToAcquire(Exec(s, sched), t)
    decreases match s.pc[t]
      case Critical => 4
      case StoreOne => 3
      case Wake => 2
      case Fetch => 0
      case _ => 1
  {
    if s.pc[t].Fetch? {
      sched := [];
    } else {
      assert Holds(s, t) ==> Held(s);
      StepKeepsInv(s, Run(t));
      var s' := Step(s, Run(t));
      assert forall u: nat :: u != t ==> (Holds(s', u) <==> Holds(s, u));
      var rest := OwnStepsAcquire(s', t);
      sched := [Run(t)] + rest;
      assert sched[1..] == rest;
    }
  }

  /** The exact condition for the lock to be taken once more by anybody: it is not
      lost, and not every thread is committed to a store of -1. */
  lemma CanAcquireIff(n: nat, sched: seq<Event>)
    ensures var s := Exec(Init(n), sched);
      CanAcquire(s) <==> !Lost(s) && exists t: nat :: t < n && !s.pc[t].StoreNeg?
  {
    InitInv(n);
    ExecKeepsInv(Init(n), sched);
    var s := Exec(Init(n), sched);
    if CanAcquire(s) {
      var more, t: nat :| AboutToAcquire(Exec(s, more), t);
      if Lost(s) { LostForEver(s, more); }
      if forall u: nat :: u < n ==> s.pc[u].StoreNeg? { AllPendingNeverAcquires(s, more, t); }
    }
    if !Lost(s) && exists t: nat :: t < n && !s.pc[t].StoreNeg? {
      var t: nat :| t < n && !s.pc[t].StoreNeg?;
      if Held(s) {
        t :| Holds(s, t);
      } else if s.pc[t].Asleep? {
        assert IsAsleep(s, t);
        t :| Waker(s, t);
        assert !Holds(s, t);
      }
      var more := OwnStepsAcquire(s, t);
    }
  }

  /** While the lock is not lost, a sleeper always has somebody bound to wake it. */
  lemma SleeperHasWaker(n: nat, sched: seq<Event>, u: nat) returns (t: nat)
    requires !BadStoreIn(Init(n), sched)
    requires IsAsleep(Exec(Init(n), sched), u)
    ensures Waker(Exec(Init(n), sched), t)
  {
    InitInv(n);
    ExecKeepsInv(Init(n), sched);
    t :| Waker(Exec(Init(n), sched), t);
  }

  /** Nothing can happen any more except a new call of lock() or a spurious wake-up. */
  ghost predicate Settled(s: State) {
    forall t: nat :: t < |s.pc| && !s.pc[t].Outside? ==> RunThread(s, t) == s
  }

  /** A settled run has let every caller of lock() and unlock() return exactly when no store
      of -1 found the lock without an owner; otherwise somebody sleeps for ever. */
  lemma SettledRunReturnsIff(n: nat, sched: seq<Event>)
    requires Settled(Exec(Init(n), sched))
    ensures (forall t: nat :: t < n ==> Exec(Init(n), sched).pc[t].Outside?) <==> !BadStoreIn(Init(n), sched)
  {
    InitInv(n);
    ExecKeepsInv(Init(n), sched);
    var s := Exec(Init(n), sched);
    forall t: nat | t < n && !s.pc[t].Outside?
      ensures IsAsleep(s, t)
    {
      assert RunThread(s, t) == s;
      assert RunThread(s, t).pc[t] == s.pc[t];
    }
    if t: nat :| t < n && !s.pc[t].Outside? {
      assert forall w: nat :: !Waker(s, w);
    }
  }

  // ----- Who falls asleep -----

  lemma {:induction false} ExecAppend(s: State, a: seq<Event>, b: seq<Event>)
    ensures Exec(s, a + b) == Exec(Exec(s, a), b)
    decreases |a|
  {
    if a == [] {
      assert a + b == b;
    } else {
      ExecAppend(Step(s, a[0]), a[1..], b);
      assert (a + b)[1..] == a[1..] + b;
    }
  }

  ghost predicate Reaches(s: State, s': State) {
    exists sched :: Exec(s, sched) == s'
  }

  lemma ReachesByStep(s: State, e: Event)
    ensures Reaches(s, Step(s, e))
  {
    assert Exec(s, [e]) == Exec(Step(s, e), []);
  }

  lemma ReachesTransitive(s: State, s': State, s'': State)
    requires Reaches(s, s') && Reaches(s', s'')
    ensures Reaches(s, s'')
  {
    var a :| Exec(s, a) == s';
    var b :| Exec(s', b) == s'';
    ExecAppend(s, a, b);
  }

  lemma {:induction false} WaitsMeanwhile(s: State, t: nat, sched: seq<Event>)
    requires t < |s.pc| && s.pc[t].FutexWait? && Turns(sched, t) == 0
    ensures Exec(s, sched).pc[t].FutexWait?
    decreases |sched|
  {
    if sched == [] {
    } else {
      WaitsMeanwhile(Step(s, sched[0]), t, sched[1..]);
    }
  }

  /** A caller that has executed line 36 is put to sleep by its line 37 exactly when the
      word still is what it stored, whatever the others did between the two. */
  lemma FallsAsleepIff(s: State, t: nat, between: seq<Event>)
    requires t < |s.pc| && s.pc[t].StoreNeg? && Turns(between, t) == 0
    ensures var stored := Step(s, Run(t));
      var s' := Exec(stored, between);
      IsAsleep(Step(s', Run(t)), t) <==> s'.word == stored.word
  {
    WaitsMeanwhile(Step(s, Run(t)), t, between);
  }

  /** Whoever leaves the kernel, woken or for no reason, retries the subtraction at once: its
      next instruction takes the lock exactly if the word is positive. */
  lemma WokenRetries(s: State, e: Event, t: nat)
    requires IsAsleep(s, t) && !IsAsleep(Step(s, e), t)
    ensures AboutToAcquire(Step(s, e), t) <==> s.word > 0
  {
  }

  ghost predicate CanSleep(n: nat) {
    exists sched, t: nat :: IsAsleep(Exec(Init(n), sched), t)
  }

  lemma SecondSleeps(n: nat)
    requires n >= 2
    ensures CanSleep(n)
  {
    var a, b := Run(0), Run(1);
    var s0 := Init(n);
    var s1 := Step(s0, a);
    var s2 := Step(s1, a);
    var s3 := Step(s2, b);
    var s4 := Step(s3, b);
    var s5 := Step(s4, b);
    var s6 := Step(s5, b);
    ReachesByStep(s0, a);
    ReachesByStep(s1, a);
    ReachesByStep(s2, b);
    ReachesByStep(s3, b);
    ReachesByStep(s4, b);
    ReachesByStep(s5, b);
    ReachesTransitive(s0, s1, s2);
    ReachesTransitive(s0, s2, s3);
    ReachesTransitive(s0, s3, s4);
    ReachesTransitive(s0, s4, s5);
    ReachesTransitive(s0, s5, s6);
    assert IsAsleep(s6, 1);
  }

  /** Somebody sleeps in some run exactly when at least two threads use the lock. */
  lemma CanSleepIff(n: nat)
    ensures CanSleep(n) <==> n >= 2
  {
    if n >= 2 {
      SecondSleeps(n);
    } else {
      InitAlone(n);
      forall sched, t: nat
        ensures !IsAsleep(Exec(Init(n), sched), t)
      {
        AloneNeverStores(Init(n), sched);
      }
    }
  }

  /** In a lost lock, t's own steps put it to sleep. */
  lemma {:induction false} OwnStepsSleep(s: State, t: nat) returns (s': State)
    requires Inv(s) && Lost(s) && InLock(s, t)
    ensures Reaches(s, s') && Inv(s') && Lost(s') && s'.pc == s.pc[t := Asleep]
    decreases match s.pc[t]
      case Asleep => 0
      case StoreNeg => 2
      case Fetch => 3
      case _ => if s.word == -1 then 1 else 4
  {
    if s.pc[t].Asleep? {
      s' := s;
      assert Exec(s, []) == s;
      assert s.pc == s.pc[t := Asleep];
    } else {
      var s1 := Step(s, Run(t));
      StepKeepsInv(s, Run(t));
      s' := OwnStepsSleep(s1, t);
      ReachesByStep(s, Run(t));
      ReachesTransitive(s, s1, s');
    }
  }

  /** Threads 0 .. k-1 have nothing to do but sleep or stay outside. */
  predicate QuietUpTo(s: State, k: nat)
    requires k <= |s.pc|
  {
    forall t :: 0 <= t < k ==> s.pc[t].Outside? || s.pc[t].Asleep?
  }

  predicate NobodyWakes(s: State) {
    forall t :: 0 <= t < |s.pc| ==> !s.pc[t].Wake?
  }

  lemma WakeInLost(s: State, t: nat)
    requires Inv(s) && Lost(s) && t < |s.pc| && s.pc[t].Wake?
    ensures Inv(Step(s, Run(t))) && Lost(Step(s, Run(t)))
    ensures forall u: nat :: InLock(s, u) ==> InLock(Step(s, Run(t)), u)
    ensures forall u :: 0 <= u < |s.pc| && !s.pc[u].Wake? ==> !Step(s, Run(t)).pc[u].Wake?
    ensures !Step(s, Run(t)).pc[t].Wake?
  {
    StepKeepsInv(s, Run(t));
  }

  /** The last threads on their way to line 63 of a lost lock return. */
  lemma {:induction false} WakersReturn(s: State, k: nat) returns (s': State)
    requires Inv(s) && Lost(s) && k <= |s.pc| && forall t :: k <= t < |s.pc| ==> !s.pc[t].Wake?
    ensures Reaches(s, s') && Inv(s') && Lost(s') && |s'.pc| == |s.pc| && NobodyWakes(s')
    ensures forall t: nat :: InLock(s, t) ==> InLock(s', t)
    decreases k
  {
    if k == 0 {
      s' := s;
      assert Exec(s, []) == s;
    } else if s.pc[k - 1].Wake? {
      var s1 := Step(s, Run(k - 1));
      WakeInLost(s, k - 1);
      s' := WakersReturn(s1, k - 1);
      ReachesByStep(s, Run(k - 1));
      ReachesTransitive(s, s1, s');
    } else {
      s' := WakersReturn(s, k - 1);
    }
  }

  lemma {:induction false} CallersSleep(s: State, k: nat) returns (s': State)
    requires Inv(s) && Lost(s) && k <= |s.pc| && NobodyWakes(s) && QuietUpTo(s, k)
    ensures Reaches(s, s') && Inv(s') && Lost(s') && |s'.pc| == |s.pc| && QuietUpTo(s', |s.pc|)
    ensures forall t: nat :: InLock(s, t) ==> IsAsleep(s', t)
    decreases |s.pc| - k
  {
    if k == |s.pc| {
      s' := s;
      assert Exec(s, []) == s;
    } else {
      assert !Holds(s, k);
      var s1 := s;
      assert Exec(s, []) == s;
      if !s.pc[k].Outside? {
        s1 := OwnStepsSleep(s, k);
      }
      s' := CallersSleep(s1, k + 1);
      ReachesTransitive(s, s1, s');
      assert forall t: nat :: InLock(s, t) ==> InLock(s1, t);
    }
  }

  /** From every reachable state of a lost lock some continuation ends with all that are in
      lock() asleep, and nothing left to happen but new calls and spurious wake-ups. */
  lemma LostCallersCanSleep(n: nat, sched: seq<Event>) returns (s': State)
    requires Lost(Exec(Init(n), sched))
    ensures Reaches(Exec(Init(n), sched), s') && Lost(s') && Settled(s')
    ensures forall t: nat :: InLock(Exec(Init(n), sched), t) ==> IsAsleep(s', t)
  {
    InitInv(n);
    ExecKeepsInv(Init(n), sched);
    var s := Exec(Init(n), sched);
    var s1 := WakersReturn(s, n);
    s' := CallersSleep(s1, 0);
    ReachesTransitive(s, s1, s');
  }

  ghost predicate CanHang(n: nat) {
    exists sched, t: nat :: Settled(Exec(Init(n), sched)) && IsAsleep(Exec(Init(n), sched), t)
  }

  /** A run can end with sleepers that nobody is going to wake exactly when at least two
      threads use the lock. */
  lemma CanHangIff(n: nat)
    ensures CanHang(n) <==> n >= 2
  {
    CanSleepIff(n);
    if n >= 2 {
      var bad := BadStoreHappens(n);
      LostIffBadStore(n, bad);
      InitInv(n);
      ExecKeepsInv(Init(n), bad);
      var t: nat :| InLock(Exec(Init(n), bad), t);
      var s' := LostCallersCanSleep(n, bad);
      assert Reaches(Init(n), Exec(Init(n), bad));
      ReachesTransitive(Init(n), Exec(Init(n), bad), s');
      var sched :| Exec(Init(n), sched) == s';
      assert IsAsleep(s', t);
    }
  }

  /** What Settled leaves possible: a new call, or a spurious wake-up of a sleeper. */
  lemma SettledMovesIff(s: State, e: Event)
    requires Settled(s)
    ensures Step(s, e) != s <==> e.thread < |s.pc| && if e.Run? then s.pc[e.thread].Outside? else s.pc[e.thread].Asleep?
  {
    if e.thread < |s.pc| {
      assert Step(s, e).pc[e.thread] != s.pc[e.thread] ==> Step(s, e) != s;
    }
  }

  /** Without contention a call of lock() and one of unlock() leave no trace, and need three
      instructions: no system call. */
  lemma UncontendedRoundTrip(s: State, t: nat)
    requires s.word == UNLOCKED && t < |s.pc| && s.pc[t].Outside?
    ensures Holds(Exec(s, [Run(t)] + [Run(t)]), t)
    ensures Exec(s, [Run(t)] + [Run(t)] + [Run(t)]) == s
  {
    var e := Run(t);
    var s1 := Step(s, e);
    var s2 := Step(s1, e);
    ExecAppend(s, [e], [e]);
    ExecAppend(s, [e] + [e], [e]);
    assert Exec(s, [e]) == Exec(s1, []) && Exec(s1, [e]) == Exec(s2, []);
    assert Exec(s2, [e]) == Exec(Step(s2, e), []);
    assert Step(s2, e).pc == s.pc;
  }

  /** Own steps a waker still needs to have executed the wake-up. */
  function WakeDistance(pc: PC): nat {
    match pc
    case Critical => 3
    case StoreOne => 2
    case Wake => 1
    case _ => 0
  }

  function Turns(sched: seq<Event>, t: nat): nat {
    if sched == [] then 0 else (if sched[0] == Run(t) then 1 else 0) + Turns(sched[1..], t)
  }

  /** Bound to wake: in every continuation that gives the waker its remaining turns,
      however the others interleave, there is a moment at which nobody is asleep. */
  lemma {:induction false} WakeIsBound(s: State, t: nat, sched: seq<Event>) returns (k: nat)
    requires Inv(s) && Waker(s, t)
    requires Turns(sched, t) >= WakeDistance(s.pc[t])
    ensures k <= |sched|
    ensures forall u: nat :: !IsAsleep(Exec(s, sched[..k]), u)
    decreases |sched|
  {
    var e := sched[0];
    var s' := Step(s, e);
    StepKeepsInv(s, e);
    if e == Run(t) && s.pc[t].Wake? {
      k := 1;
      assert sched[..1] == [e];
      assert Exec(s, [e]) == Exec(s', []);
    } else {
      assert Holds(s, e.thread) ==> Held(s);
      assert s.pc[t].Critical? ==> Holds(s, t);
      assert Waker(s', t);
      var k' := WakeIsBound(s', t, sched[1..]);
      k := k' + 1;
      assert sched[..k][0] == e && sched[..k][1..] == sched[1..][..k'];
    }
  }

  // ----- Refinement of the abstract lock -----

  /** What an event does to the lock as its callers see it, read off the instruction. */
  function OpOf(s: State, e: Event): Op {
    if e.Spurious? || e.thread >= |s.pc| then Internal
    else match s.pc[e.thread]
      case Fetch => if s.word - 1 < 0 then Internal else Acquire(e.thread)
      case Critical => if s.word + 1 == 1 then Release(e.thread) else Internal
      case StoreOne => Release(e.thread)
      case _ => Internal
  }

  function Trace(s: State, sched: seq<Event>): seq<Op>
    decreases |sched|
  {
    if sched == [] then [] else [OpOf(s, sched[0])] + Trace(Step(s, sched[0]), sched[1..])
  }

  ghost predicate Represents(s: State, o: Owner) {
    match o
    case Free => !Held(s)
    case HeldBy(t) => Holds(s, t) && forall u: nat :: Holds(s, u) ==> u == t
  }

  lemma StepRefines(s: State, e: Event, o: Owner)
    requires Inv(s) && Represents(s, o)
    ensures Allowed(o, OpOf(s, e))
    ensures Represents(Step(s, e), Next(o, OpOf(s, e)))
  {
    var s' := Step(s, e);
    var t := e.thread;
    StepKeepsInv(s, e);
    assert forall u: nat :: u != t ==> (Holds(s', u) <==> Holds(s, u));
    assert Holds(s, t) ==> Held(s);
    assert forall u: nat :: Holds(s', u) ==> Held(s');
  }

  lemma {:induction false} RunRefines(s: State, sched: seq<Event>, o: Owner)
    requires Inv(s) && Represents(s, o)
    ensures Legal(o, Trace(s, sched))
    ensures Represents(Exec(s, sched), After(o, Trace(s, sched)))
    decreases |sched|
  {
    if sched == [] {
    } else {
      StepRefines(s, sched[0], o);
      StepKeepsInv(s, sched[0]);
      RunRefines(Step(s, sched[0]), sched[1..], Next(o, OpOf(s, sched[0])));
      assert Trace(s, sched)[1..] == Trace(Step(s, sched[0]), sched[1..]);
    }
  }

  /** Every run of the sleep lock is a run of the abstract lock. */
  lemma RefinesAbstractLock(n: nat, sched: seq<Event>)
    ensures Legal(Free, Trace(Init(n), sched))
    ensures Represents(Exec(Init(n), sched), After(Free, Trace(Init(n), sched)))
  {
    InitInv(n);
    RunRefines(Init(n), sched, Free);
  }

  // ----- The code, updating the shared word in place -----

  class Futex {
    var word: int
    var pc: seq<PC>

    ghost function View(): State
      reads this
    {
      State(word, pc)
    }

    constructor (n: nat)
      ensures View() == Init(n)
    {
      word := UNLOCKED;
      pc := seq(n, _ => Outside);
    }

    /** One instruction of lock() or unlock() in thread t. */
    method Instruction(t: nat)
      requires t < |pc|
      modifies this
      ensures View() == RunThread(old(View()), t)
    {
      var s32ret;
      match pc[t] {
        case Outside =>
          pc := pc[t := Fetch];
        case Fetch =>
          word := word - 1;
          s32ret := word;
          if s32ret < 0 {
            pc := pc[t := StoreNeg];
          } else {
            pc := pc[t := Critical];
          }
        case StoreNeg =>
          word := -1;
          pc := pc[t := FutexWait];
        case FutexWait =>
          if word == -1 {
            pc := pc[t := Asleep];
          } else {
            pc := pc[t := Fetch];
          }
        case Asleep =>
        case Critical =>
          word := word + 1;
          s32ret := word;
          if 1 != s32ret {
            pc := pc[t := StoreOne];
          } else {
            pc := pc[t := Outside];
          }
        case StoreOne =>
          word := 1;
          pc := pc[t := Wake];
        case Wake =>
          WakeSleepers();
          pc := pc[t := Outside];
      }
    }

    method WakeSleepers()
      modifies this`pc
      ensures pc == WakeAll(old(pc))
    {
      var i := 0;
      while i < |pc|
        invariant i <= |pc| == |old(pc)|
        invariant forall j :: 0 <= j < i ==> pc[j] == WakeAll(old(pc))[j]
        invariant forall j :: i <= j < |pc| ==> pc[j] == old(pc)[j]
      {
        if pc[i].Asleep? {
          pc := pc[i := Fetch];
        }
        i := i + 1;
      }
    }

    /** Runs a whole schedule; from a fresh lock two threads never hold it together. */
    method RunSchedule(sched: seq<Event>)
      modifies this
      ensures View() == Exec(old(View()), sched)
      ensures old(Inv(View()) && InRange(View())) ==>
        forall t: nat, u: nat :: Holds(View(), t) && Holds(View(), u) ==> t == u
    {
      var i := 0;
      while i < |sched|
        invariant i <= |sched|
        invariant Exec(old(View()), sched) == Exec(View(), sched[i..])
      {
        match sched[i] {
          case Run(t) =>
            if t < |pc| { Instruction(t); }
          case Spurious(t) =>
            if t < |pc| && pc[t].Asleep? { pc := pc[t := Fetch]; }
        }
        i := i + 1;
      }
      if old(Inv(View()) && InRange(View())) {
        ExecKeepsInv(old(View()), sched);
      }
    }
  }
}
