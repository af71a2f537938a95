/** The condition-variable barrier of work_fxn. The mutex may be taken by any thread that
    finds it free; a release wakes one thread blocked on it, chosen arbitrarily; a thread
    blocked on the condition variable may wake up spuriously. */
module SleepBarrier {
  import opened AbstractLock
  import opened ThreadSets

  datatype PC =
    | LockIt    // line 176: about to lock the mutex
    | Blocked   // line 176: blocked on the mutex
    | Decrement // line 177
    | Check     // line 178
    | Broadcast // line 180
    | Test      // line 184, and the call of pthread_cond_wait
    | Waiting   // line 186: blocked on the condition variable
    | Relock    // line 186: woken, about to lock the mutex again
    | Reblocked // line 186: woken, blocked on the mutex
    | Unlock    // line 189
    | Passed    // past the barrier

  datatype State = State(remain: int, owner: Owner, pc: seq<PC>)

  /** wake is the thread a release wakes, if some thread is blocked on the mutex. */
  datatype Event = Run(thread: nat, wake: nat) | Spurious(thread: nat)

  function Init(n: nat): State {
    State(n, Free, seq(n, _ => LockIt))
  }

  predicate OnMutex(pc: PC) {
    pc.Blocked? || pc.Reblocked?
  }

  predicate NobodyOnMutex(pc: seq<PC>) {
    forall i :: 0 <= i < |pc| ==> !OnMutex(pc[i])
  }

  function Woken(pc: PC): PC {
    match pc
    case Blocked => LockIt
    case Reblocked => Relock
    case _ => pc
  }

  /** pthread_cond_broadcast: every waiter goes on to lock the mutex again. */
  function Signalled(pc: seq<PC>): (r: seq<PC>)
    ensures |r| == |pc|
    ensures forall i :: 0 <= i < |pc| ==> r[i] == if pc[i].Waiting? then Relock else pc[i]
  {
    seq(|pc|, i requires 0 <= i < |pc| => if pc[i].Waiting? then Relock else pc[i])
  }

  /** t releases the mutex and goes to next. Without a valid choice of a thread to wake,
      nothing happens. */
  function ReleaseBy(s: State, t: nat, next: PC, wake: nat): (s': State)
    requires t < |s.pc|
    ensures |s'.pc| == |s.pc|
  {
    if wake < |s.pc| && OnMutex(s.pc[wake]) then
      s.(owner := Free, pc := s.pc[t := next][wake := Woken(s.pc[wake])])
    else if NobodyOnMutex(s.pc) then s.(owner := Free, pc := s.pc[t := next])
    else s
  }

  function Run1(s: State, t: nat, wake: nat): (s': State)
    requires t < |s.pc|
    ensures |s'.pc| == |s.pc|
  {
    match s.pc[t]
    case LockIt =>
      if s.owner.Free? then s.(owner := HeldBy(t), pc := s.pc[t := Decrement])
      else s.(pc := s.pc[t := Blocked])
    case Decrement => s.(remain := s.remain - 1, pc := s.pc[t := Check])
    case Check => s.(pc := s.pc[t := if s.remain == 0 then Broadcast else Test])
    case Broadcast => s.(pc := Signalled(s.pc)[t := Unlock])
    case Test => if s.remain != 0 then ReleaseBy(s, t, Waiting, wake) else s.(pc := s.pc[t := Unlock])
    case Relock =>
      if s.owner.Free? then s.(owner := HeldBy(t), pc := s.pc[t := Test])
      else s.(pc := s.pc[t := Reblocked])
    case Unlock => ReleaseBy(s, t, Passed, wake)
    case _ => s
  }

  function Step(s: State, e: Event): (s': State)
    ensures |s'.pc| == |s.pc|
  {
    if e.thread >= |s.pc| then s
    else match e
      case Run(t, wake) => Run1(s, t, wake)
      case Spurious(t) => if s.pc[t].Waiting? then s.(pc := s.pc[t := Relock]) else s
  }

  function Exec(s: State, sched: seq<Event>): (s': State)
    ensures |s'.pc| == |s.pc|
    decreases |sched|
  {
    if sched == [] then s else Exec(Step(s, sched[0]), sched[1..])
  }

  // ----- Invariant -----

  predicate HasMutex(pc: PC) {
    pc.Decrement? || pc.Check? || pc.Broadcast? || pc.Test? || pc.Unlock?
  }

  predicate NotCounted(pc: PC) {
    pc.LockIt? || pc.Blocked? || pc.Decrement?
  }

  /** The threads that have not executed line 177 yet. */
  ghost function Before(s: State): set<nat> {
    set t: nat | t < |s.pc| && NotCounted(s.pc[t])
  }

  predicate At(s: State, t: nat, a: PC, b: PC) {
    t < |s.pc| && (s.pc[t] == a || s.pc[t] == b)
  }

  ghost predicate Inv(s: State, n: nat) {
    && |s.pc| == n
    && (forall t: nat :: t < n ==> (HasMutex(s.pc[t]) <==> s.owner == HeldBy(t)))
    && (s.owner.HeldBy? ==> s.owner.thread < n)
    && s.remain == |Before(s)|
    && (forall t: nat :: At(s, t, Unlock, Passed) || At(s, t, Broadcast, Broadcast) ==> s.remain == 0)
    && (s.remain == 0 && (exists t: nat :: At(s, t, Waiting, Waiting)) ==> exists t: nat :: At(s, t, Check, Broadcast))
    && (s.owner.Free? && (exists t: nat :: At(s, t, Blocked, Reblocked)) ==> exists t: nat :: At(s, t, LockIt, Relock))
  }

  lemma InitRemain(n: nat)
    ensures |Before(Init(n))| == n
  {
    assert Before(Init(n)) == Threads(n);
    ThreadsSize(n);
  }

  lemma InitInv(n: nat)
    ensures Inv(Init(n), n)
  {
    InitRemain(n);
  }

  /** Only line 177 takes a thread out of Before. */
  lemma StepKeepsCounted(s: State, e: Event, u: nat)
    requires u < |s.pc|
    requires !(e.Run? && e.thread == u && s.pc[u].Decrement?)
    ensures NotCounted(Step(s, e).pc[u]) <==> NotCounted(s.pc[u])
  {
  }

  lemma StepCountsRemain(s: State, e: Event, n: nat)
    requires |s.pc| == n && s.remain == |Before(s)|
    ensures Step(s, e).remain == |Before(Step(s, e))|
  {
    var s' := Step(s, e);
    var t := e.thread;
    var counting := e.Run? && t < n && s.pc[t].Decrement?;
    forall u: nat | u < n && !(counting && u == t)
      ensures NotCounted(s'.pc[u]) <==> NotCounted(s.pc[u])
    {
      StepKeepsCounted(s, e, u);
    }
    if counting {
      assert Before(s') == Before(s) - {t};
    } else {
      assert Before(s') == Before(s);
      assert s'.remain == s.remain;
    }
  }

  lemma StepKeepsMutex(s: State, e: Event, n: nat)
    requires Inv(s, n)
    ensures var s' := Step(s, e);
      && |s'.pc| == n
      && (forall t: nat :: t < n ==> (HasMutex(s'.pc[t]) <==> s'.owner == HeldBy(t)))
      && (s'.owner.HeldBy? ==> s'.owner.thread < n)
  {
  }

  /** Once the count is zero it stays zero, and only then does anybody pass. */
  lemma StepKeepsPassing(s: State, e: Event, n: nat)
    requires Inv(s, n)
    ensures var s' := Step(s, e);
      forall t: nat :: At(s', t, Unlock, Passed) || At(s', t, Broadcast, Broadcast) ==> s'.remain == 0
  {
    var s' := Step(s, e);
    var t := e.thread;
    assert t < n && s.pc[t].Decrement? ==> t in Before(s);
    if u: nat :| At(s', u, Unlock, Passed) || At(s', u, Broadcast, Broadcast) {
      if u != t {
        assert At(s, u, Unlock, Passed) || At(s, u, Broadcast, Broadcast);
      } else {
        assert At(s, t, Unlock, Passed) || At(s, t, Broadcast, Broadcast) || s.remain == 0;
      }
      assert s.remain == 0;
      StepCountsRemain(s, e, n);
    }
  }

  lemma StepKeepsPendingBroadcast(s: State, e: Event, n: nat)
    requires Inv(s, n)
    requires Step(s, e).remain == 0 && exists t: nat :: At(Step(s, e), t, Waiting, Waiting)
    ensures exists t: nat :: At(Step(s, e), t, Check, Broadcast)
  {
    var s' := Step(s, e);
    var t := e.thread;
    var u: nat :| At(s', u, Waiting, Waiting);
    assert At(s, u, Waiting, Waiting);
    if e.Run? && t < n && s.pc[t].Decrement? {
      assert At(s', t, Check, Broadcast);
    } else {
      var b: nat :| At(s, b, Check, Broadcast);
      assert At(s', b, Check, Broadcast);
    }
  }

  lemma StepKeepsLocker(s: State, e: Event, n: nat)
    requires Inv(s, n)
    requires Step(s, e).owner.Free? && exists t: nat :: At(Step(s, e), t, Blocked, Reblocked)
    ensures exists t: nat :: At(Step(s, e), t, LockIt, Relock)
  {
    var s' := Step(s, e);
    var u: nat :| At(s', u, Blocked, Reblocked);
    if s.owner.Free? {
      assert At(s, u, Blocked, Reblocked);
      var l: nat :| At(s, l, LockIt, Relock);
      assert At(s', l, LockIt, Relock);
    } else {
      assert OnMutex(s.pc[u]);
      assert At(s', e.wake, LockIt, Relock);
    }
  }

  lemma StepKeepsInv(s: State, e: Event, n: nat)
    requires Inv(s, n)
    ensures Inv(Step(s, e), n)
  {
    StepKeepsMutex(s, e, n);
    StepCountsRemain(s, e, n);
    StepKeepsPassing(s, e, n);
    var s' := Step(s, e);
    if s'.remain == 0 && exists t: nat :: At(s', t, Waiting, Waiting) { StepKeepsPendingBroadcast(s, e, n); }
    if s'.owner.Free? && exists t: nat :: At(s', t, Blocked, Reblocked) { StepKeepsLocker(s, e, n); }
  }

  lemma {:induction false} ExecKeepsInv(s: State, sched: seq<Event>, n: nat)
    requires Inv(s, n)
    ensures Inv(Exec(s, sched), n)
    decreases |sched|
  {
    if sched == [] {
    } else {
      StepKeepsInv(s, sched[0], n);
      ExecKeepsInv(Step(s, sched[0]), sched[1..], n);
    }
  }

  lemma PassedStays(s: State, e: Event, u: nat)
    requires u < |s.pc| && s.pc[u].Passed?
    ensures Step(s, e).pc[u].Passed?
  {
  }

  /** No thread is past the wait before all n have decremented, spurious wake-ups or not. */
  lemma NobodyPassesEarly(n: nat, sched: seq<Event>, t: nat, u: nat)
    requires t < n && u < n
    ensures var s := Exec(Init(n), sched);
      s.pc[t].Unlock? || s.pc[t].Passed? ==> !NotCounted(s.pc[u])
  {
    InitInv(n);
    ExecKeepsInv(Init(n), sched, n);
    var s := Exec(Init(n), sched);
    if At(s, t, Unlock, Passed) {
      assert u !in Before(s);
    }
  }

  /** After the last decrement, whoever still waits has a broadcast coming. */
  lemma WaiterHasPendingBroadcast(n: nat, sched: seq<Event>, u: nat) returns (t: nat)
    requires var s := Exec(Init(n), sched); s.remain == 0 && At(s, u, Waiting, Waiting)
    ensures At(Exec(Init(n), sched), t, Check, Broadcast)
  {
    InitInv(n);
    ExecKeepsInv(Init(n), sched, n);
    t :| At(Exec(Init(n), sched), t, Check, Broadcast);
  }

  // ----- Termination -----

  /** An upper bound on the steps still ahead of a thread, and of those it wakes. */
  function Rank(pc: PC, n: nat): nat {
    match pc
    case LockIt => 8 + 5 * n
    case Blocked => 7 + 5 * n
    case Decrement => 6 + 5 * n
    case Check => 5 + 5 * n
    case Broadcast => 4 + 5 * n
    case Relock => 6
    case Reblocked => 5
    case Test => 4
    case Unlock => 3
    case Waiting => 1
    case Passed => 0
  }

  function Measure(pc: seq<PC>, n: nat): nat {
    if pc == [] then 0 else Rank(pc[0], n) + Measure(pc[1..], n)
  }

  lemma {:induction false} MeasureUpdate(pc: seq<PC>, t: nat, next: PC, n: nat)
    requires t < |pc|
    ensures Measure(pc[t := next], n) == Measure(pc, n) - Rank(pc[t], n) + Rank(next, n)
  {
    if t == 0 {
      assert pc[t := next][1..] == pc[1..];
    } else {
      assert pc[t := next][1..] == pc[1..][t - 1 := next];
      MeasureUpdate(pc[1..], t - 1, next, n);
    }
  }

  lemma {:induction false} MeasureSignalled(pc: seq<PC>, n: nat)
    ensures Measure(Signalled(pc), n) <= Measure(pc, n) + 5 * |pc|
  {
    if pc == [] {
    } else {
      assert Signalled(pc)[1..] == Signalled(pc[1..]);
      MeasureSignalled(pc[1..], n);
    }
  }

  lemma BroadcastDecreases(s: State, t: nat, wake: nat)
    requires t < |s.pc| && s.pc[t].Broadcast?
    ensures Measure(Run1(s, t, wake).pc, |s.pc|) < Measure(s.pc, |s.pc|)
  {
    MeasureSignalled(s.pc, |s.pc|);
    MeasureUpdate(Signalled(s.pc), t, Unlock, |s.pc|);
  }

  /** A release pays for the thread it wakes. */
  lemma ReleaseDecreases(s: State, t: nat, next: PC, wake: nat)
    requires t < |s.pc| && !OnMutex(s.pc[t])
    requires Rank(next, |s.pc|) + 2 <= Rank(s.pc[t], |s.pc|)
    requires ReleaseBy(s, t, next, wake) != s
    ensures Measure(ReleaseBy(s, t, next, wake).pc, |s.pc|) < Measure(s.pc, |s.pc|)
  {
    MeasureUpdate(s.pc, t, next, |s.pc|);
    if wake < |s.pc| && OnMutex(s.pc[wake]) {
      MeasureUpdate(s.pc[t := next], wake, Woken(s.pc[wake]), |s.pc|);
    }
  }

  predicate Releases(s: State, t: nat)
    requires t < |s.pc|
  {
    (s.pc[t].Test? && s.remain != 0) || s.pc[t].Unlock?
  }

  lemma OwnStepDecreases(s: State, t: nat, wake: nat)
    requires t < |s.pc| && Run1(s, t, wake) != s
    requires !s.pc[t].Broadcast? && !Releases(s, t)
    ensures Measure(Run1(s, t, wake).pc, |s.pc|) < Measure(s.pc, |s.pc|)
  {
    MeasureUpdate(s.pc, t, Run1(s, t, wake).pc[t], |s.pc|);
  }

  /** Every step that changes anything decreases the measure. */
  lemma RunDecreases(s: State, t: nat, wake: nat)
    requires t < |s.pc| && Run1(s, t, wake) != s
    ensures Measure(Run1(s, t, wake).pc, |s.pc|) < Measure(s.pc, |s.pc|)
  {
    if s.pc[t].Broadcast? {
      BroadcastDecreases(s, t, wake);
    } else if Releases(s, t) {
      ReleaseDecreases(s, t, if s.pc[t].Unlock? then Passed else Waiting, wake);
    } else {
      OwnStepDecreases(s, t, wake);
    }
  }

  lemma {:induction false} InitMeasure(n: nat, k: nat)
    ensures Measure(seq(k, _ => LockIt), n) == k * (8 + 5 * n)
  {
    if k == 0 {
    } else {
      assert seq(k, _ => LockIt)[1..] == seq(k - 1, _ => LockIt);
      InitMeasure(n, k - 1);
    }
  }

  function Moves(s: State, sched: seq<Event>): nat
    decreases |sched|
  {
    if sched == [] then 0
    else (if sched[0].Run? && Step(s, sched[0]) != s then 1 else 0) + Moves(Step(s, sched[0]), sched[1..])
  }

  function Spuriouses(sched: seq<Event>): nat {
    if sched == [] then 0 else (if sched[0].Spurious? then 1 else 0) + Spuriouses(sched[1..])
  }

  lemma {:induction false} MovesBounded(s: State, sched: seq<Event>)
    ensures Moves(s, sched) <= Measure(s.pc, |s.pc|) + 5 * Spuriouses(sched)
    decreases |sched|
  {
    if sched == [] {
    } else {
      var e := sched[0];
      MovesBounded(Step(s, e), sched[1..]);
      if e.thread < |s.pc| {
        if e.Run? && Step(s, e) != s {
          RunDecreases(s, e.thread, e.wake);
        } else if e.Spurious? {
          MeasureUpdate(s.pc, e.thread, Relock, |s.pc|);
        }
      }
    }
  }

  /** Every run is finite: at most n(8+5n) effective steps, plus 5 per spurious wake-up. */
  lemma RunsAreFinite(n: nat, sched: seq<Event>)
    ensures Moves(Init(n), sched) <= n * (8 + 5 * n) + 5 * Spuriouses(sched)
  {
    MovesBounded(Init(n), sched);
    InitMeasure(n, n);
  }

  predicate Runnable(pc: PC) {
    !OnMutex(pc) && !pc.Waiting? && !pc.Passed?
  }

  /** A runnable thread really has a step to take. */
  lemma RunnableMoves(s: State, t: nat, n: nat) returns (wake: nat)
    requires Inv(s, n) && t < n && Runnable(s.pc[t])
    ensures Run1(s, t, wake) != s
  {
    wake := 0;
    if !NobodyOnMutex(s.pc) {
      wake :| wake < |s.pc| && OnMutex(s.pc[wake]);
    }
    assert wake != t ==> Run1(s, t, wake).pc[t] != s.pc[t];
    assert wake == t ==> NobodyOnMutex(s.pc);
    assert Run1(s, t, wake).pc[t] != s.pc[t];
  }

  /** A waiter that wakes up for no reason before the last decrement finds the test
      unchanged and waits again; a free barrier is then as it was. */
  lemma SpuriousRoundTrip(s: State, t: nat, wake: nat)
    requires At(s, t, Waiting, Waiting) && s.remain != 0 && s.owner.Free? && NobodyOnMutex(s.pc)
    ensures Step(s, Spurious(t)) != s
    ensures Step(Step(Step(s, Spurious(t)), Run(t, wake)), Run(t, wake)) == s
  {
    var s1 := Step(s, Spurious(t));
    assert s1.pc[t].Relock?;
    var s2 := Step(s1, Run(t, wake));
    assert NobodyOnMutex(s2.pc);
    assert s2.pc[t := Waiting] == s.pc;
  }

  /** While a thread has not passed, some thread is runnable. */
  lemma SomebodyRunnable(s: State, n: nat, t: nat) returns (u: nat)
    requires Inv(s, n) && t < n && !s.pc[t].Passed?
    ensures u < n && Runnable(s.pc[u])
  {
    if Runnable(s.pc[t]) {
      u := t;
    } else if s.owner.HeldBy? {
      u := s.owner.thread;
      assert HasMutex(s.pc[u]);
    } else if w: nat :| At(s, w, Blocked, Reblocked) {
      u :| At(s, u, LockIt, Relock);
    } else {
      assert !At(s, t, Blocked, Reblocked);
      assert At(s, t, Waiting, Waiting);
      assert s.remain != 0;
      assert Before(s) != {};
      u :| u in Before(s);
      assert !At(s, u, Blocked, Reblocked);
    }
  }

  ghost predicate NoMoves(s: State) {
    forall u: nat, wake: nat :: u < |s.pc| ==> Run1(s, u, wake) == s
  }

  /** Maximal runs, and only those, have all n threads past the barrier. */
  lemma MaximalRunPassesAll(n: nat, sched: seq<Event>)
    ensures var s := Exec(Init(n), sched);
      NoMoves(s) <==> forall t: nat :: t < n ==> s.pc[t].Passed?
  {
    InitInv(n);
    ExecKeepsInv(Init(n), sched, n);
    var s := Exec(Init(n), sched);
    if t: nat :| t < n && !s.pc[t].Passed? {
      var u := SomebodyRunnable(s, n, t);
      var wake := RunnableMoves(s, u, n);
    }
  }

  lemma {:induction false} CanPass(s: State, n: nat) returns (sched: seq<Event>)
    requires Inv(s, n)
    ensures forall t: nat :: t < n ==> Exec(s, sched).pc[t].Passed?
    decreases Measure(s.pc, n)
  {
    if t: nat :| t < n && !s.pc[t].Passed? {
      var u := SomebodyRunnable(s, n, t);
      var wake := RunnableMoves(s, u, n);
      var e := Run(u, wake);
      StepKeepsInv(s, e, n);
      RunDecreases(s, u, e.wake);
      var rest := CanPass(Step(s, e), n);
      sched := [e] + rest;
      assert sched[1..] == rest;
    } else {
      sched := [];
    }
  }

  /** Every run can be continued until all n threads are past the barrier. */
  lemma EveryRunCanPass(n: nat, sched: seq<Event>) returns (more: seq<Event>)
    ensures forall t: nat :: t < n ==> Exec(Exec(Init(n), sched), more).pc[t].Passed?
  {
    InitInv(n);
    ExecKeepsInv(Init(n), sched, n);
    more := CanPass(Exec(Init(n), sched), n);
  }

  // ----- The code -----

  class Barrier {
    var remain: int
    var owner: Owner
    var pc: seq<PC>

    ghost function View(): State
      reads this
    {
      State(remain, owner, pc)
    }

    constructor (n: nat)
      ensures View() == Init(n)
    {
      remain, owner := n, Free;
      pc := seq(n, _ => LockIt);
    }

    /** The end of pthread_mutex_unlock, and of the release inside pthread_cond_wait. */
    method ReleaseMutex(t: nat, next: PC, wake: nat)
      requires t < |pc|
      modifies this
      ensures View() == ReleaseBy(old(View()), t, next, wake)
    {
      if wake < |pc| && OnMutex(pc[wake]) {
        owner, pc := Free, pc[t := next][wake := Woken(pc[wake])];
      } else if NobodyOnMutex(pc) {
        owner, pc := Free, pc[t := next];
      }
    }

    method Signal()
      modifies this`pc
      ensures pc == Signalled(old(pc))
    {
      var i := 0;
      while i < |pc|
        invariant i <= |pc| == |old(pc)|
        invariant forall j :: 0 <= j < i ==> pc[j] == Signalled(old(pc))[j]
        invariant forall j :: i <= j < |pc| ==> pc[j] == old(pc)[j]
      {
        if pc[i].Waiting? {
          pc := pc[i := Relock];
        }
        i := i + 1;
      }
    }

    method Instruction(t: nat, wake: nat)
      requires t < |pc|
      modifies this
      ensures View() == Run1(old(View()), t, wake)
    {
      match pc[t] {
        case LockIt =>
          if owner.Free? {
            owner := HeldBy(t);
            pc := pc[t := Decrement];
          } else {
            pc := pc[t := Blocked];
          }
        case Decrement =>
          remain := remain - 1;
          pc := pc[t := Check];
        case Check =>
          if 0 == remain {
            pc := pc[t := Broadcast];
          } else {
            pc := pc[t := Test];
          }
        case Broadcast =>
          Signal();
          pc := pc[t := Unlock];
        case Test =>
          if 0 != remain {
            ReleaseMutex(t, Waiting, wake);
          } else {
            pc := pc[t := Unlock];
          }
        case Relock =>
          if owner.Free? {
            owner := HeldBy(t);
            pc := pc[t := Test];
          } else {
            pc := pc[t := Reblocked];
          }
        case Unlock =>
          ReleaseMutex(t, Passed, wake);
        case _ =>
      }
    }
  }
}
