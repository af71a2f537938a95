/** The counter both repaired modules implement: an increment is one indivisible event. */
module AbstractCounter {
  import opened Sums

  datatype State = State(value: int, done: seq<nat>)

  function Init(n: nat): State {
    State(0, seq(n, _ => 0))
  }

  /** One abstract step: thread t, not yet finished, adds one. */
  predicate Increment(a: State, a': State, t: nat, m: nat) {
    t < |a.done| && a.done[t] < m && a' == State(a.value + 1, a.done[t := a.done[t] + 1])
  }

  ghost predicate Next(a: State, a': State, m: nat) {
    a' == a || exists t: nat :: Increment(a, a', t, m)
  }

  /** The value accounts exactly for the completed increments. */
  predicate Exact(a: State, n: nat, m: nat) {
    && |a.done| == n
    && a.value == Sum(a.done)
    && forall t :: 0 <= t < n ==> a.done[t] <= m
  }

  lemma InitExact(n: nat, m: nat)
    ensures Exact(Init(n), n, m)
  {
    SumConstant(Init(n).done, 0);
  }

  lemma NextKeepsExact(a: State, a': State, n: nat, m: nat)
    requires Exact(a, n, m) && Next(a, a', m)
    ensures Exact(a', n, m)
  {
    if a' != a {
      var t: nat :| Increment(a, a', t, m);
      SumUpdate(a.done, t, a.done[t] + 1);
    }
  }

  lemma ExactWhenFinished(a: State, n: nat, m: nat)
    requires Exact(a, n, m)
    ensures 0 <= a.value <= n * m
    ensures (forall t :: 0 <= t < n ==> a.done[t] == m) <==> a.value == n * m
  {
    SumAtMost(a.done, m);
    var full: seq<nat> := seq(n, _ => m);
    SumConstant(full, m);
    SumPointwise(a.done, full);
    if forall t :: 0 <= t < n ==> a.done[t] == m {
      assert a.done == full;
    }
  }
}

/** N threads, M rounds of lock, load, store, unlock. The kernel mutex is the abstract lock. */
module MutexCounter {
  import opened AbstractLock
  import A = AbstractCounter

  datatype PC = LockIt | Load | Store | Unlock

  /** reg is the register of race++. */
  datatype Thread = Thread(pc: PC, reg: int)

  /** done[t] counts stores; thread t leaves its loop after m of them. */
  datatype State = State(race: int, owner: Owner, threads: seq<Thread>, done: seq<nat>)

  function Init(n: nat): State {
    State(0, Free, seq(n, _ => Thread(LockIt, 0)), seq(n, _ => 0))
  }

  /** Thread t executes its next step; it waits while another thread owns the mutex. */
  function Step(s: State, t: nat, m: nat): State {
    if t >= |s.threads| || t >= |s.done| then s
    else
      var me := s.threads[t];
      match me.pc
      case LockIt =>
        if s.done[t] < m && s.owner.Free?
        then s.(owner := HeldBy(t), threads := s.threads[t := me.(pc := Load)])
        else s
      case Load => s.(threads := s.threads[t := Thread(Store, s.race)])
      case Store =>
        s.(race := me.reg + 1, threads := s.threads[t := me.(pc := Unlock)],
           done := s.done[t := s.done[t] + 1])
      case Unlock => s.(owner := Free, threads := s.threads[t := me.(pc := LockIt)])
  }

  function Exec(s: State, sched: seq<nat>, m: nat): State
    decreases |sched|
  {
    if sched == [] then s else Exec(Step(s, sched[0], m), sched[1..], m)
  }

  function Abs(s: State): A.State {
    A.State(s.race, s.done)
  }

  ghost predicate Inv(s: State, n: nat, m: nat) {
    && |s.threads| == |s.done| == n
    && A.Exact(Abs(s), n, m)
    && (forall t :: 0 <= t < n ==> (!s.threads[t].pc.LockIt? <==> s.owner == HeldBy(t)))
    && (s.owner.HeldBy? ==> s.owner.thread < n)
    && (forall t :: 0 <= t < n && (s.threads[t].pc.Load? || s.threads[t].pc.Store?) ==> s.done[t] < m)
    && (forall t :: 0 <= t < n && s.threads[t].pc.Store? ==> s.threads[t].reg == s.race)
  }

  /** Every instruction is an abstract increment or invisible. */
  lemma StepRefines(s: State, t: nat, n: nat, m: nat)
    requires Inv(s, n, m)
    ensures A.Next(Abs(s), Abs(Step(s, t, m)), m)
    ensures Inv(Step(s, t, m), n, m)
  {
    var s' := Step(s, t, m);
    if t < n && s.threads[t].pc.Store? {
      assert A.Increment(Abs(s), Abs(s'), t, m);
    }
    A.NextKeepsExact(Abs(s), Abs(s'), n, m);
  }

  lemma {:induction false} ExecKeepsInv(s: State, sched: seq<nat>, n: nat, m: nat)
    requires Inv(s, n, m)
    ensures Inv(Exec(s, sched, m), n, m)
    decreases |sched|
  {
    if sched == [] {
    } else {
      StepRefines(s, sched[0], n, m);
      ExecKeepsInv(Step(s, sched[0], m), sched[1..], n, m);
    }
  }

  predicate Finished(s: State, m: nat) {
    forall t :: 0 <= t < |s.done| ==> s.done[t] == m
  }

  /** In every reachable state the counter equals the number of completed stores, and it
      is n * m exactly when all threads have done their m rounds. */
  lemma ExactCount(n: nat, m: nat, sched: seq<nat>)
    ensures var s := Exec(Init(n), sched, m);
      A.Exact(Abs(s), n, m) && (Finished(s, m) <==> s.race == n * m)
  {
    A.InitExact(n, m);
    ExecKeepsInv(Init(n), sched, n, m);
    A.ExactWhenFinished(Abs(Exec(Init(n), sched, m)), n, m);
  }

  /** Steps a thread still has to take. */
  function StepsLeft(th: Thread, done: nat, m: nat): int {
    4 * (m - done) + match th.pc
      case LockIt => 0
      case Load => -1
      case Store => -2
      case Unlock => 1
  }

  function AllStepsLeft(s: State, m: nat, k: nat): int
    requires k <= |s.threads| && k <= |s.done|
  {
    if k == 0 then 0 else AllStepsLeft(s, m, k - 1) + StepsLeft(s.threads[k - 1], s.done[k - 1], m)
  }

  lemma {:induction false} OneStepLess(s: State, s': State, t: nat, m: nat, k: nat)
    requires k <= |s.threads| == |s.done| == |s'.threads| == |s'.done|
    requires t < |s.threads|
    requires forall u :: 0 <= u < |s.threads| && u != t ==> s'.threads[u] == s.threads[u] && s'.done[u] == s.done[u]
    requires StepsLeft(s'.threads[t], s'.done[t], m) == StepsLeft(s.threads[t], s.done[t], m) - 1
    ensures AllStepsLeft(s', m, k) == AllStepsLeft(s, m, k) - (if t < k then 1 else 0)
  {
    if k > 0 { OneStepLess(s, s', t, m, k - 1); }
  }

  lemma UnfinishedMoves(s: State, n: nat, m: nat) returns (t: nat)
    requires Inv(s, n, m) && !Finished(s, m)
    ensures t < n && Step(s, t, m) != s
  {
    if s.owner.HeldBy? {
      t := s.owner.thread;
      assert !s.threads[t].pc.LockIt?;
      assert Step(s, t, m).threads[t] != s.threads[t];
    } else {
      t :| t < n && s.done[t] != m;
      assert s.threads[t].pc.LockIt?;
      assert s.done[t] < m;
    }
  }

  lemma MoveCounts(s: State, u: nat, n: nat, m: nat)
    requires |s.threads| == |s.done| == n && Step(s, u, m) != s
    ensures |Step(s, u, m).threads| == |Step(s, u, m).done| == n
    ensures AllStepsLeft(Step(s, u, m), m, n) == AllStepsLeft(s, m, n) - 1
  {
    OneStepLess(s, Step(s, u, m), u, m, n);
  }

  /** No deadlock and no livelock: while some store is missing, some thread can move, and
      every move brings the total of remaining steps down by one. */
  lemma Progress(n: nat, m: nat, sched: seq<nat>) returns (t: nat)
    requires !Finished(Exec(Init(n), sched, m), m)
    ensures var s := Exec(Init(n), sched, m);
      t < n && |s.threads| == |s.done| == n && Step(s, t, m) != s &&
      forall u: nat :: Step(s, u, m) != s ==>
        |Step(s, u, m).threads| == |Step(s, u, m).done| == n &&
        AllStepsLeft(Step(s, u, m), m, n) == AllStepsLeft(s, m, n) - 1
  {
    A.InitExact(n, m);
    ExecKeepsInv(Init(n), sched, n, m);
    var s := Exec(Init(n), sched, m);
    t := UnfinishedMoves(s, n, m);
    forall u: nat | Step(s, u, m) != s
      ensures |Step(s, u, m).threads| == |Step(s, u, m).done| == n
      ensures AllStepsLeft(Step(s, u, m), m, n) == AllStepsLeft(s, m, n) - 1
    {
      MoveCounts(s, u, n, m);
    }
  }

  class Module {
    var race: int
    var owner: Owner
    var threads: seq<Thread>
    var done: seq<nat>
    const m: nat

    ghost function View(): State
      reads this
    {
      State(race, owner, threads, done)
    }

    constructor (n: nat, m: nat)
      ensures View() == Init(n) && this.m == m
    {
      race, owner := 0, Free;
      threads := seq(n, _ => Thread(LockIt, 0));
      done := seq(n, _ => 0);
      this.m := m;
    }

    method Instruction(t: nat)
      requires t < |threads| == |done|
      modifies this
      ensures View() == Step(old(View()), t, m)
    {
      var me := threads[t];
      match me.pc {
        case LockIt =>
          if done[t] < m && owner.Free? {
            owner := HeldBy(t);
            me := me.(pc := Load);
          }
        case Load =>
          me := Thread(Store, race);
        case Store =>
          race := me.reg + 1;
          done := done[t := done[t] + 1];
          me := me.(pc := Unlock);
        case Unlock =>
          owner := Free;
          me := me.(pc := LockIt);
      }
      threads := threads[t := me];
    }
  }
}

/** N threads, M atomic additions each. */
module AtomicCounter {
  import A = AbstractCounter

  datatype State = State(race: int, done: seq<nat>)

  function Init(n: nat): State {
    State(0, seq(n, _ => 0))
  }

  function Step(s: State, t: nat, m: nat): State {
    if t < |s.done| && s.done[t] < m then State(s.race + 1, s.done[t := s.done[t] + 1]) else s
  }

  function Exec(s: State, sched: seq<nat>, m: nat): State
    decreases |sched|
  {
    if sched == [] then s else Exec(Step(s, sched[0], m), sched[1..], m)
  }

  function Abs(s: State): A.State {
    A.State(s.race, s.done)
  }

  predicate Finished(s: State, m: nat) {
    forall t :: 0 <= t < |s.done| ==> s.done[t] == m
  }

  lemma StepRefines(s: State, t: nat, m: nat)
    ensures A.Next(Abs(s), Abs(Step(s, t, m)), m)
    ensures Step(s, t, m) != s <==> t < |s.done| && s.done[t] < m
  {
    var s' := Step(s, t, m);
    assert s' != s ==> A.Increment(Abs(s), Abs(s'), t, m);
  }

  lemma {:induction false} ExecKeepsExact(s: State, sched: seq<nat>, n: nat, m: nat)
    requires A.Exact(Abs(s), n, m)
    ensures A.Exact(Abs(Exec(s, sched, m)), n, m)
    decreases |sched|
  {
    if sched == [] {
    } else {
      StepRefines(s, sched[0], m);
      A.NextKeepsExact(Abs(s), Abs(Step(s, sched[0], m)), n, m);
      ExecKeepsExact(Step(s, sched[0], m), sched[1..], n, m);
    }
  }

  function Turns(sched: seq<nat>, t: nat): nat {
    if sched == [] then 0 else (if sched[0] == t then 1 else 0) + Turns(sched[1..], t)
  }

  /** Nobody ever waits: every turn of a thread is one of its additions, up to the m-th. */
  lemma {:induction false} TurnsAreAdditions(s: State, sched: seq<nat>, t: nat, m: nat)
    requires t < |s.done| && s.done[t] <= m
    ensures |Exec(s, sched, m).done| == |s.done|
    ensures Exec(s, sched, m).done[t] == Min(s.done[t] + Turns(sched, t), m)
    decreases |sched|
  {
    if sched == [] {
    } else {
      TurnsAreAdditions(Step(s, sched[0], m), sched[1..], t, m);
    }
  }

  function Min(a: nat, b: nat): nat {
    if a <= b then a else b
  }

  /** Each turn of an unfinished thread raises the counter by one. */
  lemma TurnAdds(n: nat, m: nat, sched: seq<nat>, t: nat)
    requires t < n && Turns(sched, t) < m
    ensures Exec(Init(n), sched + [t], m).race == Exec(Init(n), sched, m).race + 1
  {
    TurnsAreAdditions(Init(n), sched, t, m);
    ExecAppend(Init(n), sched, [t], m);
    var s := Exec(Init(n), sched, m);
    assert Exec(s, [t], m) == Exec(Step(s, t, m), [], m);
  }

  lemma {:induction false} ExecAppend(s: State, a: seq<nat>, b: seq<nat>, m: nat)
    ensures Exec(s, a + b, m) == Exec(Exec(s, a, m), b, m)
    decreases |a|
  {
    if a == [] {
      assert a + b == b;
    } else {
      ExecAppend(Step(s, a[0], m), a[1..], b, m);
      assert (a + b)[1..] == a[1..] + b;
    }
  }

  /** The module ends with n * m exactly when every thread got at least m turns. */
  lemma CompleteIffTurns(n: nat, m: nat, sched: seq<nat>)
    ensures Exec(Init(n), sched, m).race == n * m <==> forall t: nat :: t < n ==> Turns(sched, t) >= m
  {
    ExactCount(n, m, sched);
    var s := Exec(Init(n), sched, m);
    if t: nat :| t < n && Turns(sched, t) < m {
      TurnsAreAdditions(Init(n), sched, t, m);
      assert s.done[t] != m;
    } else {
      forall t: nat | t < n
        ensures s.done[t] == m
      {
        TurnsAreAdditions(Init(n), sched, t, m);
        assert Turns(sched, t) >= m;
      }
      assert Finished(s, m);
    }
  }

  lemma ExactCount(n: nat, m: nat, sched: seq<nat>)
    ensures var s := Exec(Init(n), sched, m);
      A.Exact(Abs(s), n, m) && (Finished(s, m) <==> s.race == n * m)
  {
    A.InitExact(n, m);
    ExecKeepsExact(Init(n), sched, n, m);
    A.ExactWhenFinished(Abs(Exec(Init(n), sched, m)), n, m);
  }

  class Module {
    var race: int
    var done: seq<nat>
    const m: nat

    ghost function View(): State
      reads this
    {
      State(race, done)
    }

    constructor (n: nat, m: nat)
      ensures View() == Init(n) && this.m == m
    {
      race, done := 0, seq(n, _ => 0);
      this.m := m;
    }

    /** Runs any schedule; the value is exact at the end. */
    method RunSchedule(sched: seq<nat>)
      requires View() == Init(|done|)
      modifies this
      ensures View() == Exec(old(View()), sched, m)
      ensures race == old(|done|) * m <==> forall t: nat :: t < old(|done|) ==> Turns(sched, t) >= m
      ensures Finished(View(), m) <==> race == old(|done|) * m
    {
      var i := 0;
      while i < |sched|
        invariant i <= |sched|
        invariant Exec(old(View()), sched, m) == Exec(View(), sched[i..], m)
      {
        var t := sched[i];
        if t < |done| && done[t] < m {
          race := race + 1;
          done := done[t := done[t] + 1];
        }
        i := i + 1;
      }
      ExactCount(old(|done|), m, sched);
      CompleteIffTurns(old(|done|), m, sched);
    }
  }
}
