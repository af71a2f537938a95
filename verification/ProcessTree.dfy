/** The recursive process tree: a process of level l > 0 forks two children, each of which
    executes the program again with level l - 1. All forks and execs succeed. */
module ProcessTree {

  datatype Proc =
    | Started(level: nat)  // at line 22
    | ForkedOne(level: nat) // at line 40: the first child exists
    | Child(level: nat)    // a forked copy, at line 30 or 45, about to exec
    | Resting(level: nat)  // past line 57: no more forks

  type State = s: seq<Proc> | forall i :: 0 <= i < |s| && (s[i].ForkedOne? || s[i].Child?) ==> s[i].level > 0

  function Init(level: nat): State {
    [Started(level)]
  }

  /** Process i executes its next fork, exec or test. */
  function Step(s: State, i: nat): State {
    if i >= |s| then s
    else match s[i]
      case Started(l) => if l > 0 then s[i := ForkedOne(l)] + [Child(l)] else s[i := Resting(l)]
      case ForkedOne(l) => s[i := Resting(l)] + [Child(l)]
      case Child(l) => s[i := Started(l - 1)]
      case Resting(_) => s
  }

  function Exec(s: State, sched: seq<nat>): State
    decreases |sched|
  {
    if sched == [] then s else Exec(Step(s, sched[0]), sched[1..])
  }

  function Pow2(n: nat): (r: nat)
    ensures r > 0
  {
    if n == 0 then 1 else 2 * Pow2(n - 1)
  }

  // ----- What a process is still going to contribute -----

  /** Processes counting the process itself; processes of one level; steps. */
  datatype Metric = Processes | AtLevel(k: nat) | Steps

  function Tree(level: nat, m: Metric): nat {
    match m
    case Processes => Pow2(level + 1) - 1
    case AtLevel(k) => if k <= level then Pow2(level - k) else 0
    case Steps => 5 * Pow2(level) - 4
  }

  function Own(level: nat, m: Metric): nat {
    match m
    case Processes => 1
    case AtLevel(k) => if k == level then 1 else 0
    case Steps => 0
  }

  /** The cost of one step: only the metric of steps goes down. */
  function OneStep(m: Metric): nat {
    if m.Steps? then 1 else 0
  }

  function Value(p: Proc, m: Metric): nat {
    match p
    case Started(l) => Tree(l, m)
    case ForkedOne(l) => if l == 0 then 0 else Own(l, m) + 2 * OneStep(m) + Tree(l - 1, m)
    case Child(l) => if l == 0 then 0 else OneStep(m) + Tree(l - 1, m)
    case Resting(l) => Own(l, m)
  }

  function Total(s: seq<Proc>, m: Metric): nat {
    if s == [] then 0 else Total(s[..|s| - 1], m) + Value(s[|s| - 1], m)
  }

  lemma {:induction false} TotalUpdate(s: seq<Proc>, i: nat, p: Proc, m: Metric)
    requires i < |s|
    ensures Total(s[i := p], m) == Total(s, m) - Value(s[i], m) + Value(p, m)
  {
    var last := |s| - 1;
    if i == last {
      assert s[i := p][..last] == s[..last];
    } else {
      assert s[i := p][..last] == s[..last][i := p];
      TotalUpdate(s[..last], i, p, m);
    }
  }

  lemma ForkConserves(s: seq<Proc>, i: nat, next: Proc, m: Metric)
    requires i < |s| && s[i].level > 0
    ensures |s[i := next] + [Child(s[i].level)]| == |s| + 1
    ensures Total(s[i := next] + [Child(s[i].level)], m)
         == Total(s, m) - Value(s[i], m) + Value(next, m) + Value(Child(s[i].level), m)
  {
    TotalUpdate(s, i, next, m);
  }

  /** What a process does next is worth what it was worth, less the step itself. */
  lemma ProcConserves(p: Proc, m: Metric)
    ensures p.Started? && p.level > 0 ==>
      Value(ForkedOne(p.level), m) + Value(Child(p.level), m) == Value(p, m) - OneStep(m)
    ensures p.Started? && p.level == 0 ==> Value(Resting(0), m) == Value(p, m) - OneStep(m)
    ensures p.ForkedOne? && p.level > 0 ==>
      Value(Resting(p.level), m) + Value(Child(p.level), m) == Value(p, m) - OneStep(m)
    ensures p.Child? && p.level > 0 ==> Value(Started(p.level - 1), m) == Value(p, m) - OneStep(m)
  {
  }

  /** No fork or exec changes the totals of processes; each step costs exactly one step. */
  lemma StepConserves(s: State, i: nat, m: Metric)
    ensures Total(Step(s, i), m) == Total(s, m) - (if Step(s, i) != s then OneStep(m) else 0)
  {
    if i < |s| {
      ProcConserves(s[i], m);
      match s[i] {
        case Started(l) =>
          if l > 0 {
            ForkConserves(s, i, ForkedOne(l), m);
          } else {
            TotalUpdate(s, i, Resting(l), m);
            assert Step(s, i)[i] != s[i];
          }
        case ForkedOne(l) =>
          ForkConserves(s, i, Resting(l), m);
        case Child(l) =>
          TotalUpdate(s, i, Started(l - 1), m);
          assert Step(s, i)[i] != s[i];
        case Resting(_) =>
      }
    }
  }

  function Moves(s: State, sched: seq<nat>): nat
    decreases |sched|
  {
    if sched == [] then 0 else (if Step(s, sched[0]) != s then 1 else 0) + Moves(Step(s, sched[0]), sched[1..])
  }

  lemma {:induction false} ExecConserves(s: State, sched: seq<nat>, m: Metric)
    ensures Total(Exec(s, sched), m) == Total(s, m) - (if m.Steps? then Moves(s, sched) else 0)
    decreases |sched|
  {
    if sched == [] {
    } else {
      StepConserves(s, sched[0], m);
      ExecConserves(Step(s, sched[0]), sched[1..], m);
    }
  }

  lemma InitTotal(level: nat, m: Metric)
    ensures Total(Init(level), m) == Tree(level, m)
  {
  }

  // ----- Conservation, termination, final shape -----

  /** Processes a process is still going to spawn, directly or not. */
  function ToSpawn(s: seq<Proc>): nat {
    if s == [] then 0
    else ToSpawn(s[..|s| - 1]) + (if Value(s[|s| - 1], Processes) > 0 then Value(s[|s| - 1], Processes) - 1 else 0)
  }

  lemma {:induction false} ExistingPlusToSpawn(s: State)
    ensures |s| + ToSpawn(s) == Total(s, Processes)
  {
    if s != [] {
      ExistingPlusToSpawn(s[..|s| - 1]);
    }
  }

  /** At every moment of every run, the existing processes and those still to be spawned
      make up the complete tree. */
  lemma Conservation(level: nat, sched: seq<nat>)
    ensures |Exec(Init(level), sched)| + ToSpawn(Exec(Init(level), sched)) == Pow2(level + 1) - 1
  {
    InitTotal(level, Processes);
    ExecConserves(Init(level), sched, Processes);
    ExistingPlusToSpawn(Exec(Init(level), sched));
  }

  predicate AllResting(s: State) {
    forall i :: 0 <= i < |s| ==> s[i].Resting?
  }

  lemma {:induction false} StepsLeftUnlessResting(s: State)
    ensures Total(s, Steps) == 0 <==> AllResting(s)
  {
    if s != [] {
      StepsLeftUnlessResting(s[..|s| - 1]);
      assert Value(s[|s| - 1], Steps) == 0 <==> s[|s| - 1].Resting?;
      assert AllResting(s) <==> AllResting(s[..|s| - 1]) && s[|s| - 1].Resting?;
    }
  }

  /** Spawning terminates: every run has at most 5 * 2^level - 4 steps, and the complete
      runs are exactly those of that length, whatever the interleaving. */
  lemma CompleteIffAllSteps(level: nat, sched: seq<nat>)
    ensures Moves(Init(level), sched) <= 5 * Pow2(level) - 4
    ensures AllResting(Exec(Init(level), sched)) <==> Moves(Init(level), sched) == 5 * Pow2(level) - 4
  {
    var s := Exec(Init(level), sched);
    InitTotal(level, Steps);
    ExecConserves(Init(level), sched, Steps);
    assert Total(s, Steps) == 5 * Pow2(level) - 4 - Moves(Init(level), sched);
    StepsLeftUnlessResting(s);
  }

  function CountLevel(s: seq<Proc>, k: nat): nat {
    if s == [] then 0 else CountLevel(s[..|s| - 1], k) + (if s[|s| - 1].level == k then 1 else 0)
  }

  lemma {:induction false} RestingCount(s: State, k: nat)
    requires AllResting(s)
    ensures Total(s, AtLevel(k)) == CountLevel(s, k)
  {
    if s != [] {
      RestingCount(s[..|s| - 1], k);
    }
  }

  /** When spawning is over there are exactly 2^(level-k) processes of each level k, none of
      a higher level, and 2^(level+1) - 1 in all. */
  lemma FinalShape(level: nat, sched: seq<nat>, k: nat)
    requires AllResting(Exec(Init(level), sched))
    ensures CountLevel(Exec(Init(level), sched), k) == if k <= level then Pow2(level - k) else 0
    ensures |Exec(Init(level), sched)| == Pow2(level + 1) - 1
  {
    var s := Exec(Init(level), sched);
    InitTotal(level, AtLevel(k));
    ExecConserves(Init(level), sched, AtLevel(k));
    RestingCount(s, k);
    Conservation(level, sched);
    NothingToSpawn(s);
  }

  lemma {:induction false} NothingToSpawn(s: State)
    requires AllResting(s)
    ensures ToSpawn(s) == 0
  {
    if s != [] {
      NothingToSpawn(s[..|s| - 1]);
    }
  }

  /** The level a process runs at, once it has made its exec if it is a copy. */
  function RunsAt(p: Proc): nat {
    if p.Child? && p.level > 0 then p.level - 1 else p.level
  }

  /** A fork changes neither the place nor the level of the parent, and an exec puts its
      process one level below the one it was forked from. */
  lemma {:induction false} KeepsItsLevel(s: State, sched: seq<nat>, i: nat)
    requires i < |s|
    ensures i < |Exec(s, sched)| && RunsAt(Exec(s, sched)[i]) == RunsAt(s[i])
    ensures Exec(s, sched)[i].Child? ==> s[i].Child?
    decreases |sched|
  {
    if sched == [] {
    } else {
      KeepsItsLevel(Step(s, sched[0]), sched[1..], i);
    }
  }

  /** So the first process rests with the level it was started with. */
  lemma FirstRests(level: nat, sched: seq<nat>)
    requires AllResting(Exec(Init(level), sched))
    ensures |Exec(Init(level), sched)| > 0 && Exec(Init(level), sched)[0] == Resting(level)
  {
    KeepsItsLevel(Init(level), sched, 0);
  }

  // ----- The code, changing the process table -----

  class Kernel {
    var procs: seq<Proc>

    ghost predicate Valid()
      reads this
    {
      forall i :: 0 <= i < |procs| && (procs[i].ForkedOne? || procs[i].Child?) ==> procs[i].level > 0
    }

    constructor (level: nat)
      ensures Valid() && procs == Init(level)
    {
      procs := [Started(level)];
    }

    /** fork(): a copy of the calling process, which only has its exec to do. */
    method Fork(i: nat)
      requires i < |procs| && procs[i].level > 0
      modifies this
      ensures procs == old(procs) + [Child(old(procs[i].level))]
    {
      procs := procs + [Child(procs[i].level)];
    }

    /** execlp(): the program starts over in the same process. */
    method ExecLevel(i: nat, level: nat)
      requires i < |procs|
      modifies this
      ensures procs == old(procs)[i := Started(level)]
    {
      procs := procs[i := Started(level)];
    }

    method RunProcess(i: nat)
      requires Valid()
      modifies this
      ensures Valid() && procs == Step(old(procs), i)
    {
      if i < |procs| {
        var level := procs[i].level;
        match procs[i] {
          case Started(_) =>
            if level > 0 {
              Fork(i);
              procs := procs[i := ForkedOne(level)];
            } else {
              procs := procs[i := Resting(level)];
            }
          case ForkedOne(_) =>
            Fork(i);
            procs := procs[i := Resting(level)];
          case Child(_) =>
            ExecLevel(i, level - 1);
          case Resting(_) =>
        }
      }
    }

    /** Any schedule keeps the conservation law. */
    method RunSchedule(level: nat, sched: seq<nat>)
      requires procs == Init(level)
      modifies this
      ensures Valid() && procs == Exec(Init(level), sched)
      ensures |procs| + ToSpawn(procs) == Pow2(level + 1) - 1
    {
      var k := 0;
      while k < |sched|
        invariant k <= |sched| && Valid()
        invariant Exec(Init(level), sched) == Exec(procs, sched[k..])
      {
        RunProcess(sched[k]);
        k := k + 1;
      }
      Conservation(level, sched);
    }
  }
}
