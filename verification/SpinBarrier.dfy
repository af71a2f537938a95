/** The generation-counting spin barrier: n threads call barrier_wait() any number of
    times, one memory access per step, any interleaving. */
module SpinBarrier {
  import opened ThreadSets

  /** gs32passed is a 32-bit int that wraps around. */
  const WIDTH: int := 0x1_0000_0000

  datatype PC =
    | Outside      // next is line 45: save gs32passed
    | FetchAdd     // line 47
    | ResetBar     // line 50
    | LoadPassed   // line 53, the load of gs32passed++
    | StorePassed  // line 53, its store
    | Spin         // line 58

  /** saved is s32passed_old and reg the register of gs32passed++. arrivals and leaves
      count the executions of line 47 and the returns. */
  datatype Thread = Thread(pc: PC, saved: int, reg: int, arrivals: nat, leaves: nat)

  /** generation counts the executions of line 53. */
  datatype State = State(bar: int, passed: int, generation: nat, threads: seq<Thread>)

  function Init(n: nat): State {
    State(0, 0, 0, seq(n, _ => Thread(Outside, 0, 0, 0, 0)))
  }

  function Step(s: State, t: nat): (s': State)
    ensures |s'.threads| == |s.threads|
  {
    if t >= |s.threads| then s
    else
      var me := s.threads[t];
      match me.pc
      case Outside => s.(threads := s.threads[t := me.(pc := FetchAdd, saved := s.passed)])
      case FetchAdd =>
        s.(bar := s.bar + 1,
           threads := s.threads[t := me.(pc := if s.bar == |s.threads| - 1 then ResetBar else Spin,
                                         arrivals := me.arrivals + 1)])
      case ResetBar => s.(bar := 0, threads := s.threads[t := me.(pc := LoadPassed)])
      case LoadPassed => s.(threads := s.threads[t := me.(pc := StorePassed, reg := s.passed)])
      case StorePassed =>
        s.(passed := (me.reg + 1) % WIDTH, generation := s.generation + 1,
           threads := s.threads[t := me.(pc := Outside, leaves := me.leaves + 1)])
      case Spin =>
        if s.passed == me.saved then s
        else s.(threads := s.threads[t := me.(pc := Outside, leaves := me.leaves + 1)])
  }

  function Exec(s: State, sched: seq<nat>): (s': State)
    ensures |s'.threads| == |s.threads|
    decreases |sched|
  {
    if sched == [] then s else Exec(Step(s, sched[0]), sched[1..])
  }

  // ----- Invariant -----

  predicate Resetting(s: State, t: nat) {
    t < |s.threads| && (s.threads[t].pc.ResetBar? || s.threads[t].pc.LoadPassed? || s.threads[t].pc.StorePassed?)
  }

  /** The threads that have arrived in the generation being collected. */
  ghost function Arrived(s: State): set<nat> {
    set t: nat | t < |s.threads| && s.threads[t].arrivals == s.generation + 1
  }

  predicate ThreadInv(generation: nat, passed: int, th: Thread) {
    && (th.arrivals == generation || th.arrivals == generation + 1)
    && match th.pc
       case Outside => th.arrivals == th.leaves == generation
       case FetchAdd => th.arrivals == th.leaves == generation && th.saved == passed
       case Spin => th.arrivals == th.leaves + 1 && th.saved == th.leaves % WIDTH
       case StorePassed => th.leaves == generation && th.arrivals == th.leaves + 1 && th.reg == passed
       case _ => th.leaves == generation && th.arrivals == th.leaves + 1
  }

  ghost predicate ThreadsInv(s: State) {
    && s.passed == s.generation % WIDTH
    && (forall t: nat :: t < |s.threads| ==> ThreadInv(s.generation, s.passed, s.threads[t]))
  }

  /** At most one thread resets, and then everybody has arrived. */
  ghost predicate ResetInv(s: State) {
    && (forall t: nat, u: nat :: Resetting(s, t) && Resetting(s, u) ==> t == u)
    && (forall t: nat, u: nat :: Resetting(s, t) && u < |s.threads| ==> s.threads[u].arrivals == s.generation + 1)
  }

  ghost predicate BarInv(s: State) {
    && (forall t: nat :: Resetting(s, t) ==> s.bar == if s.threads[t].pc.ResetBar? then |s.threads| else 0)
    && ((forall t: nat :: !Resetting(s, t)) ==> s.bar == |Arrived(s)| < |s.threads|)
  }

  ghost predicate Inv(s: State) {
    ThreadsInv(s) && ResetInv(s) && BarInv(s)
  }

  lemma InitInv(n: nat)
    requires n > 0
    ensures Inv(Init(n))
  {
    assert Arrived(Init(n)) == {};
  }

  lemma FetchAddArrives(s: State, t: nat)
    requires t < |s.threads| && s.threads[t].pc.FetchAdd? && s.threads[t].arrivals == s.generation
    ensures Arrived(Step(s, t)) == Arrived(s) + {t} && t !in Arrived(s)
  {
  }

  /** Line 47 adds its thread to those that have arrived, and counts it. */
  lemma FetchAddCounts(s: State, t: nat)
    requires ResetInv(s) && BarInv(s)
    requires t < |s.threads| && s.threads[t].pc.FetchAdd? && s.threads[t].arrivals == s.generation
    ensures forall u: nat :: !Resetting(s, u)
    ensures var s' := Step(s, t);
      && s'.bar == |Arrived(s')|
      && (s.bar == |s.threads| - 1 <==> forall u: nat :: u < |s.threads| ==> u in Arrived(s'))
  {
    assert forall u: nat :: !Resetting(s, u);
    FetchAddArrives(s, t);
    FullSet(Arrived(Step(s, t)), |s.threads|);
  }

  /** The last to arrive, and nobody else, goes on to reset. */
  lemma LastArrivalResets(s: State, t: nat)
    requires ResetInv(s) && BarInv(s)
    requires t < |s.threads| && s.threads[t].pc.FetchAdd? && s.threads[t].arrivals == s.generation
    ensures forall u: nat :: Resetting(Step(s, t), u) <==> u == t && s.bar == |s.threads| - 1
  {
    FetchAddCounts(s, t);
    forall u: nat | u != t
      ensures !Resetting(Step(s, t), u)
    {
      assert !Resetting(s, u);
    }
  }

  lemma FetchAddKeepsInv(s: State, t: nat)
    requires ResetInv(s) && BarInv(s)
    requires t < |s.threads| && s.threads[t].pc.FetchAdd? && s.threads[t].arrivals == s.generation
    ensures ResetInv(Step(s, t)) && BarInv(Step(s, t))
  {
    var s' := Step(s, t);
    FetchAddCounts(s, t);
    LastArrivalResets(s, t);
    if s.bar == |s.threads| - 1 {
      forall u: nat | u < |s.threads|
        ensures s'.threads[u].arrivals == s'.generation + 1
      {
        assert u in Arrived(s');
      }
      assert Resetting(s', t) && s'.bar == |s.threads|;
    } else {
      FullSet(Arrived(s'), |s.threads|);
      assert !Resetting(s', t);
    }
  }

  lemma WrapSuccessor(g: nat)
    ensures (g % WIDTH + 1) % WIDTH == (g + 1) % WIDTH
  {
  }

  lemma ResetterIsAlone(s: State, t: nat, u: nat)
    requires Inv(s) && Resetting(s, t) && u < |s.threads| && u != t
    ensures s.threads[u].pc.Spin? && s.threads[u].leaves == s.generation
  {
    assert ThreadInv(s.generation, s.passed, s.threads[u]);
    assert !Resetting(s, u);
  }

  lemma StorePassedKeepsInv(s: State, t: nat)
    requires Inv(s) && t < |s.threads| && s.threads[t].pc.StorePassed?
    ensures Inv(Step(s, t))
  {
    var s' := Step(s, t);
    assert Resetting(s, t);
    assert s'.passed == s'.generation % WIDTH by {
      assert ThreadInv(s.generation, s.passed, s.threads[t]);
      WrapSuccessor(s.generation);
    }
    assert s'.bar == 0;
    forall u: nat | u < |s.threads|
      ensures ThreadInv(s'.generation, s'.passed, s'.threads[u])
      ensures s'.threads[u].arrivals == s'.generation && !Resetting(s', u)
    {
      assert ThreadInv(s.generation, s.passed, s.threads[u]);
      if u != t {
        ResetterIsAlone(s, t, u);
      }
    }
    assert Arrived(s') == {};
  }

  lemma OtherStepKeepsInv(s: State, t: nat)
    requires Inv(s) && t < |s.threads| && !s.threads[t].pc.FetchAdd? && !s.threads[t].pc.StorePassed?
    ensures ResetInv(Step(s, t)) && BarInv(Step(s, t))
  {
    var s' := Step(s, t);
    assert s'.threads[t].arrivals == s.threads[t].arrivals;
    assert forall u: nat :: Resetting(s', u) <==> Resetting(s, u);
    assert s.threads[t].pc.ResetBar? ==> Resetting(s, t);
    assert forall u: nat :: u < |s.threads| ==> s'.threads[u].arrivals == s.threads[u].arrivals;
    assert Arrived(s') == Arrived(s);
  }

  lemma StepKeepsThreads(s: State, t: nat)
    requires Inv(s) && t < |s.threads| && !s.threads[t].pc.StorePassed?
    ensures ThreadsInv(Step(s, t))
  {
  }

  lemma StepKeepsInv(s: State, t: nat)
    requires Inv(s)
    ensures Inv(Step(s, t))
  {
    if t < |s.threads| {
      if s.threads[t].pc.StorePassed? {
        StorePassedKeepsInv(s, t);
      } else {
        StepKeepsThreads(s, t);
        assert ThreadInv(s.generation, s.passed, s.threads[t]);
        if s.threads[t].pc.FetchAdd? {
          FetchAddKeepsInv(s, t);
        } else {
          OtherStepKeepsInv(s, t);
        }
      }
    }
  }

  lemma {:induction false} ExecKeepsInv(s: State, sched: seq<nat>)
    requires Inv(s)
    ensures Inv(Exec(s, sched))
    decreases |sched|
  {
    if sched == [] {
    } else {
      StepKeepsInv(s, sched[0]);
      ExecKeepsInv(Step(s, sched[0]), sched[1..]);
    }
  }

  // ----- What the barrier promises -----

  /** Nobody leaves round r before everybody has entered it: the number of returns of one
      thread never exceeds the number of arrivals of another. */
  lemma NobodyLeavesEarly(n: nat, sched: seq<nat>, t: nat, u: nat)
    requires t < n && u < n
    ensures var s := Exec(Init(n), sched);
      s.threads[t].leaves <= s.threads[u].arrivals
  {
    InitInv(n);
    ExecKeepsInv(Init(n), sched);
    var s := Exec(Init(n), sched);
    assert ThreadInv(s.generation, s.passed, s.threads[t]) && ThreadInv(s.generation, s.passed, s.threads[u]);
  }

  lemma RoundsStayClose(n: nat, sched: seq<nat>, t: nat, u: nat)
    requires t < n && u < n
    ensures var s := Exec(Init(n), sched);
      s.threads[t].leaves <= s.threads[u].leaves + 1
  {
    InitInv(n);
    ExecKeepsInv(Init(n), sched);
    var s := Exec(Init(n), sched);
    assert ThreadInv(s.generation, s.passed, s.threads[t]) && ThreadInv(s.generation, s.passed, s.threads[u]);
  }

  /** A waiter is at most one generation behind, and although gs32passed wraps around, the
      loop at line 58 ends exactly when the waiter's own round has been completed. */
  lemma WaiterReleasedExactly(n: nat, sched: seq<nat>, t: nat)
    requires t < n && Exec(Init(n), sched).threads[t].pc.Spin?
    ensures var s := Exec(Init(n), sched);
      && s.threads[t].leaves <= s.generation <= s.threads[t].leaves + 1
      && (s.passed != s.threads[t].saved <==> s.generation == s.threads[t].leaves + 1)
  {
    InitInv(n);
    ExecKeepsInv(Init(n), sched);
    var s := Exec(Init(n), sched);
    assert ThreadInv(s.generation, s.passed, s.threads[t]);
  }

  /** gs32passed counts the completed rounds, exactly until it wraps around. */
  lemma PassedCountsRounds(n: nat, sched: seq<nat>)
    requires n > 0
    ensures var s := Exec(Init(n), sched);
      && s.passed == s.generation % 0x1_0000_0000
      && (s.passed == s.generation <==> s.generation < 0x1_0000_0000)
  {
    InitInv(n);
    ExecKeepsInv(Init(n), sched);
  }

  /** The rounds in which line 50 is executed, in order. */
  function ResetRounds(s: State, sched: seq<nat>): seq<nat>
    decreases |sched|
  {
    if sched == [] then []
    else
      var t := sched[0];
      (if t < |s.threads| && s.threads[t].pc.ResetBar? then [s.threads[t].leaves] else [])
      + ResetRounds(Step(s, t), sched[1..])
  }

  predicate PastReset(s: State, t: nat) {
    t < |s.threads| && (s.threads[t].pc.LoadPassed? || s.threads[t].pc.StorePassed?)
  }

  /** The first round whose reset has not been executed yet. */
  ghost function NextReset(s: State): nat {
    if exists t: nat :: PastReset(s, t) then s.generation + 1 else s.generation
  }

  lemma StepMovesNextReset(s: State, t: nat)
    requires Inv(s)
    ensures t < |s.threads| && s.threads[t].pc.ResetBar? ==>
      s.threads[t].leaves == NextReset(s) && NextReset(Step(s, t)) == NextReset(s) + 1
    ensures !(t < |s.threads| && s.threads[t].pc.ResetBar?) ==> NextReset(Step(s, t)) == NextReset(s)
  {
    var s' := Step(s, t);
    assert forall u: nat :: u != t ==> (PastReset(s', u) <==> PastReset(s, u));
    assert forall u: nat :: PastReset(s, u) ==> Resetting(s, u);
    if t < |s.threads| {
      assert ThreadInv(s.generation, s.passed, s.threads[t]);
      if Resetting(s, t) {
        assert forall u: nat :: u != t ==> !Resetting(s, u);
      }
      assert PastReset(s', t) <==> s.threads[t].pc.ResetBar? || s.threads[t].pc.LoadPassed?;
      assert PastReset(s, t) <==> s.threads[t].pc.LoadPassed? || s.threads[t].pc.StorePassed?;
      if s.threads[t].pc.StorePassed? {
        assert forall u: nat :: !PastReset(s', u);
      } else if u: nat :| PastReset(s, u) {
        assert PastReset(s', u);
      }
    }
  }

  lemma {:induction false} ResetsInOrder(s: State, sched: seq<nat>)
    requires Inv(s)
    ensures |ResetRounds(s, sched)| == NextReset(Exec(s, sched)) - NextReset(s)
    ensures forall i :: 0 <= i < |ResetRounds(s, sched)| ==> ResetRounds(s, sched)[i] == NextReset(s) + i
    decreases |sched|
  {
    if sched == [] {
    } else {
      StepMovesNextReset(s, sched[0]);
      StepKeepsInv(s, sched[0]);
      ResetsInOrder(Step(s, sched[0]), sched[1..]);
    }
  }

  /** Exactly one thread per round runs the reset: the resets executed so far are those of
      rounds 0, 1, 2, ..., each once, and every completed generation has had its own. */
  lemma OneResetPerRound(n: nat, sched: seq<nat>)
    requires n > 0
    ensures var rounds := ResetRounds(Init(n), sched);
      && (forall i :: 0 <= i < |rounds| ==> rounds[i] == i)
      && Exec(Init(n), sched).generation <= |rounds| <= Exec(Init(n), sched).generation + 1
  {
    InitInv(n);
    ResetsInOrder(Init(n), sched);
  }

  /** No deadlock: when all n threads are inside barrier_wait(), one of them can move on. */
  lemma SomebodyMoves(n: nat, sched: seq<nat>) returns (t: nat)
    requires n > 0
    requires forall u: nat :: u < n ==> !Exec(Init(n), sched).threads[u].pc.Outside?
    ensures t < n && Step(Exec(Init(n), sched), t) != Exec(Init(n), sched)
  {
    InitInv(n);
    ExecKeepsInv(Init(n), sched);
    var s := Exec(Init(n), sched);
    if u: nat :| Resetting(s, u) {
      t := u;
    } else {
      FullSet(Arrived(s), n);
      t :| t < n && t !in Arrived(s);
      assert ThreadInv(s.generation, s.passed, s.threads[t]);
    }
    assert ThreadInv(s.generation, s.passed, s.threads[t]);
    assert Step(s, t).threads[t] != s.threads[t];
  }

  // ----- Liveness under fair schedules -----

  function Turns(sched: seq<nat>, t: nat): nat {
    if sched == [] then 0 else (if sched[0] == t then 1 else 0) + Turns(sched[1..], t)
  }

  /** t has arrived in round g, or round g is over. */
  predicate Ahead(s: State, t: nat, g: nat)
    requires t < |s.threads|
  {
    s.generation > g || s.threads[t].arrivals > g
  }

  /** Turns t needs at most before that. */
  function ArrivalDistance(s: State, t: nat, g: nat): nat
    requires t < |s.threads|
  {
    if Ahead(s, t, g) then 0
    else if s.threads[t].pc.FetchAdd? then 1
    else if s.threads[t].pc.Outside? then 2
    else 3
  }

  lemma WrapDiffers(g: nat)
    requires g > 0
    ensures (g - 1) % WIDTH != g % WIDTH
  {
  }

  lemma StepNearsArrival(s: State, u: nat, t: nat, g: nat)
    requires Inv(s) && t < |s.threads| && s.generation >= g
    ensures Step(s, u).generation >= g
    ensures ArrivalDistance(Step(s, u), t, g) <= ArrivalDistance(s, t, g)
    ensures u == t && ArrivalDistance(s, t, g) > 0 ==> ArrivalDistance(Step(s, u), t, g) < ArrivalDistance(s, t, g)
  {
    assert ThreadInv(s.generation, s.passed, s.threads[t]);
    if g > 0 { WrapDiffers(g); }
  }

  lemma {:induction false} TurnsBringArrival(s: State, sched: seq<nat>, t: nat, g: nat)
    requires Inv(s) && t < |s.threads| && s.generation >= g
    requires Turns(sched, t) >= ArrivalDistance(s, t, g)
    ensures Exec(s, sched).generation >= g && Ahead(Exec(s, sched), t, g)
    decreases |sched|
  {
    if sched == [] {
    } else {
      StepNearsArrival(s, sched[0], t, g);
      StepKeepsInv(s, sched[0]);
      TurnsBringArrival(Step(s, sched[0]), sched[1..], t, g);
    }
  }

  function ResetDistance(pc: PC): nat {
    match pc
    case ResetBar => 3
    case LoadPassed => 2
    case StorePassed => 1
    case _ => 0
  }

  lemma {:induction false} TurnsBringReset(s: State, sched: seq<nat>, z: nat, g: nat)
    requires Inv(s) && s.generation >= g
    requires s.generation > g || (Resetting(s, z) && Turns(sched, z) >= ResetDistance(s.threads[z].pc))
    ensures Exec(s, sched).generation > g
    decreases |sched|
  {
    if sched == [] {
    } else {
      StepKeepsInv(s, sched[0]);
      TurnsBringReset(Step(s, sched[0]), sched[1..], z, g);
    }
  }

  /** When all have arrived, one of them resets. */
  lemma AllAheadMeansResetting(s: State) returns (z: nat)
    requires Inv(s) && forall t: nat :: t < |s.threads| ==> Ahead(s, t, s.generation)
    ensures Resetting(s, z)
  {
    forall t: nat | t < |s.threads|
      ensures t in Arrived(s)
    {
      assert Ahead(s, t, s.generation);
      assert ThreadInv(s.generation, s.passed, s.threads[t]);
    }
    FullSet(Arrived(s), |s.threads|);
    z :| Resetting(s, z);
  }

  /** Every thread gets at least three turns. */
  predicate Generous(part: seq<nat>, n: nat) {
    forall t :: 0 <= t < n ==> Turns(part, t) >= 3
  }

  /** Two generous stretches of any schedule complete a round. */
  lemma RoundCompletes(s: State, a: seq<nat>, b: seq<nat>)
    requires Inv(s) && Generous(a, |s.threads|) && Generous(b, |s.threads|)
    ensures Exec(Exec(s, a), b).generation > s.generation
  {
    var s1, g := Exec(s, a), s.generation;
    ExecKeepsInv(s, a);
    GenerationGrows(s, a);
    GenerationGrows(s1, b);
    if s1.generation == g {
      forall t: nat | t < |s.threads|
        ensures Ahead(s1, t, g)
      {
        TurnsBringArrival(s, a, t, g);
      }
      var z := AllAheadMeansResetting(s1);
      TurnsBringReset(s1, b, z, g);
    }
  }

  lemma {:induction false} GenerationGrows(s: State, sched: seq<nat>)
    ensures Exec(s, sched).generation >= s.generation
    decreases |sched|
  {
    if sched == [] {
    } else {
      GenerationGrows(Step(s, sched[0]), sched[1..]);
    }
  }

  function ExecParts(s: State, parts: seq<seq<nat>>): (s': State)
    ensures |s'.threads| == |s.threads|
    decreases |parts|
  {
    if parts == [] then s else ExecParts(Exec(s, parts[0]), parts[1..])
  }

  lemma {:induction false} PartsCompleteRounds(s: State, parts: seq<seq<nat>>, r: nat)
    requires Inv(s) && |parts| == 2 * r
    requires forall i :: 0 <= i < |parts| ==> Generous(parts[i], |s.threads|)
    ensures Inv(ExecParts(s, parts)) && ExecParts(s, parts).generation >= s.generation + r
    decreases r
  {
    if r == 0 {
    } else {
      var s1 := Exec(s, parts[0]);
      var s2 := Exec(s1, parts[1]);
      ExecKeepsInv(s, parts[0]);
      ExecKeepsInv(s1, parts[1]);
      RoundCompletes(s, parts[0], parts[1]);
      assert parts[1..][1..] == parts[2..];
      PartsCompleteRounds(s2, parts[2..], r - 1);
    }
  }

  /** Under every schedule that keeps giving turns to all threads, as SCHED_RR does, the
      barrier keeps opening: after 2r + 2 generous stretches every thread has returned at
      least r times. */
  lemma FairSchedulesPass(n: nat, parts: seq<seq<nat>>, r: nat, t: nat)
    requires t < n && |parts| == 2 * r + 2
    requires forall i :: 0 <= i < |parts| ==> Generous(parts[i], n)
    ensures ExecParts(Init(n), parts).threads[t].leaves >= r
  {
    InitInv(n);
    PartsCompleteRounds(Init(n), parts, r + 1);
    var s := ExecParts(Init(n), parts);
    assert ThreadInv(s.generation, s.passed, s.threads[t]);
  }

  // ----- The code, on the shared variables -----

  class Barrier {
    var bar: int
    var passed: int
    ghost var generation: nat
    var threads: seq<Thread>

    ghost function View(): State
      reads this
    {
      State(bar, passed, generation, threads)
    }

    constructor (n: nat)
      ensures View() == Init(n)
    {
      bar, passed, generation := 0, 0, 0;
      threads := seq(n, _ => Thread(Outside, 0, 0, 0, 0));
    }

    /** One memory access of barrier_wait() in thread t. */
    method Access(t: nat)
      requires t < |threads|
      modifies this
      ensures View() == Step(old(View()), t)
    {
      var me := threads[t];
      match me.pc {
        case Outside =>
          me := me.(saved := passed, pc := FetchAdd);
        case FetchAdd =>
          var before := bar;
          bar := bar + 1;
          me := me.(arrivals := me.arrivals + 1);
          if before == |threads| - 1 {
            me := me.(pc := ResetBar);
          } else {
            me := me.(pc := Spin);
          }
        case ResetBar =>
          bar := 0;
          me := me.(pc := LoadPassed);
        case LoadPassed =>
          me := me.(reg := passed, pc := StorePassed);
        case StorePassed =>
          passed := (me.reg + 1) % WIDTH;
          generation := generation + 1;
          me := me.(leaves := me.leaves + 1, pc := Outside);
        case Spin =>
          if passed != me.saved {
            me := me.(leaves := me.leaves + 1, pc := Outside);
          }
      }
      threads := threads[t := me];
    }

    /** Runs any schedule from the start; no return is ahead of an arrival. */
    method RunSchedule(sched: seq<nat>)
      requires View() == Init(|threads|)
      modifies this
      ensures View() == Exec(old(View()), sched)
      ensures forall t: nat, u: nat :: t < |threads| && u < |threads| ==> threads[t].leaves <= threads[u].arrivals
    {
      var i := 0;
      while i < |sched|
        invariant i <= |sched|
        invariant Exec(old(View()), sched) == Exec(View(), sched[i..])
      {
        if sched[i] < |threads| {
          Access(sched[i]);
        }
        i := i + 1;
      }
      forall t: nat, u: nat | t < |threads| && u < |threads|
        ensures threads[t].leaves <= threads[u].arrivals
      {
        NobodyLeavesEarly(old(|threads|), sched, t, u);
      }
    }
  }
}
