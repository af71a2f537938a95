/** work_fxn as a whole: the sleep barrier, then rounds of picking the next cabin index
    under a lock. */
module WorkDispatch {
  import opened AbstractLock
  import opened Arithmetic
  import opened Sums
  import B = SleepBarrier

  datatype PC =
    | LockIndex   // line 204
    | ReadIndex   // line 206
    | LoadIndex   // line 207, the load
    | StoreIndex  // line 207, the store
    | UnlockIndex // line 210
    | ReadCabin   // line 214, and the workload of the round

  /** index is s32idx, reg the register of line 207, base is s32base. */
  datatype Worker = Worker(pc: PC, index: int, reg: int, base: int, rounds: nat)

  /** One execution of the store at line 207. */
  datatype Entry = Entry(thread: nat, index: int)

  /** log lists the picks in the order of their stores; picks counts them by thread. */
  datatype State = State(b: B.State, shared: int, lock: Owner, workers: seq<Worker>, log: seq<Entry>, picks: seq<nat>)

  /** The arguments every thread shares. parsing_input() leaves at least one cabin. */
  datatype Args = Args(roundMax: nat, cabin: seq<int>)

  function Init(n: nat): State {
    State(B.Init(n), 0, Free, seq(n, _ => Worker(LockIndex, 0, 0, 0, 0)), [], seq(n, _ => 0))
  }

  function Pick(s: State, t: nat, args: Args): (s': State)
    requires t < |s.workers| && t < |s.picks| && args.cabin != []
    ensures |s'.workers| == |s.workers| && s'.b == s.b
  {
    var me := s.workers[t];
    match me.pc
    case LockIndex =>
      if me.rounds < args.roundMax && s.lock.Free?
      then s.(lock := HeldBy(t), workers := s.workers[t := me.(pc := ReadIndex)])
      else s
    case ReadIndex => s.(workers := s.workers[t := me.(pc := LoadIndex, index := s.shared)])
    case LoadIndex => s.(workers := s.workers[t := me.(pc := StoreIndex, reg := s.shared)])
    case StoreIndex =>
      s.(shared := (me.reg + 1) % |args.cabin|, workers := s.workers[t := me.(pc := UnlockIndex)],
         log := s.log + [Entry(t, me.index)], picks := s.picks[t := s.picks[t] + 1])
    case UnlockIndex => s.(lock := Free, workers := s.workers[t := me.(pc := ReadCabin)])
    case ReadCabin =>
      if 0 <= me.index < |args.cabin|
      then s.(workers := s.workers[t := me.(pc := LockIndex, base := args.cabin[me.index], rounds := me.rounds + 1)])
      else s
  }

  function Step(s: State, e: B.Event, args: Args): (s': State)
    requires args.cabin != []
    ensures |s'.workers| == |s.workers| && |s'.b.pc| == |s.b.pc|
  {
    var t := e.thread;
    if t < |s.b.pc| && t < |s.workers| && t < |s.picks| then
      if s.b.pc[t].Passed? && e.Run? then Pick(s, t, args) else s.(b := B.Step(s.b, e))
    else s
  }

  function Exec(s: State, sched: seq<B.Event>, args: Args): (s': State)
    requires args.cabin != []
    ensures |s'.workers| == |s.workers| && |s'.b.pc| == |s.b.pc|
    decreases |sched|
  {
    if sched == [] then s else Exec(Step(s, sched[0], args), sched[1..], args)
  }

  // ----- Invariant -----

  predicate InLock(pc: PC) {
    pc.ReadIndex? || pc.LoadIndex? || pc.StoreIndex? || pc.UnlockIndex?
  }

  /** The index of a thread's latest pick, or -1. */
  function Latest(log: seq<Entry>, t: nat): int {
    if log == [] then -1
    else if log[|log| - 1].thread == t then log[|log| - 1].index
    else Latest(log[..|log| - 1], t)
  }

  /** latest is the thread's latest pick. Until the workload of a round, it is in index;
      from then on base is its cabin. */
  predicate WorkerInv(w: Worker, shared: int, picks: nat, latest: int, args: Args) {
    && w.rounds <= args.roundMax
    && (!w.pc.LockIndex? ==> w.rounds < args.roundMax)
    && picks == w.rounds + (if w.pc.UnlockIndex? || w.pc.ReadCabin? then 1 else 0)
    && (w.pc.LoadIndex? || w.pc.StoreIndex? ==> w.index == shared)
    && (w.pc.StoreIndex? ==> w.reg == shared)
    && (w.pc.UnlockIndex? || w.pc.ReadCabin? ==> w.index == latest)
    && (picks > 0 ==> 0 <= latest < |args.cabin|)
    && (!w.pc.UnlockIndex? && !w.pc.ReadCabin? && picks > 0 ==> w.base == args.cabin[latest])
  }

  /** The shared index and the log, against the number of picks. */
  ghost predicate LogInv(s: State, args: Args) {
    && args.cabin != []
    && s.shared == |s.log| % |args.cabin|
    && (forall i :: 0 <= i < |s.log| ==> s.log[i].index == i % |args.cabin|)
    && |s.log| == Sum(s.picks)
  }

  predicate LockInv(s: State) {
    && (forall t :: 0 <= t < |s.workers| ==> (InLock(s.workers[t].pc) <==> s.lock == HeldBy(t)))
    && (s.lock.HeldBy? ==> s.lock.thread < |s.workers|)
  }

  predicate WorkerAt(s: State, t: nat, args: Args)
    requires t < |s.workers| == |s.picks|
  {
    WorkerInv(s.workers[t], s.shared, s.picks[t], Latest(s.log, t), args)
  }

  predicate WorkersInv(s: State, args: Args) {
    && |s.picks| == |s.workers|
    && forall t: nat :: t < |s.workers| ==> WorkerAt(s, t, args)
  }

  /** Only threads past the barrier have left their starting point. */
  ghost predicate GateInv(s: State, n: nat) {
    && B.Inv(s.b, n)
    && |s.workers| == n
    && (forall t: nat :: t < n && !s.b.pc[t].Passed? ==> s.workers[t].pc.LockIndex?)
    && (s.log != [] ==> exists t: nat :: t < n && s.b.pc[t].Passed?)
  }

  ghost predicate Inv(s: State, n: nat, args: Args) {
    LogInv(s, args) && LockInv(s) && WorkersInv(s, args) && GateInv(s, n)
  }

  lemma InitInv(n: nat, args: Args)
    requires args.cabin != []
    ensures Inv(Init(n), n, args)
  {
    B.InitInv(n);
    SumConstant(Init(n).picks, 0);
  }

  lemma NextIndex(t: nat, c: nat)
    requires c > 0
    ensures (t % c + 1) % c == (t + 1) % c
  {
    var q, r := t / c, t % c;
    assert t == q * c + r;
    if r + 1 == c {
      assert t + 1 == (q + 1) * c;
      DivisionIs(t + 1, c, q + 1);
    } else {
      DivisionIs(t + 1, c, q);
    }
  }

  lemma Euclid(x: nat, c: nat)
    requires c > 0
    ensures x == (x / c) * c + x % c && 0 <= x % c < c
  {
  }

  /** Division and remainder, by their defining bounds. */
  lemma DivisionIs(x: nat, c: nat, q: nat)
    requires c > 0 && q * c <= x < q * c + c
    ensures x / c == q && x % c == x - q * c
  {
    var d, r := x / c, x % c;
    Euclid(x, c);
    if d < q {
      MulMonotone(d, q, c);
    } else if d > q {
      MulMonotone(q, d, c);
    }
  }

  lemma StoreKeepsLog(s: State, t: nat, args: Args)
    requires LogInv(s, args) && WorkersInv(s, args)
    requires t < |s.workers| && s.workers[t].pc.StoreIndex?
    ensures LogInv(Pick(s, t, args), args)
  {
    assert WorkerAt(s, t, args);
    NextIndex(|s.log|, |args.cabin|);
    SumUpdate(s.picks, t, s.picks[t] + 1);
  }

  lemma LatestAppend(log: seq<Entry>, e: Entry, t: nat)
    ensures Latest(log + [e], t) == if e.thread == t then e.index else Latest(log, t)
  {
    assert (log + [e])[..|log|] == log;
  }

  lemma PickKeepsOwn(s: State, t: nat, args: Args)
    requires args.cabin != [] && t < |s.workers| == |s.picks| && WorkerAt(s, t, args)
    requires s.workers[t].pc.StoreIndex? ==> 0 <= s.shared < |args.cabin|
    ensures WorkerAt(Pick(s, t, args), t, args)
  {
    LatestAppend(s.log, Entry(t, s.workers[t].index), t);
  }

  /** Under the lock, no other thread has read the index that the store changes. */
  lemma PickKeepsOther(s: State, t: nat, u: nat, args: Args)
    requires args.cabin != [] && t < |s.workers| == |s.picks| && u < |s.workers| && u != t
    requires LockInv(s) && WorkerAt(s, u, args)
    ensures WorkerAt(Pick(s, t, args), u, args)
  {
    LatestAppend(s.log, Entry(t, s.workers[t].index), u);
    assert InLock(s.workers[t].pc) ==> !InLock(s.workers[u].pc);
  }

  lemma PickKeepsWorkers(s: State, t: nat, args: Args)
    requires LogInv(s, args) && LockInv(s) && WorkersInv(s, args) && t < |s.workers|
    ensures WorkersInv(Pick(s, t, args), args)
  {
    forall u: nat | u < |s.workers|
      ensures WorkerAt(Pick(s, t, args), u, args)
    {
      assert WorkerAt(s, u, args);
      if u == t {
        PickKeepsOwn(s, t, args);
      } else {
        PickKeepsOther(s, t, u, args);
      }
    }
  }

  lemma PickKeepsLock(s: State, t: nat, args: Args)
    requires LockInv(s) && args.cabin != [] && t < |s.workers| == |s.picks|
    ensures LockInv(Pick(s, t, args))
  {
  }

  lemma PickKeepsGate(s: State, t: nat, n: nat, args: Args)
    requires GateInv(s, n) && args.cabin != [] && t < n == |s.picks| && s.b.pc[t].Passed?
    ensures GateInv(Pick(s, t, args), n)
  {
  }

  lemma PickKeepsLog(s: State, t: nat, args: Args)
    requires LogInv(s, args) && WorkersInv(s, args) && t < |s.workers|
    ensures LogInv(Pick(s, t, args), args)
  {
    if s.workers[t].pc.StoreIndex? {
      StoreKeepsLog(s, t, args);
    }
  }

  lemma PickKeepsInv(s: State, t: nat, n: nat, args: Args)
    requires Inv(s, n, args) && t < n && s.b.pc[t].Passed?
    ensures Inv(Pick(s, t, args), n, args)
  {
    PickKeepsWorkers(s, t, args);
    PickKeepsLock(s, t, args);
    PickKeepsGate(s, t, n, args);
    PickKeepsLog(s, t, args);
  }

  lemma BarrierKeepsInv(s: State, b': B.State, n: nat, args: Args)
    requires Inv(s, n, args) && B.Inv(b', n)
    requires forall u: nat :: u < n && s.b.pc[u].Passed? ==> b'.pc[u].Passed?
    ensures Inv(s.(b := b'), n, args)
  {
    forall t: nat | t < n
      ensures WorkerAt(s.(b := b'), t, args)
    {
      assert WorkerAt(s, t, args);
    }
  }

  lemma StepKeepsInv(s: State, e: B.Event, n: nat, args: Args)
    requires Inv(s, n, args)
    ensures Inv(Step(s, e, args), n, args)
  {
    if e.thread < n {
      if s.b.pc[e.thread].Passed? && e.Run? {
        PickKeepsInv(s, e.thread, n, args);
      } else {
        B.StepKeepsInv(s.b, e, n);
        BarrierKeepsInv(s, B.Step(s.b, e), n, args) by {
          forall u: nat | u < n && s.b.pc[u].Passed?
            ensures B.Step(s.b, e).pc[u].Passed?
          {
            B.PassedStays(s.b, e, u);
          }
        }
      }
    }
  }

  lemma {:induction false} ExecKeepsInv(s: State, sched: seq<B.Event>, n: nat, args: Args)
    requires Inv(s, n, args)
    ensures Inv(Exec(s, sched, args), n, args)
    decreases |sched|
  {
    if sched == [] {
    } else {
      StepKeepsInv(s, sched[0], n, args);
      ExecKeepsInv(Step(s, sched[0], args), sched[1..], n, args);
    }
  }

  // ----- What the dispatch promises -----

  /** No index is picked before all n threads have reached the barrier. */
  lemma NoPickBeforeAllArrive(n: nat, args: Args, sched: seq<B.Event>, u: nat)
    requires args.cabin != [] && u < n
    requires Exec(Init(n), sched, args).log != []
    ensures !B.NotCounted(Exec(Init(n), sched, args).b.pc[u])
  {
    InitInv(n, args);
    ExecKeepsInv(Init(n), sched, n, args);
    var b := Exec(Init(n), sched, args).b;
    var t: nat :| t < n && b.pc[t].Passed?;
    assert B.At(b, t, B.Unlock, B.Passed);
    assert u !in B.Before(b);
  }

  lemma LogHolds(n: nat, args: Args, sched: seq<B.Event>)
    requires args.cabin != []
    ensures LogInv(Exec(Init(n), sched, args), args)
  {
    InitInv(n, args);
    ExecKeepsInv(Init(n), sched, n, args);
  }

  /** The t-th pick overall gets index t mod cnt, whoever makes it. */
  lemma RoundRobin(n: nat, args: Args, sched: seq<B.Event>, i: nat)
    requires args.cabin != [] && i < |Exec(Init(n), sched, args).log|
    ensures Exec(Init(n), sched, args).log[i].index == i % |args.cabin|
  {
    LogHolds(n, args, sched);
  }

  /** A thread that has completed a round has worked on the cabin of its latest pick. */
  lemma WorksOnItsPick(n: nat, args: Args, sched: seq<B.Event>, t: nat)
    requires args.cabin != [] && t < n
    requires var w := Exec(Init(n), sched, args).workers[t]; w.pc.LockIndex? && w.rounds > 0
    ensures var s := Exec(Init(n), sched, args);
      0 <= Latest(s.log, t) < |args.cabin| && s.workers[t].base == args.cabin[Latest(s.log, t)]
  {
    InitInv(n, args);
    ExecKeepsInv(Init(n), sched, n, args);
    var s := Exec(Init(n), sched, args);
    assert WorkerAt(s, t, args);
  }

  /** Every read of the cabin is in bounds, so line 214 is never skipped. */
  lemma CabinInBounds(n: nat, args: Args, sched: seq<B.Event>, t: nat)
    requires args.cabin != [] && t < n
    requires Exec(Init(n), sched, args).workers[t].pc.ReadCabin?
    ensures 0 <= Exec(Init(n), sched, args).workers[t].index < |args.cabin|
  {
    InitInv(n, args);
    ExecKeepsInv(Init(n), sched, n, args);
    var s := Exec(Init(n), sched, args);
    assert WorkerAt(s, t, args);
  }

  function Uses(log: seq<Entry>, j: int): nat {
    if log == [] then 0
    else Uses(log[..|log| - 1], j) + (if log[|log| - 1].index == j then 1 else 0)
  }

  lemma RoundedUp(t: nat, c: nat, d: nat)
    requires d <= c && c > 0
    ensures (t + c - d) / c == t / c + (if t % c >= d then 1 else 0)
  {
    var q, r := t / c, t % c;
    Euclid(t, c);
    assert (q + 1) * c == q * c + c;
    DivisionIs(t + c - d, c, if r >= d then q + 1 else q);
  }

  lemma OneMoreUse(t: nat, c: nat, j: nat)
    requires j < c
    ensures (t + 1 + c - 1 - j) / c == (t + c - 1 - j) / c + (if t % c == j then 1 else 0)
  {
    RoundedUp(t, c, j + 1);
    RoundedUp(t, c, j);
  }

  lemma {:induction false} UsesOfRoundRobin(log: seq<Entry>, j: nat, c: nat)
    requires j < c
    requires forall i :: 0 <= i < |log| ==> log[i].index == i % c
    ensures Uses(log, j) == (|log| + c - 1 - j) / c
  {
    if log == [] {
      DivisionIs(c - 1 - j, c, 0);
    } else {
      UsesOfRoundRobin(log[..|log| - 1], j, c);
      OneMoreUse(|log| - 1, c, j);
    }
  }

  /** After T picks the index j has been used exactly (T + cnt - 1 - j) / cnt times. */
  lemma FairUse(n: nat, args: Args, sched: seq<B.Event>, j: nat)
    requires j < |args.cabin|
    ensures var log := Exec(Init(n), sched, args).log;
      Uses(log, j) == (|log| + |args.cabin| - 1 - j) / |args.cabin|
  {
    LogHolds(n, args, sched);
    UsesOfRoundRobin(Exec(Init(n), sched, args).log, j, |args.cabin|);
  }

  predicate Finished(s: State, args: Args) {
    forall t :: 0 <= t < |s.workers| ==> s.workers[t].rounds == args.roundMax
  }

  /** When all threads have finished, n * rounds indices have been picked, and the shared
      index stands at n * rounds mod cnt. */
  lemma FinalIndex(n: nat, args: Args, sched: seq<B.Event>)
    requires args.cabin != []
    requires Finished(Exec(Init(n), sched, args), args)
    ensures var s := Exec(Init(n), sched, args);
      |s.log| == n * args.roundMax && s.shared == (n * args.roundMax) % |args.cabin|
  {
    InitInv(n, args);
    ExecKeepsInv(Init(n), sched, n, args);
    FinishedLog(Exec(Init(n), sched, args), n, args);
  }

  lemma FinishedLog(s: State, n: nat, args: Args)
    requires Inv(s, n, args) && Finished(s, args)
    ensures |s.log| == n * args.roundMax
  {
    forall t: nat | t < n
      ensures s.picks[t] == args.roundMax
    {
      assert WorkerAt(s, t, args);
    }
    SumConstant(s.picks, args.roundMax);
  }

  lemma PickMoves(s: State, t: nat, n: nat, args: Args)
    requires Inv(s, n, args) && t < n
    requires s.lock == HeldBy(t) || (s.lock.Free? && s.workers[t].rounds != args.roundMax)
    ensures Pick(s, t, args) != s
  {
    assert WorkerAt(s, t, args);
  }

  /** Every thread is past the barrier and has done all its rounds. */
  predicate AllDone(s: State, args: Args) {
    (forall t :: 0 <= t < |s.b.pc| ==> s.b.pc[t].Passed?) && Finished(s, args)
  }

  lemma UndoneMoves(s: State, n: nat, args: Args) returns (e: B.Event)
    requires Inv(s, n, args) && !AllDone(s, args)
    ensures e.Run? && Step(s, e, args) != s
  {
    if u: nat :| u < n && !s.b.pc[u].Passed? {
      var r := B.SomebodyRunnable(s.b, n, u);
      var wake := B.RunnableMoves(s.b, r, n);
      e := B.Run(r, wake);
    } else {
      var t: nat :| t < n && s.workers[t].rounds != args.roundMax;
      if s.lock.HeldBy? {
        t := s.lock.thread;
      }
      e := B.Run(t, 0);
      PickMoves(s, t, n, args);
    }
  }

  /** No deadlock: until all rounds are done, some event moves the system. */
  lemma SomebodyMoves(n: nat, args: Args, sched: seq<B.Event>) returns (e: B.Event)
    requires args.cabin != []
    requires !Finished(Exec(Init(n), sched, args), args)
    ensures Step(Exec(Init(n), sched, args), e, args) != Exec(Init(n), sched, args)
  {
    InitInv(n, args);
    ExecKeepsInv(Init(n), sched, n, args);
    e := UndoneMoves(Exec(Init(n), sched, args), n, args);
  }

  // ----- Termination -----

  function Offset(pc: PC): nat {
    match pc
    case LockIndex => 0
    case ReadIndex => 1
    case LoadIndex => 2
    case StoreIndex => 3
    case UnlockIndex => 4
    case ReadCabin => 5
  }

  /** The instructions of the round loop that a thread still has to execute. */
  function Ahead(w: Worker, roundMax: nat): int {
    6 * (roundMax - w.rounds) - Offset(w.pc)
  }

  function AllAhead(workers: seq<Worker>, roundMax: nat): int {
    if workers == [] then 0 else Ahead(workers[0], roundMax) + AllAhead(workers[1..], roundMax)
  }

  lemma {:induction false} AllAheadUpdate(workers: seq<Worker>, t: nat, w: Worker, roundMax: nat)
    requires t < |workers|
    ensures AllAhead(workers[t := w], roundMax) ==
      AllAhead(workers, roundMax) - Ahead(workers[t], roundMax) + Ahead(w, roundMax)
  {
    if t == 0 {
      assert workers[t := w][1..] == workers[1..];
    } else {
      assert workers[t := w][1..] == workers[1..][t - 1 := w];
      AllAheadUpdate(workers[1..], t - 1, w, roundMax);
    }
  }

  lemma {:induction false} AllAheadAtStart(k: nat, roundMax: nat)
    ensures AllAhead(seq(k, _ => Worker(LockIndex, 0, 0, 0, 0)), roundMax) == k * (6 * roundMax)
  {
    if k == 0 {
    } else {
      assert seq(k, _ => Worker(LockIndex, 0, 0, 0, 0))[1..] == seq(k - 1, _ => Worker(LockIndex, 0, 0, 0, 0));
      AllAheadAtStart(k - 1, roundMax);
    }
  }

  lemma {:induction false} AllAheadNatural(workers: seq<Worker>, roundMax: nat)
    requires forall t :: 0 <= t < |workers| ==> Ahead(workers[t], roundMax) >= 0
    ensures AllAhead(workers, roundMax) >= 0
  {
    if workers == [] {
    } else {
      AllAheadNatural(workers[1..], roundMax);
    }
  }

  function Measure(s: State, args: Args): int {
    B.Measure(s.b.pc, |s.b.pc|) + AllAhead(s.workers, args.roundMax)
  }

  lemma MeasureNatural(s: State, n: nat, args: Args)
    requires Inv(s, n, args)
    ensures Measure(s, args) >= 0
  {
    forall t: nat | t < n
      ensures Ahead(s.workers[t], args.roundMax) >= 0
    {
      assert WorkerAt(s, t, args);
    }
    AllAheadNatural(s.workers, args.roundMax);
  }

  lemma PickAdvances(s: State, t: nat, args: Args)
    requires args.cabin != [] && t < |s.workers| == |s.picks| && Pick(s, t, args) != s
    ensures var w := Pick(s, t, args).workers[t];
      Pick(s, t, args).workers == s.workers[t := w] && Ahead(w, args.roundMax) == Ahead(s.workers[t], args.roundMax) - 1
  {
  }

  lemma PickDecreases(s: State, t: nat, args: Args)
    requires args.cabin != [] && t < |s.workers| == |s.picks| && Pick(s, t, args) != s
    ensures Measure(Pick(s, t, args), args) == Measure(s, args) - 1
  {
    PickAdvances(s, t, args);
    AllAheadUpdate(s.workers, t, Pick(s, t, args).workers[t], args.roundMax);
  }

  /** Every instruction that changes anything lowers the measure; a spurious wake-up raises
      it by five at most. */
  lemma StepDecreases(s: State, e: B.Event, n: nat, args: Args)
    requires Inv(s, n, args)
    ensures e.Run? && Step(s, e, args) != s ==> Measure(Step(s, e, args), args) < Measure(s, args)
    ensures e.Spurious? ==> Measure(Step(s, e, args), args) <= Measure(s, args) + 5
  {
    var t := e.thread;
    if t < n && Step(s, e, args) != s {
      if e.Spurious? {
        B.MeasureUpdate(s.b.pc, t, B.Relock, n);
      } else if s.b.pc[t].Passed? {
        PickDecreases(s, t, args);
      } else {
        B.RunDecreases(s.b, t, e.wake);
      }
    }
  }

  /** The instructions of a run that changed anything. */
  function Moves(s: State, sched: seq<B.Event>, args: Args): nat
    requires args.cabin != []
    decreases |sched|
  {
    if sched == [] then 0
    else (if sched[0].Run? && Step(s, sched[0], args) != s then 1 else 0)
         + Moves(Step(s, sched[0], args), sched[1..], args)
  }

  lemma {:induction false} MovesBounded(s: State, sched: seq<B.Event>, n: nat, args: Args)
    requires Inv(s, n, args)
    ensures Moves(s, sched, args) <= Measure(s, args) + 5 * B.Spuriouses(sched)
    decreases |sched|
  {
    if sched == [] {
      MeasureNatural(s, n, args);
    } else {
      StepKeepsInv(s, sched[0], n, args);
      StepDecreases(s, sched[0], n, args);
      MovesBounded(Step(s, sched[0], args), sched[1..], n, args);
    }
  }

  ghost predicate NoMoves(s: State, args: Args)
    requires args.cabin != []
  {
    forall e: B.Event :: e.Run? ==> Step(s, e, args) == s
  }

  lemma QuietIffAllDone(s: State, n: nat, args: Args)
    requires Inv(s, n, args)
    ensures NoMoves(s, args) <==> AllDone(s, args)
  {
    if !AllDone(s, args) {
      var e := UndoneMoves(s, n, args);
    } else {
      forall t: nat | t < n
        ensures Pick(s, t, args) == s
      {
        assert WorkerAt(s, t, args);
      }
    }
  }

  /** Every run ends: it has at most n(8+5n) + 6n * rounds effective instructions, plus 5
      per spurious wake-up, and the runs that no instruction can continue are those in
      which every thread has passed the barrier and done all its rounds. */
  lemma EveryMaximalRunFinishes(n: nat, args: Args, sched: seq<B.Event>)
    requires args.cabin != []
    ensures Moves(Init(n), sched, args) <= n * (8 + 5 * n) + n * (6 * args.roundMax) + 5 * B.Spuriouses(sched)
    ensures var s := Exec(Init(n), sched, args);
      && (NoMoves(s, args) <==> AllDone(s, args))
      && (NoMoves(s, args) ==> |s.log| == n * args.roundMax)
  {
    InitInv(n, args);
    MovesBounded(Init(n), sched, n, args);
    B.InitMeasure(n, n);
    AllAheadAtStart(n, args.roundMax);
    ExecKeepsInv(Init(n), sched, n, args);
    var s := Exec(Init(n), sched, args);
    QuietIffAllDone(s, n, args);
    if NoMoves(s, args) {
      FinalIndex(n, args, sched);
    }
  }

  lemma {:induction false} CanFinish(s: State, n: nat, args: Args) returns (sched: seq<B.Event>)
    requires Inv(s, n, args)
    ensures Inv(Exec(s, sched, args), n, args) && AllDone(Exec(s, sched, args), args)
    decreases Measure(s, args)
  {
    if AllDone(s, args) {
      sched := [];
    } else {
      var e := UndoneMoves(s, n, args);
      StepKeepsInv(s, e, n, args);
      StepDecreases(s, e, n, args);
      MeasureNatural(s, n, args);
      var rest := CanFinish(Step(s, e, args), n, args);
      sched := [e] + rest;
      assert sched[1..] == rest;
    }
  }

  /** Every run can be continued until all rounds are done and n * rounds indices picked. */
  lemma EveryRunCanFinish(n: nat, args: Args, sched: seq<B.Event>) returns (more: seq<B.Event>)
    requires args.cabin != []
    ensures var s := Exec(Exec(Init(n), sched, args), more, args);
      AllDone(s, args) && |s.log| == n * args.roundMax
  {
    InitInv(n, args);
    ExecKeepsInv(Init(n), sched, n, args);
    more := CanFinish(Exec(Init(n), sched, args), n, args);
    FinishedLog(Exec(Exec(Init(n), sched, args), more, args), n, args);
  }

  // ----- The code of a round, on the shared variables -----

  class Dispatcher {
    var shared: int
    var lock: Owner
    var workers: seq<Worker>
    ghost var log: seq<Entry>
    ghost var picks: seq<nat>
    const cabin: array<int>
    const roundMax: nat

    ghost function View(b: B.State): State
      reads this
    {
      State(b, shared, lock, workers, log, picks)
    }

    constructor (n: nat, cabin: array<int>, roundMax: nat)
      ensures View(B.Init(n)) == Init(n)
      ensures this.cabin == cabin && this.roundMax == roundMax
    {
      shared, lock := 0, Free;
      workers := seq(n, _ => Worker(LockIndex, 0, 0, 0, 0));
      log, picks := [], seq(n, _ => 0);
      this.cabin, this.roundMax := cabin, roundMax;
    }

    /** One instruction of the round loop in a thread that has passed the barrier. The
        invariant of its worker is what makes the read of the cabin safe. */
    method Instruction(t: nat, ghost b: B.State)
      requires cabin.Length > 0 && t < |workers| == |picks|
      requires WorkerInv(workers[t], shared, picks[t], Latest(log, t), Args(roundMax, cabin[..]))
      modifies this
      ensures View(b) == Pick(old(View(b)), t, Args(roundMax, cabin[..]))
    {
      var me := workers[t];
      match me.pc {
        case LockIndex =>
          if me.rounds < roundMax && lock.Free? {
            lock := HeldBy(t);
            me := me.(pc := ReadIndex);
          }
        case ReadIndex =>
          me := me.(index := shared, pc := LoadIndex);
        case LoadIndex =>
          me := me.(reg := shared, pc := StoreIndex);
        case StoreIndex =>
          shared := (me.reg + 1) % cabin.Length;
          log, picks := log + [Entry(t, me.index)], picks[t := picks[t] + 1];
          me := me.(pc := UnlockIndex);
        case UnlockIndex =>
          lock := Free;
          me := me.(pc := ReadCabin);
        case ReadCabin =>
          me := me.(base := cabin[me.index], rounds := me.rounds + 1, pc := LockIndex);
      }
      workers := workers[t := me];
    }
  }
}
