/** How main() lays the threads out: k threads pinned to each of p cores. */
module Layout {
  import opened Arithmetic

  /** Slots are filled row by row, one column per core. */
  function CoreOf(t: nat, p: nat): (c: nat)
    requires p > 0
    ensures c < p
  {
    if t < p then t else CoreOf(t - p, p)
  }

  function RowOf(t: nat, p: nat): nat
    requires p > 0
  {
    if t < p then 0 else 1 + RowOf(t - p, p)
  }

  lemma {:induction false} SlotOf(i: nat, j: nat, p: nat)
    requires j < p
    ensures CoreOf(i * p + j, p) == j && RowOf(i * p + j, p) == i
  {
    if i == 0 {
    } else {
      assert i * p + j == (i - 1) * p + j + p;
      assert (i - 1) * p >= 0;
      SlotOf(i - 1, j, p);
    }
  }

  /** Slots and (row, core) pairs are in one-to-one correspondence, so every core gets
      exactly the k threads i * p + c. */
  lemma {:induction false} SlotIsUnique(t: nat, p: nat)
    requires p > 0
    ensures t == RowOf(t, p) * p + CoreOf(t, p)
  {
    if t < p {
    } else {
      SlotIsUnique(t - p, p);
      assert RowOf(t, p) * p == RowOf(t - p, p) * p + p;
    }
  }

  /** The nested creation loops of main(): every slot gets one thread, pinned to the core
      of its column, with the first priority for the first half of the rows. */
  method Create(k: nat, p: nat, prio: (int, int)) returns (core: array<nat>, s32prio: array<int>)
    requires p > 0
    ensures core.Length == s32prio.Length == k * p
    ensures forall t: nat :: t < k * p ==> core[t] == CoreOf(t, p)
    ensures forall t: nat :: t < k * p ==> s32prio[t] == if RowOf(t, p) < k / 2 then prio.0 else prio.1
  {
    var n := k * p;
    core, s32prio := new nat[n], new int[n];
    var i := 0;
    ghost var filled := 0;
    while i < k
      invariant i <= k && filled == i * p && filled <= n
      invariant forall t: nat :: t < filled ==> core[t] == CoreOf(t, p)
      invariant forall t: nat :: t < filled ==> s32prio[t] == if RowOf(t, p) < k / 2 then prio.0 else prio.1
    {
      MulMonotone(i, k, p);
      CreateRow(core, s32prio, i, k, p, prio);
      assert (i + 1) * p == filled + p;
      i, filled := i + 1, filled + p;
    }
  }

  /** The inner loop: row i of the layout. */
  method CreateRow(core: array<nat>, s32prio: array<int>, i: nat, k: nat, p: nat, prio: (int, int))
    requires p > 0 && core.Length == s32prio.Length && i * p + p <= core.Length
    modifies core, s32prio
    ensures forall t: nat :: t < i * p ==> core[t] == old(core[t]) && s32prio[t] == old(s32prio[t])
    ensures forall t: nat :: i * p <= t < i * p + p ==>
      core[t] == CoreOf(t, p) && s32prio[t] == if RowOf(t, p) < k / 2 then prio.0 else prio.1
  {
    ghost var start := i * p;
    var j := 0;
    while j < p
      invariant j <= p
      invariant forall t: nat :: t < start ==> core[t] == old(core[t]) && s32prio[t] == old(s32prio[t])
      invariant forall t: nat :: start <= t < start + j ==>
        core[t] == CoreOf(t, p) && s32prio[t] == if RowOf(t, p) < k / 2 then prio.0 else prio.1
    {
      SlotOf(i, j, p);
      var idx := i * p + j;
      s32prio[idx] := if i < k / 2 then prio.0 else prio.1;
      core[idx] := j;
      j := j + 1;
    }
  }
}

/** First in, first out, said of a queue before and after an event. */
module FifoOrder {

  predicate Distinct(q: seq<nat>) {
    forall i, j :: 0 <= i < j < |q| ==> q[i] != q[j]
  }

  lemma DistinctAppend(a: seq<nat>, b: seq<nat>)
    requires Distinct(a) && Distinct(b) && forall u :: u in b ==> u !in a
    ensures Distinct(a + b)
  {
    forall i, j | 0 <= i < j < |a + b|
      ensures (a + b)[i] != (a + b)[j]
    {
      if i < |a| <= j {
        assert (a + b)[i] in a && (a + b)[j] in b;
      }
    }
  }

  predicate Before(q: seq<nat>, u: nat, v: nat) {
    exists i, j :: 0 <= i < j < |q| && q[i] == u && q[j] == v
  }

  /** Threads that stay keep their order, and newcomers stand behind all that stay. */
  ghost predicate KeepsOrder(q: seq<nat>, q': seq<nat>) {
    && (forall u: nat, v: nat :: Before(q, u, v) && u in q' && v in q' ==> Before(q', u, v))
    && (forall u: nat, v: nat :: u in q && u in q' && v in q' && v !in q ==> Before(q', u, v))
  }

  lemma StaysThenJoins(q: seq<nat>, kept: seq<nat>, w: seq<nat>)
    requires Distinct(q) && (kept == q || (q != [] && kept == q[1..]))
    requires forall u :: u in w ==> u !in q
    ensures KeepsOrder(q, kept + w)
  {
    var d := |q| - |kept|;
    forall u: nat, v: nat | Before(q, u, v) && u in kept + w && v in kept + w
      ensures Before(kept + w, u, v)
    {
      var i, j :| 0 <= i < j < |q| && q[i] == u && q[j] == v;
      var k :| 0 <= k < |kept| && kept[k] == u;
      assert q[k + d] == u;
      assert (kept + w)[i - d] == u && (kept + w)[j - d] == v;
    }
    forall u: nat, v: nat | u in q && u in kept + w && v in kept + w && v !in q
      ensures Before(kept + w, u, v)
    {
      var i :| 0 <= i < |kept| && kept[i] == u;
      var j :| 0 <= j < |w| && w[j] == v;
      assert (kept + w)[i] == u && (kept + w)[|kept| + j] == v;
    }
  }
}

/** SCHED_FIFO with equal priorities: each core runs the head of its queue until that
    thread blocks or exits; created and woken threads go to the tail. Here with the spin
    barrier, whose threads never block. */
module FifoSpin {
  import opened Arithmetic
  import opened FifoOrder
  import opened Layout
  import B = SpinBarrier

  /** queue[c][0] is the thread running on core c. */
  datatype State = State(b: B.State, created: nat, queue: seq<seq<nat>>)

  /** main() creates the next thread, or core c executes one instruction. */
  datatype Event = Create | Run(core: nat)

  function Init(n: nat, p: nat): State {
    State(B.Init(n), 0, seq(p, _ => []))
  }

  function Step(s: State, e: Event, n: nat, p: nat): (s': State)
    requires p > 0
    ensures |s'.b.threads| == |s.b.threads|
  {
    match e
    case Create =>
      if s.created < n && CoreOf(s.created, p) < |s.queue| then
        var c := CoreOf(s.created, p);
        s.(created := s.created + 1, queue := s.queue[c := s.queue[c] + [s.created]])
      else s
    case Run(c) =>
      if c >= |s.queue| || s.queue[c] == [] || s.queue[c][0] >= |s.b.threads| then s
      else
        var t := s.queue[c][0];
        if s.b.threads[t].leaves > 0 then s.(queue := s.queue[c := s.queue[c][1..]])
        else s.(b := B.Step(s.b, t))
  }

  function Exec(s: State, sched: seq<Event>, n: nat, p: nat): (s': State)
    requires p > 0
    ensures |s'.b.threads| == |s.b.threads|
    decreases |sched|
  {
    if sched == [] then s else Exec(Step(s, sched[0], n, p), sched[1..], n, p)
  }

  /** The barrier has let somebody through, or is about to. */
  predicate Opened(s: State) {
    s.b.generation > 0 || exists t :: 0 <= t < |s.b.threads| && s.b.threads[t].leaves > 0
  }

  const FRESH: B.Thread := B.Thread(B.Outside, 0, 0, 0, 0)

  /** The first thread of a core never gives it up, so the second rows never start. */
  ghost predicate Inv(s: State, n: nat, p: nat) {
    && |s.b.threads| == n && |s.queue| == p
    && B.Inv(s.b)
    && !Opened(s)
    && (forall t: nat :: p <= t < n ==> s.b.threads[t] == FRESH)
    && (forall c: nat :: c < p && s.queue[c] != [] ==> s.queue[c][0] == c)
    && (forall c: nat :: c < p && c >= s.created ==> s.queue[c] == [])
    && (forall c: nat :: c < p && c < s.created ==> s.queue[c] != [])
  }

  lemma StepKeepsInv(s: State, e: Event, n: nat, p: nat)
    requires 0 < p < n && Inv(s, n, p)
    ensures Inv(Step(s, e, n, p), n, p)
  {
    var s' := Step(s, e, n, p);
    match e {
      case Create =>
        if s.created < n {
          assert s.created < p ==> CoreOf(s.created, p) == s.created;
        }
      case Run(c) =>
        if c < p && s.queue[c] != [] {
          var me := s.b.threads[c];
          assert B.ThreadInv(s.b.generation, s.b.passed, me);
          B.StepKeepsInv(s.b, c);
          assert s.b.threads[n - 1] == FRESH;
          assert !B.Resetting(s.b, c);
        }
    }
  }

  lemma {:induction false} ExecKeepsInv(s: State, sched: seq<Event>, n: nat, p: nat)
    requires 0 < p < n && Inv(s, n, p)
    ensures Inv(Exec(s, sched, n, p), n, p)
    decreases |sched|
  {
    if sched == [] {
    } else {
      StepKeepsInv(s, sched[0], n, p);
      ExecKeepsInv(Step(s, sched[0], n, p), sched[1..], n, p);
    }
  }

  /** With two or more threads per core the spin barrier never opens, in any run. */
  lemma NeverOpens(k: nat, p: nat, sched: seq<Event>)
    requires k >= 2 && p > 0
    ensures !Opened(Exec(Init(k * p, p), sched, k * p, p))
  {
    MulMonotone(1, k, p);
    B.InitInv(k * p);
    ExecKeepsInv(Init(k * p, p), sched, k * p, p);
  }

  ghost predicate QueuesInv(s: State, n: nat, p: nat) {
    && |s.queue| == p && |s.b.threads| == n && s.created <= n
    && forall c: nat :: c < p ==> Distinct(s.queue[c]) && forall u :: u in s.queue[c] ==> u < s.created
  }

  lemma StepKeepsQueues(s: State, e: Event, n: nat, p: nat)
    requires p > 0 && QueuesInv(s, n, p)
    ensures QueuesInv(Step(s, e, n, p), n, p)
  {
    var s' := Step(s, e, n, p);
    forall c: nat | c < p
      ensures Distinct(s'.queue[c]) && forall u :: u in s'.queue[c] ==> u < s'.created
    {
      var q := s.queue[c];
      assert Distinct(q);
      if s'.queue[c] != q && e.Create? {
        DistinctAppend(q, [s.created]);
      }
      forall u | u in s'.queue[c]
        ensures u < s'.created
      {
        assert u in q || u == s.created < s'.created;
      }
    }
  }

  lemma {:induction false} ExecKeepsQueues(s: State, sched: seq<Event>, n: nat, p: nat)
    requires p > 0 && QueuesInv(s, n, p)
    ensures QueuesInv(Exec(s, sched, n, p), n, p)
    decreases |sched|
  {
    if sched == [] {
    } else {
      StepKeepsQueues(s, sched[0], n, p);
      ExecKeepsQueues(Step(s, sched[0], n, p), sched[1..], n, p);
    }
  }

  lemma CreateKeepsOrder(s: State, n: nat, p: nat, c: nat)
    requires p > 0 && QueuesInv(s, n, p) && c < p
    ensures var q' := Step(s, Create, n, p).queue[c];
      s.queue[c] <= q' && KeepsOrder(s.queue[c], q')
  {
    var q := s.queue[c];
    StaysThenJoins(q, q, if Step(s, Create, n, p).queue[c] == q then [] else [s.created]);
    assert q + [] == q;
  }

  lemma RunKeepsOrder(s: State, d: nat, n: nat, p: nat, c: nat)
    requires p > 0 && QueuesInv(s, n, p) && c < p
    ensures var q, q' := s.queue[c], Step(s, Run(d), n, p).queue[c];
      KeepsOrder(q, q') && forall u: nat :: u in q && u < n ==> (u !in q' <==> d == c && u == q[0] && s.b.threads[u].leaves > 0)
    ensures var q, q' := s.queue[c], Step(s, Run(d), n, p).queue[c];
      q != [] && q[0] < n && s.b.threads[q[0]].leaves == 0 ==> q' == q
  {
    var q, q' := s.queue[c], Step(s, Run(d), n, p).queue[c];
    StaysThenJoins(q, q', []);
    assert q' + [] == q';
    assert q != [] ==> q == [q[0]] + q[1..];
  }

  /** First in, first out, and no preemption: in every reachable state, whatever happens next,
      only the running thread can leave its queue, and only once it has left the barrier; the
      others keep their order, and newcomers line up behind them. */
  lemma FirstInFirstOut(n: nat, p: nat, sched: seq<Event>, e: Event, c: nat)
    requires p > 0 && c < p
    ensures var s := Exec(Init(n, p), sched, n, p);
      var s' := Step(s, e, n, p);
      && |s.queue| == |s'.queue| == p
      && KeepsOrder(s.queue[c], s'.queue[c])
      && forall u: nat :: u in s.queue[c] && u < n ==>
           (u !in s'.queue[c] <==> e == Run(c) && u == s.queue[c][0] && s.b.threads[u].leaves > 0)
    ensures var s := Exec(Init(n, p), sched, n, p);
      var s' := Step(s, e, n, p);
      s.queue[c] != [] && s.queue[c][0] < n && s.b.threads[s.queue[c][0]].leaves == 0 ==>
        s'.queue[c] != [] && s'.queue[c][0] == s.queue[c][0]
  {
    ExecKeepsQueues(Init(n, p), sched, n, p);
    var s := Exec(Init(n, p), sched, n, p);
    StepKeepsQueues(s, e, n, p);
    match e {
      case Create => CreateKeepsOrder(s, n, p, c);
      case Run(d) => RunKeepsOrder(s, d, n, p, c);
    }
  }

  // ----- One thread per core: every fair run passes the barrier -----

  /** A core has its own thread until that has left the barrier and exited. */
  predicate CoreInv(s: State, c: nat)
    requires c < |s.queue| && c < |s.b.threads|
  {
    && (s.queue[c] == [] || s.queue[c] == [c])
    && (s.b.threads[c].leaves == 0 ==> s.queue[c] == if c < s.created then [c] else [])
    && (c >= s.created ==> s.b.threads[c].leaves == 0)
  }

  ghost predicate SoloInv(s: State, p: nat) {
    && |s.b.threads| == p && |s.queue| == p && s.created <= p
    && B.Inv(s.b)
    && (forall c: nat :: c < p ==> CoreInv(s, c))
  }

  lemma CreateKeepsCore(s: State, p: nat, d: nat)
    requires p > 0 && SoloInv(s, p) && d < p
    ensures CoreInv(Step(s, Create, p, p), d)
  {
    assert CoreInv(s, d);
    if s.created < p {
      assert CoreOf(s.created, p) == s.created && CoreInv(s, s.created);
      assert s.queue[s.created] + [s.created] == [s.created];
    }
  }

  lemma RunKeepsCore(s: State, c: nat, p: nat, d: nat)
    requires p > 0 && SoloInv(s, p) && d < p
    ensures CoreInv(Step(s, Run(c), p, p), d)
  {
    assert CoreInv(s, d);
    if c < p {
      assert CoreInv(s, c);
    }
  }

  lemma StepKeepsSolo(s: State, e: Event, p: nat)
    requires p > 0 && SoloInv(s, p)
    ensures SoloInv(Step(s, e, p, p), p)
  {
    forall d: nat | d < p
      ensures CoreInv(Step(s, e, p, p), d)
    {
      match e {
        case Create => CreateKeepsCore(s, p, d);
        case Run(c) => RunKeepsCore(s, c, p, d);
      }
    }
    if e.Run? && e.core < p {
      assert CoreInv(s, e.core);
      B.StepKeepsInv(s.b, e.core);
    }
  }

  lemma {:induction false} ExecKeepsSolo(s: State, sched: seq<Event>, p: nat)
    requires p > 0 && SoloInv(s, p)
    ensures SoloInv(Exec(s, sched, p, p), p) && Exec(s, sched, p, p).created >= s.created
    decreases |sched|
  {
    if sched == [] {
    } else {
      StepKeepsSolo(s, sched[0], p);
      ExecKeepsSolo(Step(s, sched[0], p, p), sched[1..], p);
    }
  }

  /** The cores that execute an instruction, in order. */
  function Cores(sched: seq<Event>): seq<nat> {
    if sched == [] then []
    else (if sched[0].Run? then [sched[0].core] else []) + Cores(sched[1..])
  }

  lemma CoresUnfold(sched: seq<Event>)
    requires sched != []
    ensures sched[0].Create? ==> Cores(sched) == Cores(sched[1..])
    ensures sched[0].Run? ==>
      Cores(sched) != [] && Cores(sched)[0] == sched[0].core && Cores(sched)[1..] == Cores(sched[1..])
  {
    assert [] + Cores(sched[1..]) == Cores(sched[1..]);
  }

  /** Every core executes at least three instructions. */
  predicate Generous(part: seq<Event>, p: nat) {
    B.Generous(Cores(part), p)
  }

  lemma NobodyLeftBeforeOpening(s: State, p: nat)
    requires SoloInv(s, p) && s.b.generation == 0
    ensures forall t: nat :: t < p ==> s.b.threads[t].leaves == 0
  {
    forall t: nat | t < p
      ensures s.b.threads[t].leaves == 0
    {
      assert B.ThreadInv(s.b.generation, s.b.passed, s.b.threads[t]);
    }
  }

  lemma StepGrowsGeneration(s: State, e: Event, p: nat)
    requires p > 0
    ensures Step(s, e, p, p).b.generation >= s.b.generation
  {
  }

  lemma {:induction false} GenerationGrows(s: State, sched: seq<Event>, p: nat)
    requires p > 0
    ensures Exec(s, sched, p, p).b.generation >= s.b.generation
    decreases |sched|
  {
    if sched == [] {
    } else {
      StepGrowsGeneration(s, sched[0], p);
      GenerationGrows(Step(s, sched[0], p, p), sched[1..], p);
    }
  }

  /** Until the barrier opens, each core runs its own thread: the run is a run of the
      barrier alone. */
  lemma {:induction false} RunsTheBarrier(s: State, sched: seq<Event>, p: nat)
    requires p > 0 && SoloInv(s, p) && s.created == p
    requires Exec(s, sched, p, p).b.generation == 0
    ensures Exec(s, sched, p, p).b == B.Exec(s.b, Cores(sched))
    decreases |sched|
  {
    if sched == [] {
    } else {
      var e := sched[0];
      var s' := Step(s, e, p, p);
      CoresUnfold(sched);
      StepKeepsSolo(s, e, p);
      StepGrowsGeneration(s, e, p);
      GenerationGrows(s', sched[1..], p);
      RunsTheBarrier(s', sched[1..], p);
      if e.Run? {
        if e.core < p {
          NobodyLeftBeforeOpening(s, p);
          assert CoreInv(s, e.core);
        }
        assert s'.b == B.Step(s.b, e.core);
      }
    }
  }

  /** Two generous stretches open the barrier. */
  lemma TwoStretchesOpen(s: State, a: seq<Event>, b: seq<Event>, p: nat)
    requires p > 0 && SoloInv(s, p) && s.created == p
    requires Generous(a, p) && Generous(b, p)
    ensures Exec(Exec(s, a, p, p), b, p, p).b.generation > 0
  {
    var s1 := Exec(s, a, p, p);
    ExecKeepsSolo(s, a, p);
    GenerationGrows(s1, b, p);
    if Exec(s1, b, p, p).b.generation == 0 {
      RunsTheBarrier(s, a, p);
      RunsTheBarrier(s1, b, p);
      B.RoundCompletes(s.b, Cores(a), Cores(b));
    }
  }

  /** In an open barrier the next turn of a thread inside lets it go. */
  lemma TurnLetsGo(s: State, e: Event, t: nat, p: nat)
    requires p > 0 && SoloInv(s, p) && s.created == p && s.b.generation > 0 && t < p
    ensures s.b.threads[t].leaves > 0 || e == Run(t) ==> Step(s, e, p, p).b.threads[t].leaves > 0
  {
    assert CoreInv(s, t) && B.ThreadInv(s.b.generation, s.b.passed, s.b.threads[t]);
    if e.Run? && e.core < p {
      assert CoreInv(s, e.core);
    }
  }

  lemma {:induction false} TurnsLetGo(s: State, sched: seq<Event>, t: nat, p: nat)
    requires p > 0 && SoloInv(s, p) && s.created == p && s.b.generation > 0 && t < p
    requires s.b.threads[t].leaves > 0 || B.Turns(Cores(sched), t) > 0
    ensures Exec(s, sched, p, p).b.threads[t].leaves > 0
    decreases |sched|
  {
    if sched == [] {
    } else {
      var e := sched[0];
      TurnLetsGo(s, e, t, p);
      StepKeepsSolo(s, e, p);
      StepGrowsGeneration(s, e, p);
      CoresUnfold(sched);
      TurnsLetGo(Step(s, e, p, p), sched[1..], t, p);
    }
  }

  predicate AllThrough(s: State) {
    forall t :: 0 <= t < |s.b.threads| ==> s.b.threads[t].leaves > 0
  }

  /** The state after main() has created all threads and the cores have had three generous
      stretches. */
  function AfterThree(k: nat, p: nat, sched: seq<Event>, a: seq<Event>, b: seq<Event>, c: seq<Event>): State
    requires p > 0
  {
    var n := k * p;
    Exec(Exec(Exec(Exec(Init(n, p), sched, n, p), a, n, p), b, n, p), c, n, p)
  }

  /** The cores may already run while main() is creating threads, in any order. */
  lemma SoloRunPasses(p: nat, sched: seq<Event>, a: seq<Event>, b: seq<Event>, c: seq<Event>)
    requires p > 0 && Exec(Init(p, p), sched, p, p).created == p
    requires Generous(a, p) && Generous(b, p) && Generous(c, p)
    ensures AllThrough(AfterThree(1, p, sched, a, b, c))
  {
    assert 1 * p == p;
    B.InitInv(p);
    var s0 := Exec(Init(p, p), sched, p, p);
    var s1 := Exec(s0, a, p, p);
    var s2 := Exec(s1, b, p, p);
    ExecKeepsSolo(Init(p, p), sched, p);
    ExecKeepsSolo(s0, a, p);
    ExecKeepsSolo(s1, b, p);
    ExecKeepsSolo(s2, c, p);
    TwoStretchesOpen(s0, a, b, p);
    forall t: nat | t < p
      ensures Exec(s2, c, p, p).b.threads[t].leaves > 0
    {
      TurnsLetGo(s2, c, t, p);
    }
  }

  lemma {:induction false} ExecAppend(s: State, a: seq<Event>, b: seq<Event>, n: nat, p: nat)
    requires p > 0
    ensures Exec(s, a + b, n, p) == Exec(Exec(s, a, n, p), b, n, p)
    decreases |a|
  {
    if a == [] {
      assert a + b == b;
    } else {
      ExecAppend(Step(s, a[0], n, p), a[1..], b, n, p);
      assert (a + b)[1..] == a[1..] + b;
    }
  }

  /** Under SCHED_FIFO, once main() has created all k * p threads, three stretches in which
      every core executes at least three instructions bring all of them through the spin
      barrier exactly when no core has two threads. */
  lemma FairRunPassesIff(k: nat, p: nat, sched: seq<Event>, a: seq<Event>, b: seq<Event>, c: seq<Event>)
    requires k > 0 && p > 0 && Exec(Init(k * p, p), sched, k * p, p).created == k * p
    requires Generous(a, p) && Generous(b, p) && Generous(c, p)
    ensures AllThrough(AfterThree(k, p, sched, a, b, c)) <==> k == 1
  {
    if k == 1 {
      assert k * p == p;
      SoloRunPasses(p, sched, a, b, c);
    } else {
      var n := k * p;
      MulMonotone(1, k, p);
      ExecAppend(Init(n, p), sched, a, n, p);
      ExecAppend(Init(n, p), sched + a, b, n, p);
      ExecAppend(Init(n, p), sched + a + b, c, n, p);
      NeverOpens(k, p, sched + a + b + c);
      B.InitInv(n);
      ExecKeepsInv(Init(n, p), sched + a + b + c, n, p);
      assert AfterThree(k, p, sched, a, b, c).b.threads[0].leaves == 0;
    }
  }

  ghost predicate CanOpen(k: nat, p: nat)
    requires p > 0
  {
    exists sched :: Opened(Exec(Init(k * p, p), sched, k * p, p))
  }

  /** Three instructions on each of the first p cores. */
  function Lap(p: nat): seq<Event> {
    if p == 0 then [] else [Run(p - 1)] + ([Run(p - 1)] + ([Run(p - 1)] + Lap(p - 1)))
  }

  lemma CoresOfRun(c: nat, sched: seq<Event>)
    ensures Cores([Run(c)] + sched) == [c] + Cores(sched)
    ensures forall t: nat :: B.Turns([c] + Cores(sched), t) == (if t == c then 1 else 0) + B.Turns(Cores(sched), t)
  {
    assert ([Run(c)] + sched)[1..] == sched;
    assert ([c] + Cores(sched))[1..] == Cores(sched);
  }

  lemma {:induction false} LapIsGenerous(p: nat)
    ensures Generous(Lap(p), p)
  {
    if p == 0 {
    } else {
      LapIsGenerous(p - 1);
      var rest := Lap(p - 1);
      CoresOfRun(p - 1, rest);
      CoresOfRun(p - 1, [Run(p - 1)] + rest);
      CoresOfRun(p - 1, [Run(p - 1)] + ([Run(p - 1)] + rest));
    }
  }

  lemma {:induction false} CreatesAll(s: State, m: nat, p: nat)
    requires p > 0 && |s.queue| == p && s.created + m == p
    ensures Exec(s, seq(m, _ => Create), p, p).created == p
    decreases m
  {
    if m == 0 {
    } else {
      assert seq(m, _ => Create)[1..] == seq(m - 1, _ => Create);
      CreatesAll(Step(s, Create, p, p), m - 1, p);
    }
  }

  lemma SoloCanOpen(p: nat)
    requires p > 0
    ensures CanOpen(1, p)
  {
    assert 1 * p == p;
    var all, lap := seq(p, _ => Create), Lap(p);
    CreatesAll(Init(p, p), p, p);
    LapIsGenerous(p);
    SoloRunPasses(p, all, lap, lap, lap);
    ExecAppend(Init(p, p), all, lap, p, p);
    ExecAppend(Init(p, p), all + lap, lap, p, p);
    ExecAppend(Init(p, p), all + lap + lap, lap, p, p);
    var s := Exec(Init(1 * p, p), all + lap + lap + lap, 1 * p, p);
    assert s == AfterThree(1, p, all, lap, lap, lap);
    assert s.b.threads[0].leaves > 0;
    assert Opened(s);
  }

  /** Under SCHED_FIFO the spin barrier can open exactly when no core has two threads. */
  lemma CanOpenIff(k: nat, p: nat)
    requires k > 0 && p > 0
    ensures CanOpen(k, p) <==> k == 1
  {
    if k >= 2 {
      forall sched
        ensures !Opened(Exec(Init(k * p, p), sched, k * p, p))
      {
        NeverOpens(k, p, sched);
      }
    } else {
      SoloCanOpen(p);
    }
  }
}

/** The same scheduler with the sleep barrier: a thread that blocks leaves its core. */
module FifoSleep {
  import opened FifoOrder
  import opened Layout
  import B = SleepBarrier

  /** queue[c][0] is the thread running on core c. */
  datatype State = State(b: B.State, created: nat, queue: seq<seq<nat>>)

  /** main() creates the next thread, or core c executes one instruction. wake is the
      thread a release of the mutex wakes; woken lists the threads that became runnable,
      in the order in which the kernel queues them. */
  datatype Event = Create | Run(core: nat, wake: nat, woken: seq<nat>)

  function Init(n: nat, p: nat): State {
    State(B.Init(n), 0, seq(p, _ => []))
  }

  predicate Awoke(b: B.State, b': B.State, u: nat) {
    u < |b.pc| == |b'.pc| && !B.Runnable(b.pc[u]) && B.Runnable(b'.pc[u])
  }

  /** woken is one of the orders in which the newly runnable threads may be queued. */
  ghost predicate Lists(woken: seq<nat>, b: B.State, b': B.State) {
    Distinct(woken) && forall u: nat :: u in woken <==> Awoke(b, b', u)
  }

  function OnCore(woken: seq<nat>, c: nat, p: nat): (r: seq<nat>)
    requires p > 0
  {
    if woken == [] then []
    else (if CoreOf(woken[0], p) == c then [woken[0]] else []) + OnCore(woken[1..], c, p)
  }

  /** The running thread leaves the head if it cannot go on; the woken go to the tails. */
  function Requeue(queue: seq<seq<nat>>, c: nat, goesOn: bool, woken: seq<nat>, p: nat): (q: seq<seq<nat>>)
    requires p > 0 && c < |queue| && queue[c] != []
    ensures |q| == |queue|
    ensures forall d: nat :: d < |q| ==>
      q[d] == (if d == c && !goesOn then queue[d][1..] else queue[d]) + OnCore(woken, d, p)
  {
    seq(|queue|, d requires 0 <= d < |queue| =>
      (if d == c && !goesOn then queue[d][1..] else queue[d]) + OnCore(woken, d, p))
  }

  ghost function Step(s: State, e: Event, n: nat, p: nat): (s': State)
    requires p > 0
    ensures |s'.b.pc| == |s.b.pc|
  {
    match e
    case Create =>
      if s.created < n && CoreOf(s.created, p) < |s.queue| then
        var c := CoreOf(s.created, p);
        s.(created := s.created + 1, queue := s.queue[c := s.queue[c] + [s.created]])
      else s
    case Run(c, wake, woken) =>
      if c >= |s.queue| || s.queue[c] == [] || s.queue[c][0] >= |s.b.pc| then s
      else
        var t := s.queue[c][0];
        var b' := B.Run1(s.b, t, wake);
        if b' != s.b && Lists(woken, s.b, b')
        then s.(b := b', queue := Requeue(s.queue, c, B.Runnable(b'.pc[t]), woken, p))
        else s
  }

  ghost function Exec(s: State, sched: seq<Event>, n: nat, p: nat): (s': State)
    requires p > 0
    ensures |s'.b.pc| == |s.b.pc|
    decreases |sched|
  {
    if sched == [] then s else Exec(Step(s, sched[0], n, p), sched[1..], n, p)
  }

  lemma {:induction false} OnCoreLists(woken: seq<nat>, c: nat, p: nat)
    requires p > 0
    ensures forall u: nat :: u in OnCore(woken, c, p) <==> u in woken && CoreOf(u, p) == c
    ensures Distinct(woken) ==> Distinct(OnCore(woken, c, p))
  {
    if woken == [] {
    } else {
      OnCoreLists(woken[1..], c, p);
      assert woken == [woken[0]] + woken[1..];
      assert Distinct(woken) ==> Distinct(woken[1..]) && woken[0] !in woken[1..];
    }
  }

  /** Each queue holds exactly the created, runnable threads pinned to its core. */
  ghost predicate QueueInv(s: State, c: nat, p: nat)
    requires p > 0 && c < |s.queue|
  {
    && Distinct(s.queue[c])
    && forall u: nat :: u in s.queue[c] <==>
         u < |s.b.pc| && u < s.created && CoreOf(u, p) == c && B.Runnable(s.b.pc[u])
  }

  ghost predicate Inv(s: State, n: nat, p: nat)
    requires p > 0
  {
    && B.Inv(s.b, n)
    && |s.queue| == p && s.created <= n
    && (forall t: nat :: s.created <= t < n ==> s.b.pc[t] == B.LockIt)
    && (forall c: nat :: c < p ==> QueueInv(s, c, p))
  }

  lemma CreateKeepsInv(s: State, n: nat, p: nat)
    requires p > 0 && Inv(s, n, p)
    ensures Inv(Step(s, Create, n, p), n, p)
  {
    if s.created < n {
      var s' := Step(s, Create, n, p);
      forall c: nat | c < p
        ensures QueueInv(s', c, p)
      {
        assert QueueInv(s, c, p);
      }
    }
  }

  /** A step of t blocks nobody but t. */
  lemma OthersStayRunnable(b: B.State, t: nat, wake: nat, u: nat, n: nat)
    requires B.Inv(b, n) && t < n && u < n && u != t
    requires B.Runnable(b.pc[t])
    ensures B.Runnable(b.pc[u]) ==> B.Run1(b, t, wake).pc[u] == b.pc[u]
  {
  }

  lemma RunKeepsQueue(s: State, e: Event, n: nat, p: nat, d: nat)
    requires p > 0 && Inv(s, n, p) && e.Run? && Step(s, e, n, p) != s && d < p
    ensures QueueInv(Step(s, e, n, p), d, p)
  {
    var s' := Step(s, e, n, p);
    var t := s.queue[e.core][0];
    var q, w := s.queue[d], OnCore(e.woken, d, p);
    var kept := if d == e.core && !B.Runnable(s'.b.pc[t]) then q[1..] else q;
    assert QueueInv(s, d, p) && QueueInv(s, e.core, p);
    assert t in s.queue[e.core];
    OnCoreLists(e.woken, d, p);
    assert s'.queue[d] == kept + w;
    forall u: nat
      ensures u in kept <==> u in q && !(u == t && !B.Runnable(s'.b.pc[t]))
    {
      if u in q && u != q[0] {
        var i :| 0 <= i < |q| && q[i] == u;
        assert q[1..][i - 1] == u;
      }
    }
    forall u: nat | u < n && u != t
      ensures B.Runnable(s.b.pc[u]) ==> B.Runnable(s'.b.pc[u])
    {
      OthersStayRunnable(s.b, t, e.wake, u, n);
    }
    assert forall u: nat :: u in w ==> Awoke(s.b, s'.b, u);
    DistinctAppend(kept, w);
    UncreatedStay(s, e, n, p);
  }

  lemma UncreatedStay(s: State, e: Event, n: nat, p: nat)
    requires p > 0 && Inv(s, n, p) && e.Run?
    ensures forall t: nat :: s.created <= t < n ==> Step(s, e, n, p).b.pc[t] == B.LockIt
  {
    var s' := Step(s, e, n, p);
    if s' != s {
      var t := s.queue[e.core][0];
      assert QueueInv(s, e.core, p) && t in s.queue[e.core];
      forall u: nat | s.created <= u < n
        ensures s'.b.pc[u] == B.LockIt
      {
        OthersStayRunnable(s.b, t, e.wake, u, n);
      }
    }
  }

  lemma StepKeepsInv(s: State, e: Event, n: nat, p: nat)
    requires p > 0 && Inv(s, n, p)
    ensures Inv(Step(s, e, n, p), n, p)
  {
    var s' := Step(s, e, n, p);
    if e.Create? {
      CreateKeepsInv(s, n, p);
    } else if s' != s {
      B.StepKeepsInv(s.b, B.Run(s.queue[e.core][0], e.wake), n);
      UncreatedStay(s, e, n, p);
      forall c: nat | c < p
        ensures QueueInv(s', c, p)
      {
        RunKeepsQueue(s, e, n, p, c);
      }
    }
  }

  lemma CreateJoinsTail(s: State, n: nat, p: nat, c: nat)
    requires p > 0 && Inv(s, n, p) && c < p
    ensures s.queue[c] <= Step(s, Create, n, p).queue[c] && KeepsOrder(s.queue[c], Step(s, Create, n, p).queue[c])
  {
    var q, q' := s.queue[c], Step(s, Create, n, p).queue[c];
    assert QueueInv(s, c, p);
    if q' == q {
      StaysThenJoins(q, q, []);
      assert q + [] == q;
    } else {
      StaysThenJoins(q, q, [s.created]);
    }
  }

  lemma RunKeepsOrder(s: State, e: Event, n: nat, p: nat, c: nat)
    requires p > 0 && Inv(s, n, p) && c < p && e.Run? && Step(s, e, n, p) != s
    ensures KeepsOrder(s.queue[c], Step(s, e, n, p).queue[c])
  {
    var s' := Step(s, e, n, p);
    var q, w := s.queue[c], OnCore(e.woken, c, p);
    assert QueueInv(s, c, p);
    OnCoreLists(e.woken, c, p);
    forall u | u in w
      ensures u !in q
    {
      assert Awoke(s.b, s'.b, u);
    }
    StaysThenJoins(q, if c == e.core && !B.Runnable(s'.b.pc[q[0]]) then q[1..] else q, w);
  }

  /** Only the running thread leaves, and only if it cannot go on. */
  lemma StepLeaves(s: State, e: Event, n: nat, p: nat, c: nat, u: nat)
    requires p > 0 && Inv(s, n, p) && c < p && u in s.queue[c] && u < n
    ensures u !in Step(s, e, n, p).queue[c] <==> u == s.queue[c][0] && !B.Runnable(Step(s, e, n, p).b.pc[u])
  {
    var s' := Step(s, e, n, p);
    StepKeepsInv(s, e, n, p);
    assert QueueInv(s, c, p) && QueueInv(s', c, p);
    if e.Run? && s' != s {
      var t := s.queue[e.core][0];
      assert QueueInv(s, e.core, p) && t in s.queue[e.core];
      if u != t {
        OthersStayRunnable(s.b, t, e.wake, u, n);
      }
    }
  }

  /** First in, first out, and no preemption: in every reachable state, whatever happens next,
      only the running thread can leave its queue, and only if it blocks or is past the
      barrier; the others keep their order, and newcomers line up behind them. */
  lemma FirstInFirstOut(n: nat, p: nat, sched: seq<Event>, e: Event, c: nat)
    requires p > 0 && c < p
    ensures var s := Exec(Init(n, p), sched, n, p);
      var s' := Step(s, e, n, p);
      && |s.queue| == |s'.queue| == p
      && KeepsOrder(s.queue[c], s'.queue[c])
      && forall u: nat :: u in s.queue[c] && u < n ==>
           (u !in s'.queue[c] <==> u == s.queue[c][0] && !B.Runnable(s'.b.pc[u]))
    ensures var s := Exec(Init(n, p), sched, n, p);
      var s' := Step(s, e, n, p);
      s.queue[c] != [] && s.queue[c][0] < n && B.Runnable(s'.b.pc[s.queue[c][0]]) ==>
        s'.queue[c] != [] && s'.queue[c][0] == s.queue[c][0]
  {
    MovesBounded(n, p, sched);
    var s := Exec(Init(n, p), sched, n, p);
    forall u: nat | u in s.queue[c] && u < n
      ensures u !in Step(s, e, n, p).queue[c] <==> u == s.queue[c][0] && !B.Runnable(Step(s, e, n, p).b.pc[u])
    {
      StepLeaves(s, e, n, p, c, u);
    }
    StepOrder(s, e, n, p, c);
  }

  lemma StepOrder(s: State, e: Event, n: nat, p: nat, c: nat)
    requires p > 0 && Inv(s, n, p) && c < p
    ensures var q, q' := s.queue[c], Step(s, e, n, p).queue[c];
      && KeepsOrder(q, q')
      && (q != [] && q[0] < n && B.Runnable(Step(s, e, n, p).b.pc[q[0]]) ==> q' != [] && q'[0] == q[0])
  {
    var s' := Step(s, e, n, p);
    var q := s.queue[c];
    assert QueueInv(s, c, p);
    if e.Create? {
      CreateJoinsTail(s, n, p, c);
    } else if s' == s {
      StaysThenJoins(q, q, []);
      assert q + [] == q;
    } else {
      RunKeepsOrder(s, e, n, p, c);
    }
  }

  /** What is still ahead: creations, and steps of the barrier. */
  function Measure(s: State, n: nat): int {
    n - s.created + B.Measure(s.b.pc, n)
  }

  lemma StepDecreases(s: State, e: Event, n: nat, p: nat)
    requires p > 0 && Inv(s, n, p) && Step(s, e, n, p) != s
    ensures Measure(Step(s, e, n, p), n) < Measure(s, n)
  {
    if e.Run? {
      B.RunDecreases(s.b, s.queue[e.core][0], e.wake);
    }
  }

  ghost function Moves(s: State, sched: seq<Event>, n: nat, p: nat): nat
    requires p > 0
    decreases |sched|
  {
    if sched == [] then 0
    else (if Step(s, sched[0], n, p) != s then 1 else 0) + Moves(Step(s, sched[0], n, p), sched[1..], n, p)
  }

  lemma {:induction false} ExecKeepsInv(s: State, sched: seq<Event>, n: nat, p: nat)
    requires p > 0 && Inv(s, n, p)
    ensures Inv(Exec(s, sched, n, p), n, p)
    ensures Moves(s, sched, n, p) + Measure(Exec(s, sched, n, p), n) <= Measure(s, n)
    decreases |sched|
  {
    if sched == [] {
    } else {
      StepKeepsInv(s, sched[0], n, p);
      if Step(s, sched[0], n, p) != s { StepDecreases(s, sched[0], n, p); }
      ExecKeepsInv(Step(s, sched[0], n, p), sched[1..], n, p);
    }
  }

  lemma InitInv(n: nat, p: nat)
    requires p > 0
    ensures Inv(Init(n, p), n, p)
  {
    B.InitInv(n);
  }

  /** Any finite set of threads can be listed. */
  lemma {:induction false} ListSet(a: set<nat>) returns (l: seq<nat>)
    ensures Distinct(l) && forall u: nat :: u in l <==> u in a
    decreases |a|
  {
    if a == {} {
      l := [];
    } else {
      var x :| x in a;
      var rest := ListSet(a - {x});
      l := [x] + rest;
      assert forall i :: 1 <= i < |l| ==> l[i] in rest;
    }
  }

  ghost predicate NoMoves(s: State, n: nat, p: nat)
    requires p > 0
  {
    forall e :: Step(s, e, n, p) == s
  }

  /** A core with a thread in its queue can execute an instruction. */
  lemma BusyCoreMoves(s: State, c: nat, n: nat, p: nat) returns (e: Event)
    requires p > 0 && Inv(s, n, p) && c < p && s.queue[c] != []
    ensures Step(s, e, n, p) != s
  {
    var t := s.queue[c][0];
    assert QueueInv(s, c, p) && t in s.queue[c];
    var wake := B.RunnableMoves(s.b, t, n);
    var b' := B.Run1(s.b, t, wake);
    B.StepKeepsMutex(s.b, B.Run(t, wake), n);
    var woken := ListSet(set u: nat | u < n && Awoke(s.b, b', u));
    e := Run(c, wake, woken);
    assert Lists(woken, s.b, b');
    assert Step(s, e, n, p).b == b';
  }

  /** While a thread has not passed, the system can move. */
  lemma UnpassedMoves(s: State, t: nat, n: nat, p: nat) returns (e: Event)
    requires p > 0 && Inv(s, n, p) && t < n && !s.b.pc[t].Passed?
    ensures Step(s, e, n, p) != s
  {
    if s.created < n {
      e := Create;
    } else {
      var u := B.SomebodyRunnable(s.b, n, t);
      assert QueueInv(s, CoreOf(u, p), p);
      assert u in s.queue[CoreOf(u, p)];
      e := BusyCoreMoves(s, CoreOf(u, p), n, p);
    }
  }

  /** Only a system with an unpassed thread moves. */
  lemma MoverIsUnpassed(s: State, e: Event, n: nat, p: nat) returns (t: nat)
    requires p > 0 && Inv(s, n, p) && Step(s, e, n, p) != s
    ensures t < n && !s.b.pc[t].Passed?
  {
    if e.Create? {
      t := s.created;
    } else {
      t := s.queue[e.core][0];
      assert QueueInv(s, e.core, p) && t in s.queue[e.core];
    }
  }

  lemma QuietIffAllPassed(s: State, n: nat, p: nat)
    requires p > 0 && Inv(s, n, p)
    ensures NoMoves(s, n, p) <==> forall t: nat :: t < n ==> s.b.pc[t].Passed?
  {
    if t: nat :| t < n && !s.b.pc[t].Passed? {
      var e := UnpassedMoves(s, t, n, p);
    }
    if e :| Step(s, e, n, p) != s {
      var t := MoverIsUnpassed(s, e, n, p);
    }
  }

  lemma MovesBounded(n: nat, p: nat, sched: seq<Event>)
    requires p > 0
    ensures Inv(Exec(Init(n, p), sched, n, p), n, p)
    ensures Moves(Init(n, p), sched, n, p) <= n + n * (8 + 5 * n)
  {
    InitInv(n, p);
    ExecKeepsInv(Init(n, p), sched, n, p);
    B.InitMeasure(n, n);
  }

  /** Under SCHED_FIFO without spurious wake-ups the sleep barrier always opens, however
      many threads share a core: every run has at most n + n(8+5n) effective events, and
      the ones that cannot be continued are those with all n = k * p threads past it. */
  lemma EveryMaximalRunPasses(k: nat, p: nat, sched: seq<Event>)
    requires p > 0
    ensures var n := k * p;
      && Moves(Init(n, p), sched, n, p) <= n + n * (8 + 5 * n)
      && var s := Exec(Init(n, p), sched, n, p);
         (NoMoves(s, n, p) <==> forall t: nat :: t < n ==> s.b.pc[t].Passed?)
  {
    var n := k * p;
    MovesBounded(n, p, sched);
    QuietIffAllPassed(Exec(Init(n, p), sched, n, p), n, p);
  }
}
