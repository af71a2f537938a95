/** The racy counter: each thread adds one M times, and an increment is a load
    followed by a separate store. */
module RaceCounter {
  import opened Sums

  /** The register of a thread: empty, or holding the value it loaded. */
  datatype Register = Empty | Loaded(value: int)

  /** done[t] counts the stores thread t has executed. */
  datatype State = State(race: int, done: seq<nat>, reg: seq<Register>)

  function Init(n: nat): State {
    State(0, seq(n, _ => 0), seq(n, _ => Empty))
  }

  predicate WellFormed(s: State, n: nat, m: nat) {
    && |s.done| == |s.reg| == n
    && forall t :: 0 <= t < n ==> s.done[t] + (if s.reg[t].Loaded? then 1 else 0) <= m
  }

  /** Thread t executes its next memory access; a finished thread does nothing. */
  function Step(s: State, t: nat, m: nat): State {
    if t >= |s.done| || t >= |s.reg| then s
    else match s.reg[t]
      case Empty =>
        if s.done[t] < m then s.(reg := s.reg[t := Loaded(s.race)]) else s
      case Loaded(v) =>
        State(v + 1, s.done[t := s.done[t] + 1], s.reg[t := Empty])
  }

  function Exec(s: State, sched: seq<nat>, m: nat): State
    decreases |sched|
  {
    if sched == [] then s else Exec(Step(s, sched[0], m), sched[1..], m)
  }

  predicate Finished(s: State, m: nat) {
    forall t :: 0 <= t < |s.done| ==> s.done[t] == m
  }

  lemma {:induction false} ExecAppend(s: State, a: seq<nat>, b: seq<nat>, m: nat)
    ensures Exec(s, a + b, m) == Exec(Exec(s, a, m), b, m)
    decreases |a|
  {
    if a == [] {
      assert a + b == b;
    } else {
      ExecAppend(Step(s, a[0], m), a[1..], b, m);
      assert (a + b)[1..] == a[1..] + b;
    }
  }

  // ----- Bounds -----

  predicate SomeoneUnfinished(s: State, m: nat) {
    exists t :: 0 <= t < |s.done| && s.done[t] < m
  }

  ghost predicate Inv(s: State, n: nat, m: nat) {
    && WellFormed(s, n, m)
    && 0 <= s.race <= Sum(s.done)
    && (s.race == 0 <==> Sum(s.done) == 0)
    && (forall t :: 0 <= t < n && s.reg[t].Loaded? ==> 0 <= s.reg[t].value <= Sum(s.done))
    && (forall t :: 0 <= t < n && s.reg[t].Loaded? && s.done[t] > 0 ==> s.reg[t].value > 0)
    && (s.race >= 2 || SomeoneUnfinished(s, m))
  }

  lemma {:induction false} SumPositive(s: seq<nat>, t: nat)
    requires t < |s|
    ensures Sum(s) >= s[t]
  {
    if t > 0 { SumPositive(s[1..], t - 1); }
  }

  lemma LoadKeepsInv(s: State, t: nat, n: nat, m: nat)
    requires Inv(s, n, m) && t < n && s.reg[t].Empty?
    ensures Inv(Step(s, t, m), n, m)
  {
    SumPositive(s.done, t);
    if SomeoneUnfinished(s, m) {
      var u :| 0 <= u < |s.done| && s.done[u] < m;
      assert Step(s, t, m).done[u] < m;
    }
  }

  lemma StoreKeepsInv(s: State, t: nat, n: nat, m: nat)
    requires Inv(s, n, m) && m >= 2 && t < n && s.reg[t].Loaded?
    ensures Inv(Step(s, t, m), n, m)
  {
    SumUpdate(s.done, t, s.done[t] + 1);
    if s.done[t] + 1 < m {
      assert Step(s, t, m).done[t] < m;
    } else {
      assert s.reg[t].value > 0;
    }
  }

  lemma StepKeepsInv(s: State, t: nat, n: nat, m: nat)
    requires Inv(s, n, m) && m >= 2
    ensures Inv(Step(s, t, m), n, m)
  {
    if t < n {
      if s.reg[t].Loaded? {
        StoreKeepsInv(s, t, n, m);
      } else {
        LoadKeepsInv(s, t, n, m);
      }
    }
  }

  lemma {:induction false} ExecKeepsInv(s: State, sched: seq<nat>, n: nat, m: nat)
    requires Inv(s, n, m) && m >= 2
    ensures Inv(Exec(s, sched, m), n, m)
    decreases |sched|
  {
    if sched == [] {
    } else {
      StepKeepsInv(s, sched[0], n, m);
      ExecKeepsInv(Step(s, sched[0], m), sched[1..], n, m);
    }
  }

  lemma InitInv(n: nat, m: nat)
    requires n > 0 && m >= 2
    ensures Inv(Init(n), n, m)
  {
    SumConstant(Init(n).done, 0);
    assert Init(n).done[0] < m;
  }

  /** At every moment of every run the counter lies between 0 and the number of
      completed stores, so a 32-bit int holds it whenever it holds n * m. */
  lemma NeverAboveStores(n: nat, m: nat, sched: seq<nat>)
    requires n > 0 && m >= 2
    ensures 0 <= Exec(Init(n), sched, m).race <= Sum(Exec(Init(n), sched, m).done) <= n * m
  {
    InitInv(n, m);
    ExecKeepsInv(Init(n), sched, n, m);
    SumAtMost(Exec(Init(n), sched, m).done, m);
  }

  /** Every interleaving ends between 2 and n * m. */
  lemma FinalBounds(n: nat, m: nat, sched: seq<nat>)
    requires n > 0 && m >= 2
    requires Finished(Exec(Init(n), sched, m), m)
    ensures 2 <= Exec(Init(n), sched, m).race <= n * m
  {
    InitInv(n, m);
    ExecKeepsInv(Init(n), sched, n, m);
    NeverAboveStores(n, m, sched);
  }

  // ----- Every value between the bounds is attained -----

  /** A load and the store after it, with nothing in between. */
  lemma OneIncrement(s: State, t: nat, m: nat, rest: seq<nat>)
    requires t < |s.done| == |s.reg| && s.done[t] < m && s.reg[t].Empty?
    ensures Exec(s, [t] + ([t] + rest), m) == Exec(State(s.race + 1, s.done[t := s.done[t] + 1], s.reg), rest, m)
  {
    assert Step(Step(s, t, m), t, m).reg == s.reg;
    assert ([t] + ([t] + rest))[1..] == [t] + rest && ([t] + rest)[1..] == rest;
  }

  /** Undisturbed increments: threads without a pending load can be brought to any
      target, and none of these increments is lost. */
  lemma {:induction false} Advance(s: State, target: seq<nat>, n: nat, m: nat) returns (sched: seq<nat>)
    requires |s.done| == |s.reg| == |target| == n
    requires forall t :: 0 <= t < n ==> s.done[t] <= target[t] <= m
    requires forall t :: 0 <= t < n && s.done[t] < target[t] ==> s.reg[t].Empty?
    ensures Sum(s.done) <= Sum(target)
    ensures Exec(s, sched, m) == State(s.race + Sum(target) - Sum(s.done), target, s.reg)
    decreases Sum(target) - Sum(s.done)
  {
    SumPointwise(s.done, target);
    if s.done == target {
      sched := [];
    } else {
      var t: nat :| t < n && s.done[t] < target[t];
      var s2 := State(s.race + 1, s.done[t := s.done[t] + 1], s.reg);
      SumUpdate(s.done, t, s.done[t] + 1);
      SumPointwise(s2.done, target);
      var rest := Advance(s2, target, n, m);
      sched := [t] + ([t] + rest);
      OneIncrement(s, t, m, rest);
    }
  }

  ghost predicate Reaches(s: State, s': State, m: nat) {
    exists sched :: Exec(s, sched, m) == s'
  }

  lemma ReachesByStep(s: State, t: nat, s': State, m: nat)
    requires Step(s, t, m) == s'
    ensures Reaches(s, s', m)
  {
    assert Exec(s, [t], m) == Exec(s', [], m);
  }

  lemma ReachesTransitive(s: State, s': State, s'': State, m: nat)
    requires Reaches(s, s', m) && Reaches(s', s'', m)
    ensures Reaches(s, s'', m)
  {
    var a :| Exec(s, a, m) == s';
    var b :| Exec(s', b, m) == s'';
    ExecAppend(s, a, b, m);
  }

  lemma ReachesByAdvance(s: State, target: seq<nat>, n: nat, m: nat)
    requires |s.done| == |s.reg| == |target| == n
    requires forall t :: 0 <= t < n ==> s.done[t] <= target[t] <= m
    requires forall t :: 0 <= t < n && s.done[t] < target[t] ==> s.reg[t].Empty?
    ensures Sum(s.done) <= Sum(target)
    ensures Reaches(s, State(s.race + Sum(target) - Sum(s.done), target, s.reg), m)
  {
    var sched := Advance(s, target, n, m);
  }

  function NoLoads(n: nat): seq<Register> {
    seq(n, _ => Empty)
  }

  /** Thread 0 stores x + 1 on top of whatever the others did since it loaded x, and
      thread 1 loads that. */
  function Overwritten(n: nat, m: nat, x: nat, held: seq<nat>): State
    requires n >= 2 && m >= 1 && |held| == n && forall t :: 0 <= t < n ==> held[t] <= m
  {
    State(x + 1,
          seq(n, t requires 0 <= t < n => if t == 0 then 1 else if t == 1 then m - 1 else m - held[t]),
          NoLoads(n)[1 := Loaded(x + 1)])
  }

  /** Thread 0 loads after x increments of thread 1. */
  lemma FirstLoad(n: nat, m: nat, x: nat)
    requires n >= 2 && x < m
    ensures Sum(Init(n).done[1 := x]) == x
    ensures Reaches(Init(n), State(x, Init(n).done[1 := x], NoLoads(n)[0 := Loaded(x)]), m)
  {
    var s0, none := Init(n), NoLoads(n);
    SumConstant(s0.done, 0);
    var d1 := s0.done[1 := x];
    SumUpdate(s0.done, 1, x);
    var s1 := State(x, d1, none);
    ReachesByAdvance(s0, d1, n, m);
    var s2 := State(x, d1, none[0 := Loaded(x)]);
    ReachesByStep(s1, 0, s2, m);
    ReachesTransitive(s0, s1, s2, m);
  }

  /** Its store then wipes out all the increments the others made in between. */
  lemma FirstOverwrite(n: nat, m: nat, x: nat, held: seq<nat>)
    requires n >= 2 && m >= 2 && x < m
    requires |held| == n && forall t :: 0 <= t < n ==> held[t] <= m
    ensures Reaches(Init(n), Overwritten(n, m, x, held), m)
  {
    FirstLoad(n, m, x);
    var none, d1 := NoLoads(n), Init(n).done[1 := x];
    var s2 := State(x, d1, none[0 := Loaded(x)]);
    var after := Overwritten(n, m, x, held);
    var d3 := after.done[0 := 0];
    ReachesByAdvance(s2, d3, n, m);
    var s3 := State(x + Sum(d3) - Sum(d1), d3, s2.reg);
    var s4 := State(x + 1, after.done, none);
    assert s3.reg[0 := Empty] == none && d3[0 := 1] == after.done;
    ReachesByStep(s3, 0, s4, m);
    ReachesByStep(s4, 1, after, m);
    ReachesTransitive(Init(n), s2, s3, m);
    ReachesTransitive(Init(n), s3, s4, m);
    ReachesTransitive(Init(n), s4, after, m);
  }

  /** The last store of thread 1 wipes out all but the increments held back to the end. */
  lemma SecondOverwrite(n: nat, m: nat, x: nat, held: seq<nat>)
    requires n >= 2 && m >= 2
    requires |held| == n && held[0] <= m - 1 && held[1] == 0
    requires forall t :: 0 <= t < n ==> held[t] <= m
    ensures Reaches(Overwritten(n, m, x, held), State(x + 2 + Sum(held), seq(n, _ => m), NoLoads(n)), m)
  {
    var s5, none := Overwritten(n, m, x, held), NoLoads(n);
    var d6 := s5.done[0 := m - held[0]];
    ReachesByAdvance(s5, d6, n, m);
    var s6 := State(x + 1 + Sum(d6) - Sum(s5.done), d6, s5.reg);
    var d7 := d6[1 := m];
    var s7 := State(x + 2, d7, none);
    assert s6.reg[1 := Empty] == none;
    ReachesByStep(s6, 1, s7, m);
    var d8 := seq(n, _ => m);
    ReachesByAdvance(s7, d8, n, m);
    SumDifference(d8, d7, held);
    ReachesTransitive(s5, s6, s7, m);
    ReachesTransitive(s5, s7, State(x + 2 + Sum(held), d8, none), m);
  }

  lemma Attain(n: nat, m: nat, x: nat, held: seq<nat>)
    requires n >= 2 && m >= 2 && x < m
    requires |held| == n && held[0] <= m - 1 && held[1] == 0
    requires forall t :: 0 <= t < n ==> held[t] <= m
    ensures Attainable(n, m, x + 2 + Sum(held))
  {
    var last := State(x + 2 + Sum(held), seq(n, _ => m), NoLoads(n));
    FirstOverwrite(n, m, x, held);
    SecondOverwrite(n, m, x, held);
    ReachesTransitive(Init(n), Overwritten(n, m, x, held), last, m);
    var sched :| Exec(Init(n), sched, m) == last;
  }

  ghost predicate Attainable(n: nat, m: nat, v: int) {
    exists sched :: Finished(Exec(Init(n), sched, m), m) && Exec(Init(n), sched, m).race == v
  }

  /** The final values of the racy counter are exactly 2, 3, ..., n * m. */
  lemma AttainableIff(n: nat, m: nat, v: int)
    requires n >= 2 && m >= 2
    ensures Attainable(n, m, v) <==> 2 <= v <= n * m
  {
    if Attainable(n, m, v) {
      var sched :| Finished(Exec(Init(n), sched, m), m) && Exec(Init(n), sched, m).race == v;
      FinalBounds(n, m, sched);
    }
    if 2 <= v <= n * m {
      var x := if v - 2 < m then v - 2 else m - 1;
      var caps: seq<nat> := seq(n, t => if t == 0 then m - 1 else if t == 1 then 0 else m);
      var all: seq<nat> := seq(n, _ => m);
      SumConstant(all, m);
      SumUpdate(all, 0, m - 1);
      SumUpdate(all[0 := m - 1], 1, 0);
      assert caps == all[0 := m - 1][1 := 0];
      var held := Spread(caps, v - 2 - x);
      Attain(n, m, x, held);
    }
  }

  // ----- The loop body, on the shared variable -----

  class Race {
    var race: int
    var done: seq<nat>
    var reg: seq<Register>
    const m: nat

    ghost function View(): State
      reads this
    {
      State(race, done, reg)
    }

    constructor (n: nat, m: nat)
      ensures View() == Init(n) && this.m == m
    {
      race := 0;
      done := seq(n, _ => 0);
      reg := seq(n, _ => Empty);
      this.m := m;
    }

    /** race++ in thread t, one memory access at a time. */
    method Access(t: nat)
      requires t < |done| == |reg|
      modifies this
      ensures View() == Step(old(View()), t, m)
    {
      if reg[t].Loaded? {
        race := reg[t].value + 1;
        reg := reg[t := Empty];
        done := done[t := done[t] + 1];
      } else if done[t] < m {
        reg := reg[t := Loaded(race)];
      }
    }

    /** Any schedule that lets all threads finish leaves a value in the exact range. */
    method RunSchedule(sched: seq<nat>)
      requires View() == Init(|done|) && |done| > 0 && m >= 2
      modifies this
      ensures View() == Exec(old(View()), sched, m)
      ensures Finished(View(), m) ==> 2 <= race <= old(|done|) * m
    {
      var i := 0;
      while i < |sched|
        invariant i <= |sched| && |done| == |reg|
        invariant Exec(old(View()), sched, m) == Exec(View(), sched[i..], m)
      {
        if sched[i] < |done| {
          Access(sched[i]);
        }
        i := i + 1;
      }
      if Finished(View(), m) {
        FinalBounds(old(|done|), m, sched);
      }
    }
  }
}
