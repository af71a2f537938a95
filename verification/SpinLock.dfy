/** The compare-exchange spin lock. The code asks for the weak compare-exchange, so an
    event may let one fail although the values match. */
module SpinLock {
  import opened AbstractLock

  const LOCK: int := 1
  const UNLOCK: int := 0

  datatype PC =
    | Outside   // not inside lock() or unlock(), lock not held
    | Exchange  // line 29: about to compare and exchange
    | Reset     // line 34: about to restore the expected value
    | Critical  // lock() has returned; next is line 46
    | Failed    // line 49: unlock() could not release; next is exit()

  /** expected is the local s32unlock of lock(), which a failed exchange overwrites. */
  datatype Thread = Thread(pc: PC, expected: int)

  datatype State = State(word: int, threads: seq<Thread>, exited: bool)

  /** A thread executes its next instruction; spurious makes a weak exchange fail. */
  datatype Event = Run(thread: nat, spurious: bool)

  function Init(n: nat): State {
    State(UNLOCK, seq(n, _ => Thread(Outside, UNLOCK)), false)
  }

  function Step(s: State, e: Event): (s': State)
    ensures |s'.threads| == |s.threads|
  {
    if s.exited || e.thread >= |s.threads| then s
    else
      var t := e.thread;
      var me := s.threads[t];
      match me.pc
      case Outside => s.(threads := s.threads[t := Thread(Exchange, UNLOCK)])
      case Exchange =>
        if s.word == me.expected && !e.spurious
        then s.(word := LOCK, threads := s.threads[t := me.(pc := Critical)])
        else s.(threads := s.threads[t := Thread(Reset, s.word)])
      case Reset => s.(threads := s.threads[t := Thread(Exchange, UNLOCK)])
      case Critical =>
        if s.word == LOCK && !e.spurious
        then s.(word := UNLOCK, threads := s.threads[t := me.(pc := Outside)])
        else s.(threads := s.threads[t := me.(pc := Failed)])
      case Failed => s.(exited := true)
  }

  function Exec(s: State, sched: seq<Event>): (s': State)
    ensures |s'.threads| == |s.threads|
    decreases |sched|
  {
    if sched == [] then s else Exec(Step(s, sched[0]), sched[1..])
  }

  // ----- Mutual exclusion and the error exit -----

  predicate Holds(s: State, t: nat) {
    t < |s.threads| && (s.threads[t].pc.Critical? || s.threads[t].pc.Failed?)
  }

  ghost predicate Held(s: State) {
    exists t: nat :: Holds(s, t)
  }

  predicate HasFailed(s: State, t: nat) {
    t < |s.threads| && s.threads[t].pc.Failed?
  }

  ghost predicate ErrorExit(s: State) {
    exists t: nat :: HasFailed(s, t)
  }

  /** The reset at line 34 matters here: no thread ever compares against LOCK. */
  ghost predicate Inv(s: State) {
    && (forall t: nat, u: nat :: Holds(s, t) && Holds(s, u) ==> t == u)
    && (s.word == LOCK || s.word == UNLOCK)
    && (Held(s) <==> s.word == LOCK)
    && (forall t: nat :: t < |s.threads| && s.threads[t].pc.Exchange? ==> s.threads[t].expected == UNLOCK)
    && (s.exited ==> ErrorExit(s))
  }

  /** The exchange in unlock() fails although the word matches. */
  predicate SpuriousRelease(s: State, e: Event) {
    !s.exited && e.thread < |s.threads| && s.threads[e.thread].pc.Critical? && e.spurious
  }

  predicate SpuriousReleaseIn(s: State, sched: seq<Event>)
    decreases |sched|
  {
    sched != [] && (SpuriousRelease(s, sched[0]) || SpuriousReleaseIn(Step(s, sched[0]), sched[1..]))
  }

  lemma StepKeepsInv(s: State, e: Event)
    requires Inv(s)
    ensures Inv(Step(s, e))
    ensures ErrorExit(Step(s, e)) <==> ErrorExit(s) || SpuriousRelease(s, e)
  {
    var s' := Step(s, e);
    var t := e.thread;
    assert forall u: nat :: u != t ==> (Holds(s', u) <==> Holds(s, u)) && (HasFailed(s', u) <==> HasFailed(s, u));
    assert Holds(s, t) ==> Held(s);
    if Held(s) {
      var h: nat :| Holds(s, h);
      assert h != t ==> Holds(s', h);
    }
    if ErrorExit(s) {
      var f: nat :| HasFailed(s, f);
      assert HasFailed(s', f);
    }
    assert Holds(s', t) ==> Held(s');
    assert HasFailed(s', t) ==> ErrorExit(s');
    if ErrorExit(s') {
      var f: nat :| HasFailed(s', f);
      assert HasFailed(s, f) || (f == t && Holds(s, t));
    }
  }

  lemma InitInv(n: nat)
    ensures Inv(Init(n)) && !ErrorExit(Init(n))
  {
  }

  lemma {:induction false} ExecKeepsInv(s: State, sched: seq<Event>)
    requires Inv(s)
    ensures Inv(Exec(s, sched))
    ensures ErrorExit(Exec(s, sched)) <==> ErrorExit(s) || SpuriousReleaseIn(s, sched)
    decreases |sched|
  {
    if sched == [] {
    } else {
      StepKeepsInv(s, sched[0]);
      ExecKeepsInv(Step(s, sched[0]), sched[1..]);
    }
  }

  lemma MutualExclusion(n: nat, sched: seq<Event>, t: nat, u: nat)
    requires Holds(Exec(Init(n), sched), t)
    ensures Holds(Exec(Init(n), sched), u) ==> t == u
    ensures Exec(Init(n), sched).word == LOCK
  {
    InitInv(n);
    ExecKeepsInv(Init(n), sched);
  }

  /** A holder reaches the error exit of unlock() exactly when a weak exchange in
      unlock() failed spuriously; with a strong exchange it is unreachable. */
  lemma ErrorExitIffSpurious(n: nat, sched: seq<Event>)
    ensures ErrorExit(Exec(Init(n), sched)) <==> SpuriousReleaseIn(Init(n), sched)
    ensures (forall i :: 0 <= i < |sched| ==> !sched[i].spurious) ==> !ErrorExit(Exec(Init(n), sched))
  {
    InitInv(n);
    ExecKeepsInv(Init(n), sched);
    if forall i :: 0 <= i < |sched| ==> !sched[i].spurious {
      StrongNeverSpurious(Init(n), sched);
    }
  }

  lemma {:induction false} StrongNeverSpurious(s: State, sched: seq<Event>)
    requires forall i :: 0 <= i < |sched| ==> !sched[i].spurious
    ensures !SpuriousReleaseIn(s, sched)
    decreases |sched|
  {
    if sched == [] {
    } else {
      StrongNeverSpurious(Step(s, sched[0]), sched[1..]);
    }
  }

  lemma SpuriousReleaseFollows(s: State, e: Event, rest: seq<Event>)
    requires SpuriousReleaseIn(Step(s, e), rest)
    ensures SpuriousReleaseIn(s, [e] + rest)
  {
    assert ([e] + rest)[1..] == rest;
  }

  /** The exchange of lock() takes the lock exactly when nobody holds it and it does not
      fail spuriously. */
  lemma AcquiresIff(n: nat, sched: seq<Event>, t: nat, spurious: bool)
    requires var s := Exec(Init(n), sched); t < n && s.threads[t].pc.Exchange? && !s.exited
    ensures var s := Exec(Init(n), sched);
      Holds(Step(s, Run(t, spurious)), t) <==> !Held(s) && !spurious
  {
    InitInv(n);
    ExecKeepsInv(Init(n), sched);
    var s := Exec(Init(n), sched);
    assert Holds(Step(s, Run(t, spurious)), t) <==> s.word == UNLOCK && !spurious;
  }

  /** An exchange that fails reports the word it found. Its thread cannot compare against that:
      the reset brings it back to where it was, and until then it is not at the exchange. */
  lemma RetryRoundTrip(s: State, t: nat, spurious: bool, again: bool)
    requires !s.exited && t < |s.threads| && s.threads[t] == Thread(Exchange, UNLOCK)
    requires !Holds(Step(s, Run(t, spurious)), t)
    ensures var s' := Step(s, Run(t, spurious));
      && s'.threads[t].expected == s.word && !s'.threads[t].pc.Exchange?
      && Step(s', Run(t, again)) == s
  {
    assert Step(Step(s, Run(t, spurious)), Run(t, again)).threads == s.threads;
  }

  /** Without contention and spurious failures a call of lock() and one of unlock() leave no
      trace and need three instructions. */
  lemma UncontendedRoundTrip(s: State, t: nat)
    requires !s.exited && s.word == UNLOCK && t < |s.threads| && s.threads[t] == Thread(Outside, UNLOCK)
    ensures var e := Run(t, false);
      Holds(Step(Step(s, e), e), t) && Step(Step(Step(s, e), e), e) == s
  {
    var e := Run(t, false);
    assert Step(Step(Step(s, e), e), e).threads == s.threads;
  }

  /** exit() ends the whole process: nothing happens after it. */
  lemma {:induction false} ExitIsFinal(s: State, f: nat, spurious: bool, sched: seq<Event>)
    requires HasFailed(s, f)
    ensures var s' := Step(s, Run(f, spurious)); s'.exited && Exec(s', sched) == s'
    decreases |sched|
  {
    if sched == [] {
    } else {
      var s' := Step(s, Run(f, spurious));
      ExitIsFinal(s, f, spurious, sched[1..]);
      assert Step(s', sched[0]) == s';
    }
  }

  ghost predicate CanFailToRelease(n: nat) {
    exists sched :: SpuriousReleaseIn(Init(n), sched)
  }

  /** The weak exchange can send even a single user of the lock to the error exit. */
  lemma CanFailToReleaseIff(n: nat)
    ensures CanFailToRelease(n) <==> n >= 1
  {
    if n >= 1 {
      var e, f := Run(0, false), Run(0, true);
      var s0 := Init(n);
      var s1 := Step(s0, e);
      var s2 := Step(s1, e);
      assert SpuriousRelease(s2, f);
      assert SpuriousReleaseIn(s2, [f]);
      SpuriousReleaseFollows(s1, e, [f]);
      SpuriousReleaseFollows(s0, e, [e] + [f]);
    } else {
      forall sched
        ensures !SpuriousReleaseIn(Init(n), sched)
      {
        NobodyReleases(Init(n), sched);
      }
    }
  }

  lemma {:induction false} NobodyReleases(s: State, sched: seq<Event>)
    requires |s.threads| == 0
    ensures !SpuriousReleaseIn(s, sched)
    decreases |sched|
  {
    if sched == [] {
    } else {
      NobodyReleases(Step(s, sched[0]), sched[1..]);
    }
  }

  // ----- Progress -----

  predicate AboutToAcquire(s: State, t: nat) {
    !s.exited && t < |s.threads| && s.threads[t].pc.Exchange? && s.word == s.threads[t].expected
  }

  ghost predicate CanAcquire(s: State) {
    exists sched, t: nat :: AboutToAcquire(Exec(s, sched), t)
  }

  ghost predicate OnTrack(s: State, t: nat) {
    t < |s.threads| && (Holds(s, t) || !Held(s))
  }

  lemma {:induction false} OwnStepsAcquire(s: State, t: nat) returns (sched: seq<Event>)
    requires Inv(s) && !ErrorExit(s) && OnTrack(s, t)
    ensures AboutToAcquire(Exec(s, sched), t)
    decreases match s.threads[t].pc
      case Critical => 2
      case Exchange => 0
      case _ => 1
  {
    var e := Run(t, false);
    assert Holds(s, t) ==> Held(s);
    if s.threads[t].pc.Exchange? {
      sched := [];
    } else {
      StepKeepsInv(s, e);
      var s' := Step(s, e);
      assert !HasFailed(s, t);
      assert forall u: nat :: u != t ==> (Holds(s', u) <==> Holds(s, u));
      var rest := OwnStepsAcquire(s', t);
      sched := [e] + rest;
      assert sched[1..] == rest;
    }
  }

  /** Unlike the sleep lock, this one can always be taken again, unless unlock() failed. */
  lemma CanAcquireIff(n: nat, sched: seq<Event>)
    requires n > 0
    ensures CanAcquire(Exec(Init(n), sched)) <==> !SpuriousReleaseIn(Init(n), sched)
  {
    InitInv(n);
    ExecKeepsInv(Init(n), sched);
    var s := Exec(Init(n), sched);
    if CanAcquire(s) {
      var more, t: nat :| AboutToAcquire(Exec(s, more), t);
      ExecKeepsInv(s, more);
      if ErrorExit(s) {
        var f: nat :| HasFailed(Exec(s, more), f);
        assert Holds(Exec(s, more), f);
      }
    }
    if !ErrorExit(s) {
      var t: nat := 0;
      if Held(s) { t :| Holds(s, t); }
      var more := OwnStepsAcquire(s, t);
    }
  }

  // ----- Refinement of the abstract lock -----

  function OpOf(s: State, e: Event): Op {
    if s.exited || e.thread >= |s.threads| || e.spurious then Internal
    else
      var me := s.threads[e.thread];
      if me.pc.Exchange? && s.word == me.expected then Acquire(e.thread)
      else if me.pc.Critical? && s.word == LOCK then Release(e.thread)
      else Internal
  }

  function Trace(s: State, sched: seq<Event>): seq<Op>
    decreases |sched|
  {
    if sched == [] then [] else [OpOf(s, sched[0])] + Trace(Step(s, sched[0]), sched[1..])
  }

  ghost predicate Represents(s: State, o: Owner) {
    match o
    case Free => !Held(s)
    case HeldBy(t) => Holds(s, t) && forall u: nat :: Holds(s, u) ==> u == t
  }

  lemma StepRefines(s: State, e: Event, o: Owner)
    requires Inv(s) && Represents(s, o)
    ensures Allowed(o, OpOf(s, e))
    ensures Represents(Step(s, e), Next(o, OpOf(s, e)))
  {
    var s' := Step(s, e);
    var t := e.thread;
    assert forall u: nat :: u != t ==> (Holds(s', u) <==> Holds(s, u));
    assert Holds(s, t) ==> Held(s);
  }

  lemma {:induction false} RunRefines(s: State, sched: seq<Event>, o: Owner)
    requires Inv(s) && Represents(s, o)
    ensures Legal(o, Trace(s, sched))
    ensures Represents(Exec(s, sched), After(o, Trace(s, sched)))
    decreases |sched|
  {
    if sched == [] {
    } else {
      StepRefines(s, sched[0], o);
      StepKeepsInv(s, sched[0]);
      RunRefines(Step(s, sched[0]), sched[1..], Next(o, OpOf(s, sched[0])));
      assert Trace(s, sched)[1..] == Trace(Step(s, sched[0]), sched[1..]);
    }
  }

  /** Every run of the spin lock, spurious failures included, is a run of the abstract lock. */
  lemma RefinesAbstractLock(n: nat, sched: seq<Event>)
    ensures Legal(Free, Trace(Init(n), sched))
    ensures Represents(Exec(Init(n), sched), After(Free, Trace(Init(n), sched)))
  {
    InitInv(n);
    RunRefines(Init(n), sched, Free);
  }

  // ----- The code, updating the shared word in place -----

  class Word {
    var word: int
    var threads: seq<Thread>
    var exited: bool

    ghost function View(): State
      reads this
    {
      State(word, threads, exited)
    }

    constructor (n: nat)
      ensures View() == Init(n)
    {
      word := UNLOCK;
      threads := seq(n, _ => Thread(Outside, UNLOCK));
      exited := false;
    }

    /** The atomic builtin: on failure it reports the value it found. */
    method CompareExchange(expected: int, desired: int, spurious: bool) returns (ok: bool, found: int)
      modifies this`word
      ensures ok <==> old(word) == expected && !spurious
      ensures word == if ok then desired else old(word)
      ensures found == if ok then expected else old(word)
    {
      ok, found := word == expected && !spurious, expected;
      if ok {
        word := desired;
      } else {
        found := word;
      }
    }

    method Instruction(t: nat, spurious: bool)
      requires t < |threads| && !exited
      modifies this
      ensures View() == Step(old(View()), Run(t, spurious))
    {
      var me := threads[t];
      match me.pc {
        case Outside =>
          me := Thread(Exchange, UNLOCK);
        case Exchange =>
          var ok, found := CompareExchange(me.expected, LOCK, spurious);
          me := Thread(if ok then Critical else Reset, found);
        case Reset =>
          me := Thread(Exchange, UNLOCK);
        case Critical =>
          var ok, found := CompareExchange(LOCK, UNLOCK, spurious);
          me := me.(pc := if ok then Outside else Failed);
        case Failed =>
          exited := true;
      }
      threads := threads[t := me];
    }

    method RunSchedule(sched: seq<Event>)
      modifies this
      ensures View() == Exec(old(View()), sched)
      ensures old(Inv(View())) ==> forall t: nat, u: nat :: Holds(View(), t) && Holds(View(), u) ==> t == u
    {
      var i := 0;
      while i < |sched|
        invariant i <= |sched|
        invariant Exec(old(View()), sched) == Exec(View(), sched[i..])
      {
        if !exited && sched[i].thread < |threads| {
          Instruction(sched[i].thread, sched[i].spurious);
        }
        i := i + 1;
      }
      if old(Inv(View())) {
        ExecKeepsInv(old(View()), sched);
      }
    }
  }
}
