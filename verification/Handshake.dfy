/** The leader/follower handshake over a shared segment with three guards. The segment may
    hold anything at the start; every access to it is one step, in any interleaving. */
module Handshake {

  datatype LeaderPC =
    | ResetWrite  // leader.c line 63
    | SpinWrite   // line 67
    | Copy        // line 73, one element per step
    | SetRead     // line 81
    | ResetDelete // line 82
    | SpinDelete  // line 83
    | LeaderUnmap // line 93
    | LeaderDone

  datatype FollowerPC =
    | SetWrite      // follower.c line 43
    | ResetRead     // line 44
    | SpinRead      // line 45
    | Read          // line 55, one element per step
    | SetDelete     // line 60
    | FollowerUnmap // line 62
    | FollowerDone

  /** li and fi count the elements copied so far. */
  datatype State = State(
    write: int, read: int, delete: int, data: seq<int>,
    l: LeaderPC, li: nat, source: seq<int>,
    f: FollowerPC, fi: nat, target: seq<int>)

  datatype Event = Leader | Follower

  /** Any contents of the segment and of the follower's fresh array. */
  predicate Init(s: State) {
    s.l.ResetWrite? && s.f.SetWrite? && |s.data| == |s.source| == |s.target|
  }

  function LeaderStep(s: State): State {
    match s.l
    case ResetWrite => s.(write := 0, l := SpinWrite)
    case SpinWrite => if s.write == 0 then s else s.(l := Copy, li := 0)
    case Copy =>
      if s.li < |s.source| && s.li < |s.data|
      then s.(data := s.data[s.li := s.source[s.li]], li := s.li + 1)
      else s.(l := SetRead)
    case SetRead => s.(read := 1, l := ResetDelete)
    case ResetDelete => s.(delete := 0, l := SpinDelete)
    case SpinDelete => if s.delete == 0 then s else s.(l := LeaderUnmap)
    case LeaderUnmap => s.(l := LeaderDone)
    case LeaderDone => s
  }

  function FollowerStep(s: State): State {
    match s.f
    case SetWrite => s.(write := 1, f := ResetRead)
    case ResetRead => s.(read := 0, f := SpinRead)
    case SpinRead => if s.read == 0 then s else s.(f := Read, fi := 0)
    case Read =>
      if s.fi < |s.target| && s.fi < |s.data|
      then s.(target := s.target[s.fi := s.data[s.fi]], fi := s.fi + 1)
      else s.(f := SetDelete)
    case SetDelete => s.(delete := 1, f := FollowerUnmap)
    case FollowerUnmap => s.(f := FollowerDone)
    case FollowerDone => s
  }

  function Step(s: State, e: Event): State {
    match e
    case Leader => LeaderStep(s)
    case Follower => FollowerStep(s)
  }

  function Exec(s: State, sched: seq<Event>): State
    decreases |sched|
  {
    if sched == [] then s else Exec(Step(s, sched[0]), sched[1..])
  }

  // ----- Safety -----

  predicate PastSpinWrite(l: LeaderPC) { !l.ResetWrite? && !l.SpinWrite? }
  predicate PastCopy(l: LeaderPC) { PastSpinWrite(l) && !l.Copy? }
  predicate PastSetRead(l: LeaderPC) { PastCopy(l) && !l.SetRead? }
  predicate PastSpinDelete(l: LeaderPC) { l.LeaderUnmap? || l.LeaderDone? }
  predicate PastSetWrite(f: FollowerPC) { !f.SetWrite? }
  predicate PastSpinRead(f: FollowerPC) { PastSetWrite(f) && !f.ResetRead? && !f.SpinRead? }
  predicate PastRead(f: FollowerPC) { PastSpinRead(f) && !f.Read? }
  predicate PastSetDelete(f: FollowerPC) { f.FollowerUnmap? || f.FollowerDone? }

  /** Each guard, once its waiter has reset it, is raised only by the peer. */
  predicate Inv(s: State) {
    && |s.data| == |s.source| == |s.target|
    && (PastSpinWrite(s.l) || (s.l.SpinWrite? && s.write != 0) ==> PastSetWrite(s.f))
    && (PastSpinRead(s.f) || (s.f.SpinRead? && s.read != 0) ==> PastSetRead(s.l))
    && (PastSpinDelete(s.l) || (s.l.SpinDelete? && s.delete != 0) ==> PastSetDelete(s.f))
    && (s.l.Copy? ==> s.li <= |s.source| && s.data[..s.li] == s.source[..s.li])
    && (PastCopy(s.l) ==> s.data == s.source)
    && (s.f.Read? ==> s.fi <= |s.source| && s.target[..s.fi] == s.source[..s.fi])
    && (PastRead(s.f) ==> s.target == s.source)
  }

  lemma StepKeepsInv(s: State, e: Event)
    requires Inv(s)
    ensures Inv(Step(s, e))
  {
  }

  lemma {:induction false} ExecKeepsInv(s: State, sched: seq<Event>)
    requires Inv(s)
    ensures Inv(Exec(s, sched)) && Exec(s, sched).source == s.source
    decreases |sched|
  {
    if sched == [] {
    } else {
      StepKeepsInv(s, sched[0]);
      ExecKeepsInv(Step(s, sched[0]), sched[1..]);
    }
  }

  /** Whatever the segment held before: the copy and the read never overlap, what the
      follower has read is what the leader sent, and the leader unmaps only after that. */
  lemma Safety(s0: State, sched: seq<Event>)
    requires Init(s0)
    ensures var s := Exec(s0, sched);
      && !(s.l.Copy? && s.f.Read?)
      && (PastRead(s.f) ==> s.target == s0.source)
      && (PastSpinDelete(s.l) ==> PastRead(s.f))
  {
    ExecKeepsInv(s0, sched);
  }

  // ----- Termination, exactly characterised -----

  /** The resets at leader.c line 63, follower.c line 44 and leader.c line 82. */
  datatype Reset = OfWrite | OfRead | OfDelete

  /** e executes that reset, after the peer's matching set. */
  predicate Overwrites(s: State, e: Event, r: Reset) {
    match r
    case OfWrite => e.Leader? && s.l.ResetWrite? && PastSetWrite(s.f)
    case OfRead => e.Follower? && s.f.ResetRead? && PastSetRead(s.l)
    case OfDelete => e.Leader? && s.l.ResetDelete? && PastSetDelete(s.f)
  }

  /** A reset executes after the peer's matching set. */
  predicate BadReset(s: State, e: Event) {
    Overwrites(s, e, OfWrite) || Overwrites(s, e, OfRead) || Overwrites(s, e, OfDelete)
  }

  predicate BadResetIn(s: State, sched: seq<Event>)
    decreases |sched|
  {
    sched != [] && (BadReset(s, sched[0]) || BadResetIn(Step(s, sched[0]), sched[1..]))
  }

  /** Somebody waits for a signal that has been overwritten. */
  predicate Doomed(s: State) {
    || (s.l.SpinWrite? && s.write == 0 && PastSetWrite(s.f))
    || (s.f.SpinRead? && s.read == 0 && PastSetRead(s.l))
    || (s.l.SpinDelete? && s.delete == 0 && PastSetDelete(s.f))
  }

  lemma StepDooms(s: State, e: Event)
    requires Inv(s)
    ensures Doomed(Step(s, e)) <==> Doomed(s) || BadReset(s, e)
  {
  }

  lemma {:induction false} DoomedIffBadReset(s: State, sched: seq<Event>)
    requires Inv(s)
    ensures Doomed(Exec(s, sched)) <==> Doomed(s) || BadResetIn(s, sched)
    decreases |sched|
  {
    if sched == [] {
    } else {
      StepDooms(s, sched[0]);
      StepKeepsInv(s, sched[0]);
      DoomedIffBadReset(Step(s, sched[0]), sched[1..]);
    }
  }

  lemma {:induction false} ExecAppend(s: State, a: seq<Event>, b: seq<Event>)
    ensures Exec(s, a + b) == Exec(Exec(s, a), b)
    decreases |a|
  {
    if a == [] {
      assert a + b == b;
    } else {
      ExecAppend(Step(s, a[0]), a[1..], b);
      assert (a + b)[1..] == a[1..] + b;
    }
  }

  /** After a bad reset no continuation lets the leader finish. */
  lemma BadResetIsFatal(s0: State, sched: seq<Event>, more: seq<Event>)
    requires Init(s0) && BadResetIn(s0, sched)
    ensures !Exec(s0, sched + more).l.LeaderDone?
  {
    ExecKeepsInv(s0, sched);
    DoomedIffBadReset(s0, sched);
    ExecAppend(s0, sched, more);
    ExecKeepsInv(Exec(s0, sched), more);
    DoomedIffBadReset(Exec(s0, sched), more);
  }

  // ----- Each of the three resets can come too late -----

  ghost predicate Reaches(s: State, s': State) {
    exists sched :: Exec(s, sched) == s'
  }

  lemma ReachesByStep(s: State, e: Event)
    ensures Reaches(s, Step(s, e))
  {
    assert Exec(s, [e]) == Exec(Step(s, e), []);
  }

  lemma ReachesTransitive(s: State, s': State, s'': State)
    requires Reaches(s, s') && Reaches(s', s'')
    ensures Reaches(s, s'')
  {
    var a :| Exec(s, a) == s';
    var b :| Exec(s', b) == s'';
    ExecAppend(s, a, b);
  }

  lemma ReachesByTwo(s: State, e: Event, f: Event)
    ensures Reaches(s, Step(Step(s, e), f))
  {
    ReachesByStep(s, e);
    ReachesByStep(Step(s, e), f);
    ReachesTransitive(s, Step(s, e), Step(Step(s, e), f));
  }

  /** The leader alone can finish its copy and raise the read guard. */
  lemma {:induction false} LeaderCopies(s: State) returns (s': State)
    requires Inv(s) && s.l.Copy?
    ensures Reaches(s, s') && Inv(s')
    ensures s'.l.ResetDelete? && s'.read == 1 && s'.f == s.f
    decreases |s.source| - s.li
  {
    var s1 := LeaderStep(s);
    StepKeepsInv(s, Leader);
    if s.li < |s.source| {
      ReachesByStep(s, Leader);
      s' := LeaderCopies(s1);
      ReachesTransitive(s, s1, s');
    } else {
      s' := LeaderStep(s1);
      StepKeepsInv(s1, Leader);
      ReachesByTwo(s, Leader, Leader);
    }
  }

  /** The follower alone can finish its read and raise the delete guard. */
  lemma {:induction false} FollowerReads(s: State) returns (s': State)
    requires Inv(s) && s.f.Read?
    ensures Reaches(s, s') && s'.l == s.l && PastSetDelete(s'.f)
    decreases |s.target| - s.fi
  {
    var s1 := FollowerStep(s);
    StepKeepsInv(s, Follower);
    if s.fi < |s.target| {
      ReachesByStep(s, Follower);
      s' := FollowerReads(s1);
      ReachesTransitive(s, s1, s');
    } else {
      s' := FollowerStep(s1);
      ReachesByTwo(s, Follower, Follower);
    }
  }

  /** Leader to its first spin loop, follower past its first set, leader to its copy. */
  lemma CopyStarts(s0: State) returns (s: State)
    requires Init(s0)
    ensures Reaches(s0, s) && Inv(s) && s.l.Copy? && s.f.ResetRead?
  {
    var s1 := LeaderStep(s0);
    var s2 := FollowerStep(s1);
    s := LeaderStep(s2);
    ReachesByTwo(s0, Leader, Follower);
    ReachesByStep(s2, Leader);
    ReachesTransitive(s0, s2, s);
    StepKeepsInv(s0, Leader);
    StepKeepsInv(s1, Follower);
    StepKeepsInv(s2, Leader);
  }

  predicate Flag(guard: int) {
    guard == 0 || guard == 1
  }

  /** Once a guard has been written it is a flag, whatever the segment held before. */
  predicate GuardsAreFlags(s: State) {
    && (!s.l.ResetWrite? || PastSetWrite(s.f) ==> Flag(s.write))
    && (PastSetRead(s.l) || (PastSetWrite(s.f) && !s.f.ResetRead?) ==> Flag(s.read))
    && ((PastSetRead(s.l) && !s.l.ResetDelete?) || PastSetDelete(s.f) ==> Flag(s.delete))
  }

  lemma {:induction false} ExecKeepsFlags(s: State, sched: seq<Event>)
    requires GuardsAreFlags(s)
    ensures GuardsAreFlags(Exec(s, sched))
    decreases |sched|
  {
    if sched == [] {
    } else {
      ExecKeepsFlags(Step(s, sched[0]), sched[1..]);
    }
  }

  lemma GuardsBecomeFlags(s0: State, sched: seq<Event>)
    requires Init(s0)
    ensures GuardsAreFlags(Exec(s0, sched))
  {
    ExecKeepsFlags(s0, sched);
  }

  /** From every initial segment each of the three resets can be the one that overwrites
      its signal. */
  lemma EachResetCanOverwrite(s0: State, r: Reset) returns (s: State, e: Event)
    requires Init(s0)
    ensures Reaches(s0, s) && Overwrites(s, e, r)
  {
    match r {
      case OfWrite =>
        s, e := FollowerStep(s0), Leader;
        ReachesByStep(s0, Follower);
      case OfRead =>
        var c := CopyStarts(s0);
        s := LeaderCopies(c);
        e := Follower;
        ReachesTransitive(s0, c, s);
      case OfDelete =>
        var c := CopyStarts(s0);
        var c1 := FollowerStep(c);
        StepKeepsInv(c, Follower);
        ReachesByStep(c, Follower);
        ReachesTransitive(s0, c, c1);
        var c2 := LeaderCopies(c1);
        ReachesTransitive(s0, c1, c2);
        var c3 := FollowerStep(c2);
        StepKeepsInv(c2, Follower);
        ReachesByStep(c2, Follower);
        ReachesTransitive(s0, c2, c3);
        s := FollowerReads(c3);
        e := Leader;
        ReachesTransitive(s0, c3, s);
    }
  }

  /** So the handshake can hang from every initial segment. */
  lemma CanHang(s0: State, r: Reset) returns (sched: seq<Event>)
    requires Init(s0)
    ensures BadResetIn(s0, sched)
  {
    var s, e := EachResetCanOverwrite(s0, r);
    var before :| Exec(s0, before) == s;
    sched := before + [e];
    BadResetAtEnd(s0, before, e);
  }

  lemma {:induction false} BadResetAtEnd(s0: State, before: seq<Event>, e: Event)
    requires BadReset(Exec(s0, before), e)
    ensures BadResetIn(s0, before + [e])
    decreases |before|
  {
    if before == [] {
    } else {
      BadResetAtEnd(Step(s0, before[0]), before[1..], e);
      assert (before + [e])[1..] == before[1..] + [e];
    }
  }

  // ----- Runs that cannot be continued -----

  function LeaderLeft(s: State): int {
    match s.l
    case ResetWrite => 7 + |s.source|
    case SpinWrite => 6 + |s.source|
    case Copy => 5 + |s.source| - s.li
    case SetRead => 4
    case ResetDelete => 3
    case SpinDelete => 2
    case LeaderUnmap => 1
    case LeaderDone => 0
  }

  function FollowerLeft(s: State): int {
    match s.f
    case SetWrite => 6 + |s.source|
    case ResetRead => 5 + |s.source|
    case SpinRead => 4 + |s.source|
    case Read => 3 + |s.source| - s.fi
    case SetDelete => 2
    case FollowerUnmap => 1
    case FollowerDone => 0
  }

  /** Steps of both processes that are not turns of a spin loop. */
  function Measure(s: State): int {
    LeaderLeft(s) + FollowerLeft(s)
  }

  predicate NoMoves(s: State) {
    Step(s, Leader) == s && Step(s, Follower) == s
  }

  /** Every step that is not a turn of a spin loop brings the measure down by one. */
  lemma StepDecreases(s: State, e: Event)
    requires Inv(s) && Step(s, e) != s
    ensures 0 <= Measure(Step(s, e)) == Measure(s) - 1
  {
  }

  /** A run that cannot be continued, except by spinning, has let the leader finish exactly
      when it contained no bad reset; then the follower has finished too. */
  lemma MaximalRunFinishesIff(s0: State, sched: seq<Event>)
    requires Init(s0) && NoMoves(Exec(s0, sched))
    ensures Exec(s0, sched).l.LeaderDone? <==> !BadResetIn(s0, sched)
    ensures Exec(s0, sched).l.LeaderDone? ==> Exec(s0, sched).f.FollowerDone?
  {
    ExecKeepsInv(s0, sched);
    DoomedIffBadReset(s0, sched);
    var s := Exec(s0, sched);
    assert Step(s, Leader) == s ==> s.l.SpinWrite? || s.l.SpinDelete? || s.l.LeaderDone?;
    assert Step(s, Follower) == s ==> s.f.SpinRead? || s.f.FollowerDone?;
  }

  /** A bad reset has happened, or the next step of its process is one. */
  predicate NoReturn(s: State) {
    Doomed(s) || BadReset(s, Leader) || BadReset(s, Follower)
  }

  lemma {:induction false} NoReturnStays(s: State, sched: seq<Event>)
    requires Inv(s) && NoReturn(s)
    ensures !Exec(s, sched).l.LeaderDone?
    decreases |sched|
  {
    if sched == [] {
    } else {
      StepKeepsInv(s, sched[0]);
      StepDooms(s, sched[0]);
      NoReturnStays(Step(s, sched[0]), sched[1..]);
    }
  }

  /** A scheduler that avoids bad resets: the leader's first reset, then the follower up to
      its spin loop, then the leader up to its last one, then the follower to the end. */
  function SafeChoice(s: State): Event {
    if s.l.ResetWrite? then Leader
    else if s.f.SetWrite? || s.f.ResetRead? then Follower
    else if s.l.SpinDelete? && !PastSetDelete(s.f) then Follower
    else Leader
  }

  lemma {:induction false} SafeScheduleFinishes(s: State) returns (sched: seq<Event>)
    requires Inv(s) && !NoReturn(s)
    ensures Exec(s, sched).l.LeaderDone?
    decreases Measure(s)
  {
    if s.l.LeaderDone? {
      sched := [];
    } else {
      var e := SafeChoice(s);
      assert Step(s, e) != s;
      StepDecreases(s, e);
      StepKeepsInv(s, e);
      var rest := SafeScheduleFinishes(Step(s, e));
      sched := [e] + rest;
      assert sched[1..] == rest;
    }
  }

  ghost predicate CanFinish(s: State) {
    exists sched :: Exec(s, sched).l.LeaderDone?
  }

  /** The leader can still finish exactly when no bad reset has happened and none is the
      next step of its process; in particular it can from every initial segment. */
  lemma CanFinishIff(s0: State, sched: seq<Event>)
    requires Init(s0)
    ensures CanFinish(Exec(s0, sched)) <==> !NoReturn(Exec(s0, sched))
    ensures CanFinish(s0)
  {
    ExecKeepsInv(s0, sched);
    var s := Exec(s0, sched);
    if CanFinish(s) {
      var more :| Exec(s, more).l.LeaderDone?;
      if NoReturn(s) { NoReturnStays(s, more); }
    }
    if !NoReturn(s) {
      var more := SafeScheduleFinishes(s);
    }
    var all := SafeScheduleFinishes(s0);
  }

  // ----- The code, on shared and private arrays -----

  class Segment {
    var write: int
    var read: int
    var delete: int
    const data: array<int>
    var l: LeaderPC
    var li: nat
    const source: array<int>
    var f: FollowerPC
    var fi: nat
    const target: array<int>

    ghost predicate Valid() {
      data != source && data != target && source != target &&
      data.Length == source.Length == target.Length
    }

    ghost function View(): State
      reads this, data, source, target
    {
      State(write, read, delete, data[..], l, li, source[..], f, fi, target[..])
    }

    /** The guards and both data arrays keep whatever they held. */
    constructor (data: array<int>, source: array<int>, target: array<int>, write: int, read: int, delete: int)
      requires data != source && data != target && source != target
      requires data.Length == source.Length == target.Length
      ensures Valid() && Init(View())
      ensures this.data == data && this.source == source && this.target == target
      ensures this.write == write && this.read == read && this.delete == delete
    {
      this.data, this.source, this.target := data, source, target;
      this.write, this.read, this.delete := write, read, delete;
      l, li, f, fi := ResetWrite, 0, SetWrite, 0;
    }

    method RunLeader()
      requires Valid()
      modifies this`write, this`read, this`delete, this`l, this`li, data
      ensures View() == LeaderStep(old(View()))
    {
      match l {
        case ResetWrite =>
          write := 0;
          l := SpinWrite;
        case SpinWrite =>
          if 0 != write {
            l, li := Copy, 0;
          }
        case Copy =>
          if li < source.Length {
            data[li] := source[li];
            li := li + 1;
          } else {
            l := SetRead;
          }
        case SetRead =>
          read := 1;
          l := ResetDelete;
        case ResetDelete =>
          delete := 0;
          l := SpinDelete;
        case SpinDelete =>
          if 0 != delete {
            l := LeaderUnmap;
          }
        case LeaderUnmap =>
          l := LeaderDone;
        case LeaderDone =>
      }
    }

    method RunFollower()
      requires Valid()
      modifies this`write, this`read, this`delete, this`f, this`fi, target
      ensures View() == FollowerStep(old(View()))
    {
      match f {
        case SetWrite =>
          write := 1;
          f := ResetRead;
        case ResetRead =>
          read := 0;
          f := SpinRead;
        case SpinRead =>
          if 0 != read {
            f, fi := Read, 0;
          }
        case Read =>
          if fi < target.Length {
            target[fi] := data[fi];
            fi := fi + 1;
          } else {
            f := SetDelete;
          }
        case SetDelete =>
          delete := 1;
          f := FollowerUnmap;
        case FollowerUnmap =>
          f := FollowerDone;
        case FollowerDone =>
      }
    }

    /** Runs both processes under any schedule: once the leader is past its last wait, the
        follower's array is the leader's. */
    method RunSchedule(sched: seq<Event>)
      requires Valid() && Init(View())
      modifies this, data, target
      ensures View() == Exec(old(View()), sched)
      ensures PastSpinDelete(l) ==> target[..] == source[..]
    {
      var i := 0;
      while i < |sched|
        invariant i <= |sched|
        invariant Exec(old(View()), sched) == Exec(View(), sched[i..])
      {
        if sched[i].Leader? {
          RunLeader();
        } else {
          RunFollower();
        }
        i := i + 1;
      }
      ExecKeepsInv(old(View()), sched);
    }
  }
}
