/** Sums over sequences, one entry per thread. */
module Sums {

  function Sum(s: seq<nat>): nat {
    if s == [] then 0 else s[0] + Sum(s[1..])
  }

  lemma {:induction false} SumUpdate(s: seq<nat>, i: nat, v: nat)
    requires i < |s|
    ensures Sum(s[i := v]) == Sum(s) - s[i] + v
  {
    if i == 0 {
      assert s[i := v][1..] == s[1..];
    } else {
      assert s[i := v][1..] == s[1..][i - 1 := v];
      SumUpdate(s[1..], i - 1, v);
    }
  }

  lemma {:induction false} SumAtMost(s: seq<nat>, m: nat)
    requires forall i :: 0 <= i < |s| ==> s[i] <= m
    ensures Sum(s) <= |s| * m
  {
    if s == [] {
    } else {
      SumAtMost(s[1..], m);
      assert |s| * m == m + |s[1..]| * m;
    }
  }

  lemma {:induction false} SumConstant(s: seq<nat>, m: nat)
    requires forall i :: 0 <= i < |s| ==> s[i] == m
    ensures Sum(s) == |s| * m
  {
    if s == [] {
    } else {
      SumConstant(s[1..], m);
      assert |s| * m == m + |s[1..]| * m;
    }
  }

  lemma {:induction false} SumPointwise(a: seq<nat>, b: seq<nat>)
    requires |a| == |b|
    requires forall i :: 0 <= i < |a| ==> a[i] <= b[i]
    ensures Sum(a) <= Sum(b)
    ensures Sum(a) == Sum(b) ==> a == b
  {
    if a == [] {
    } else {
      SumPointwise(a[1..], b[1..]);
      if Sum(a) == Sum(b) {
        assert a == [a[0]] + a[1..] && b == [b[0]] + b[1..];
      }
    }
  }

  /** Any amount up to the total of the caps can be spread under the caps. */
  lemma {:induction false} Spread(caps: seq<nat>, y: nat) returns (h: seq<nat>)
    requires y <= Sum(caps)
    ensures |h| == |caps| && Sum(h) == y
    ensures forall i :: 0 <= i < |caps| ==> h[i] <= caps[i]
  {
    if caps == [] {
      h := [];
    } else {
      var first := if y <= caps[0] then y else caps[0];
      var rest := Spread(caps[1..], y - first);
      h := [first] + rest;
      assert h[1..] == rest;
    }
  }

  lemma {:induction false} SumDifference(a: seq<nat>, b: seq<nat>, d: seq<nat>)
    requires |a| == |b| == |d|
    requires forall i :: 0 <= i < |a| ==> a[i] == b[i] + d[i]
    ensures Sum(a) == Sum(b) + Sum(d)
  {
    if a == [] {
    } else {
      SumDifference(a[1..], b[1..], d[1..]);
    }
  }
}
