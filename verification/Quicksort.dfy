/** Randomised quicksort over an array of doubles, whose swap goes through an unsigned
    temporary. Doubles are reals here; no rounding takes place in this code. */
module Quicksort {

  /** One more than the largest unsigned. */
  const UNSIGNED_LIMIT: real := 4294967296.0

  /** Values that an unsigned can be converted from; others are undefined behaviour. */
  predicate Convertible(x: real) {
    0.0 <= x < UNSIGNED_LIMIT
  }

  /** The conversion of a double to unsigned and back. */
  function ThroughUnsigned(x: real): (r: real)
    ensures Convertible(x) ==> Convertible(r) && r <= x
  {
    x.Floor as real
  }

  /** The conversion drops the fraction: what it leaves is the largest whole number that
      does not exceed x. */
  lemma ThroughUnsignedIsLargest(x: real, k: int)
    requires Convertible(x)
    ensures ThroughUnsigned(x) <= x < ThroughUnsigned(x) + 1.0 && Whole(ThroughUnsigned(x))
    ensures k as real <= x ==> k as real <= ThroughUnsigned(x)
  {
    assert k as real <= x ==> k <= x.Floor;
  }

  /** The whole numbers that an unsigned can hold, as all results of rand() are. */
  predicate Whole(x: real) {
    Convertible(x) && x.Floor as real == x
  }

  lemma WholeIff(k: int)
    ensures Whole(k as real) <==> 0 <= k < 0x1_0000_0000
  {
    assert (k as real).Floor == k;
  }

  /** Exactly the whole numbers survive the conversion. */
  lemma SurvivesIff(x: real)
    requires Convertible(x)
    ensures ThroughUnsigned(x) == x <==> Whole(x)
  {
  }

  /** What swap leaves behind. */
  function Swapped(s: seq<real>, i: nat, j: nat): seq<real>
    requires i < |s| && j < |s|
  {
    s[i := s[j]][j := ThroughUnsigned(s[i])]
  }

  /** How often x occurs among the entries lo .. hi-1. */
  function Occurrences(s: seq<real>, x: real, lo: nat, hi: nat): nat
    requires hi <= |s|
  {
    if lo < hi then Occurrences(s, x, lo, hi - 1) + (if s[hi - 1] == x then 1 else 0) else 0
  }

  lemma {:induction false} OccurrencesFrame(s: seq<real>, t: seq<real>, x: real, lo: nat, hi: nat)
    requires hi <= |s| && hi <= |t|
    requires forall k :: lo <= k < hi ==> s[k] == t[k]
    ensures Occurrences(s, x, lo, hi) == Occurrences(t, x, lo, hi)
  {
    if lo < hi { OccurrencesFrame(s, t, x, lo, hi - 1); }
  }

  lemma {:induction false} OccurrencesSplit(s: seq<real>, x: real, lo: nat, mid: nat, hi: nat)
    requires lo <= mid <= hi <= |s|
    ensures Occurrences(s, x, lo, hi) == Occurrences(s, x, lo, mid) + Occurrences(s, x, mid, hi)
  {
    if mid < hi { OccurrencesSplit(s, x, lo, mid, hi - 1); }
  }

  lemma {:induction false} OccurrencesUpdate(s: seq<real>, i: nat, v: real, x: real, lo: nat, hi: nat)
    requires lo <= i < hi <= |s|
    ensures s[i] == x ==> Occurrences(s, x, lo, hi) > 0
    ensures Occurrences(s[i := v], x, lo, hi)
         == Occurrences(s, x, lo, hi) - (if s[i] == x then 1 else 0) + (if v == x then 1 else 0)
  {
    if i == hi - 1 {
      OccurrencesFrame(s, s[i := v], x, lo, hi - 1);
    } else {
      OccurrencesUpdate(s, i, v, x, lo, hi - 1);
    }
  }

  lemma {:induction false} OccurrenceFound(s: seq<real>, x: real, lo: nat, hi: nat) returns (k: nat)
    requires hi <= |s| && Occurrences(s, x, lo, hi) > 0
    ensures lo <= k < hi && s[k] == x
  {
    if s[hi - 1] == x {
      k := hi - 1;
    } else {
      k := OccurrenceFound(s, x, lo, hi - 1);
    }
  }

  ghost predicate SameEntries(s: seq<real>, t: seq<real>, lo: nat, hi: nat)
    requires hi <= |s| && hi <= |t|
  {
    forall x :: Occurrences(s, x, lo, hi) == Occurrences(t, x, lo, hi)
  }

  lemma {:induction false} OccurrencesInSlice(s: seq<real>, x: real, lo: nat, hi: nat)
    requires lo <= hi <= |s|
    ensures multiset(s[lo..hi])[x] == Occurrences(s, x, lo, hi)
  {
    if lo < hi {
      OccurrencesInSlice(s, x, lo, hi - 1);
      assert s[lo..hi] == s[lo..hi - 1] + [s[hi - 1]];
    }
  }

  lemma SwapOccurrences(s: seq<real>, i: nat, j: nat, x: real, lo: nat, hi: nat)
    requires lo <= i < hi && lo <= j < hi <= |s|
    ensures Occurrences(Swapped(s, i, j), x, lo, hi) == Occurrences(s, x, lo, hi)
      - (if s[i] == x then 1 else 0) + (if ThroughUnsigned(s[i]) == x then 1 else 0)
  {
    OccurrencesUpdate(s, i, s[j], x, lo, hi);
    OccurrencesUpdate(s[i := s[j]], j, ThroughUnsigned(s[i]), x, lo, hi);
  }

  /** swap keeps the entries exactly when its first operand is whole. */
  lemma SwapExchangesIff(s: seq<real>, i: nat, j: nat, lo: nat, hi: nat)
    requires lo <= i < hi && lo <= j < hi <= |s| && Convertible(s[i])
    ensures SameEntries(s, Swapped(s, i, j), lo, hi) <==> Whole(s[i])
  {
    forall x
      ensures Occurrences(Swapped(s, i, j), x, lo, hi) == Occurrences(s, x, lo, hi)
        - (if s[i] == x then 1 else 0) + (if ThroughUnsigned(s[i]) == x then 1 else 0)
    {
      SwapOccurrences(s, i, j, x, lo, hi);
    }
    assert !Whole(s[i]) ==> Occurrences(Swapped(s, i, j), s[i], lo, hi) != Occurrences(s, s[i], lo, hi);
  }

  /** after is before with the entries lo .. hi-1 permuted and the others unchanged. */
  ghost predicate Permuted(before: seq<real>, after: seq<real>, lo: nat, hi: nat) {
    && lo <= hi <= |before| == |after|
    && (forall k :: 0 <= k < |before| && !(lo <= k < hi) ==> after[k] == before[k])
    && SameEntries(before, after, lo, hi)
  }

  /** The same in terms of slices and multisets. */
  lemma PermutedSlices(before: seq<real>, after: seq<real>, lo: nat, hi: nat)
    requires Permuted(before, after, lo, hi)
    ensures before[..lo] == after[..lo] && before[hi..] == after[hi..]
    ensures multiset(before[lo..hi]) == multiset(after[lo..hi])
  {
    forall x: real
      ensures multiset(before[lo..hi])[x] == multiset(after[lo..hi])[x]
    {
      OccurrencesInSlice(before, x, lo, hi);
      OccurrencesInSlice(after, x, lo, hi);
    }
  }

  lemma PermutedTransitive(a: seq<real>, b: seq<real>, c: seq<real>, lo: nat, hi: nat)
    requires Permuted(a, b, lo, hi) && Permuted(b, c, lo, hi)
    ensures Permuted(a, c, lo, hi)
  {
  }

  /** A permutation of a part is a permutation of the whole. */
  lemma PermutedWider(a: seq<real>, b: seq<real>, lo: nat, hi: nat, lo': nat, hi': nat)
    requires Permuted(a, b, lo, hi) && lo' <= lo && hi <= hi' <= |a|
    ensures Permuted(a, b, lo', hi')
  {
    forall x
      ensures Occurrences(a, x, lo', hi') == Occurrences(b, x, lo', hi')
    {
      OccurrencesSplit(a, x, lo', lo, hi');
      OccurrencesSplit(a, x, lo, hi, hi');
      OccurrencesSplit(b, x, lo', lo, hi');
      OccurrencesSplit(b, x, lo, hi, hi');
      OccurrencesFrame(a, b, x, lo', lo);
      OccurrencesFrame(a, b, x, hi, hi');
    }
  }

  lemma SwapPermutes(s: seq<real>, i: nat, j: nat, lo: nat, hi: nat)
    requires lo <= i < hi && lo <= j < hi <= |s| && Whole(s[i])
    ensures Permuted(s, Swapped(s, i, j), lo, hi)
    ensures Swapped(s, i, j) == s[i := s[j]][j := s[i]]
  {
    SwapExchangesIff(s, i, j, lo, hi);
  }

  lemma PermutedSource(a: seq<real>, b: seq<real>, lo: nat, hi: nat, k: nat) returns (m: nat)
    requires Permuted(a, b, lo, hi) && lo <= k < hi
    ensures lo <= m < hi && a[m] == b[k]
  {
    OccurrencesUpdate(b, k, 0.0, b[k], lo, hi);
    m := OccurrenceFound(a, b[k], lo, hi);
  }

  /** Whatever bounds all entries of a part bounds them after a permutation. */
  lemma PermutedKeepsBounds(a: seq<real>, b: seq<real>, lo: nat, hi: nat, min: real, max: real)
    requires Permuted(a, b, lo, hi)
    requires forall k :: lo <= k < hi ==> min <= a[k] <= max
    ensures forall k :: lo <= k < hi ==> min <= b[k] <= max
  {
    forall k | lo <= k < hi
      ensures min <= b[k] <= max
    {
      var m := PermutedSource(a, b, lo, hi, k);
    }
  }

  ghost predicate AllWhole(s: seq<real>, lo: nat, hi: nat) {
    lo <= hi <= |s| && forall k :: lo <= k < hi ==> Whole(s[k])
  }

  lemma PermutedKeepsWhole(a: seq<real>, b: seq<real>, lo: nat, hi: nat)
    requires Permuted(a, b, lo, hi) && AllWhole(a, lo, hi)
    ensures AllWhole(b, lo, hi)
  {
    forall k | lo <= k < hi
      ensures Whole(b[k])
    {
      var m := PermutedSource(a, b, lo, hi, k);
    }
  }

  predicate SortedOn(s: seq<real>, lo: nat, hi: nat) {
    lo <= hi <= |s| && forall i, j :: lo <= i < j < hi ==> s[i] <= s[j]
  }

  /** A pivot with smaller entries sorted before it and larger ones sorted after it. */
  lemma SortedAround(s: seq<real>, lo: nat, p: nat, hi: nat)
    requires lo <= p < hi <= |s|
    requires SortedOn(s, lo, p) && SortedOn(s, p + 1, hi)
    requires forall k :: lo <= k < p ==> s[k] <= s[p]
    requires forall k :: p < k < hi ==> s[p] <= s[k]
    ensures SortedOn(s, lo, hi)
  {
  }

  method Swap(a: array<real>, i: nat, j: nat)
    requires i < a.Length && j < a.Length && Convertible(a[i])
    modifies a
    ensures a[..] == Swapped(old(a[..]), i, j)
  {
    var temp: int := a[i].Floor;
    a[i] := a[j];
    a[j] := temp as real;
  }

  /** Smaller or equal entries before the pivot, larger ones after it. */
  ghost predicate Split(s: seq<real>, lo: nat, p: nat, hi: nat) {
    && lo <= p < hi <= |s|
    && (forall k :: lo <= k < p ==> s[k] <= s[p])
    && (forall k :: p < k < hi ==> s[p] < s[k])
  }

  /** The state of the walk: the entries before target are not above the pivot value, the
      ones from target to index are. */
  ghost predicate Walked(before: seq<real>, s: seq<real>, start: nat, target: nat, index: nat, end: nat) {
    && start <= target <= index <= end < |s|
    && Permuted(before, s, start, end + 1)
    && AllWhole(s, start, end + 1)
    && (forall k :: start <= k < target ==> s[k] <= s[end])
    && (forall k :: target <= k < index ==> s[end] < s[k])
  }

  lemma WalkSwapPermutes(before: seq<real>, s: seq<real>, start: nat, target: nat, index: nat, end: nat)
    requires Walked(before, s, start, target, index, end) && index < end
    ensures Permuted(before, Swapped(s, target, index), start, end + 1)
    ensures AllWhole(Swapped(s, target, index), start, end + 1)
    ensures Swapped(s, target, index) == s[target := s[index]][index := s[target]]
  {
    var s' := Swapped(s, target, index);
    assert Whole(s[target]);
    SwapPermutes(s, target, index, start, end + 1);
    PermutedTransitive(before, s, s', start, end + 1);
    PermutedKeepsWhole(s, s', start, end + 1);
  }

  lemma WalkSwap(before: seq<real>, s: seq<real>, start: nat, target: nat, index: nat, end: nat)
    requires Walked(before, s, start, target, index, end)
    requires index < end && s[index] <= s[end]
    ensures Walked(before, Swapped(s, target, index), start, target + 1, index + 1, end)
    ensures Swapped(s, target, index)[end] == s[end]
  {
    WalkSwapPermutes(before, s, start, target, index, end);
  }

  lemma WalkEnds(before: seq<real>, s: seq<real>, start: nat, target: nat, end: nat)
    requires Walked(before, s, start, target, end, end)
    ensures Permuted(before, Swapped(s, target, end), start, end + 1)
    ensures Split(Swapped(s, target, end), start, target, end + 1)
  {
    assert Whole(s[target]);
    SwapPermutes(s, target, end, start, end + 1);
    PermutedTransitive(before, s, Swapped(s, target, end), start, end + 1);
  }

  lemma WalkStarts(before: seq<real>, pivot: nat, start: nat, end: nat)
    requires start <= pivot < end < |before| && AllWhole(before, start, end + 1)
    ensures Walked(before, Swapped(before, pivot, end), start, start, start, end)
  {
    assert Whole(before[pivot]);
    SwapPermutes(before, pivot, end, start, end + 1);
    PermutedKeepsWhole(before, Swapped(before, pivot, end), start, end + 1);
  }

  /** The result of rand() is arbitrary, and so is the pivot. */
  method Partition(a: array<real>, start: nat, end: nat) returns (target: nat)
    requires start < end < a.Length
    requires AllWhole(a[..], start, end + 1)
    modifies a
    ensures Permuted(old(a[..]), a[..], start, end + 1)
    ensures Split(a[..], start, target, end + 1)
  {
    var range := end - start;
    var rand: nat :| true;
    var pivot := rand % range + start;
    ghost var before := a[..];
    WalkStarts(before, pivot, start, end);
    assert Whole(a[..][pivot]);
    Swap(a, pivot, end);
    assert Whole(a[..][end]);
    var pivotVal: int := a[end].Floor;
    target := start;
    var index := start;
    while index < end
      invariant Walked(before, a[..], start, target, index, end)
      invariant a[..][end] == pivotVal as real
    {
      ghost var s := a[..];
      if a[index] <= pivotVal as real {
        WalkSwap(before, s, start, target, index, end);
        assert Whole(s[target]);
        Swap(a, target, index);
        target := target + 1;
      }
      index := index + 1;
    }
    WalkEnds(before, a[..], start, target, end);
    assert Whole(a[..][target]);
    Swap(a, target, end);
  }

  // ----- The three stages of one call, on snapshots of the array -----

  /** After partition. */
  ghost predicate Parted(s0: seq<real>, s1: seq<real>, lo: nat, p: nat, hi: nat) {
    Permuted(s0, s1, lo, hi) && Split(s1, lo, p, hi) && AllWhole(s1, lo, p) && AllWhole(s1, p + 1, hi)
  }

  /** After the first recursive call, if there was one. */
  ghost predicate LeftSorted(s0: seq<real>, s2: seq<real>, lo: nat, p: nat, hi: nat) {
    Permuted(s0, s2, lo, hi) && Split(s2, lo, p, hi) && SortedOn(s2, lo, p) && AllWhole(s2, p + 1, hi)
  }

  lemma PartitionParts(s0: seq<real>, s1: seq<real>, lo: nat, p: nat, hi: nat)
    requires AllWhole(s0, lo, hi) && Permuted(s0, s1, lo, hi) && Split(s1, lo, p, hi)
    ensures Parted(s0, s1, lo, p, hi)
  {
    PermutedKeepsWhole(s0, s1, lo, hi);
  }

  /** Sorting the left part keeps the split, and the right part as it was. */
  lemma LeftKeepsSplit(s1: seq<real>, s2: seq<real>, lo: nat, p: nat, hi: nat)
    requires Split(s1, lo, p, hi) && AllWhole(s1, lo, p) && Permuted(s1, s2, lo, p)
    ensures Split(s2, lo, p, hi)
  {
    PermutedKeepsBounds(s1, s2, lo, p, 0.0, s1[p]);
  }

  lemma LeftPart(s0: seq<real>, s1: seq<real>, s2: seq<real>, lo: nat, p: nat, hi: nat)
    requires Parted(s0, s1, lo, p, hi)
    requires if p > lo then Permuted(s1, s2, lo, p) && SortedOn(s2, lo, p) else s2 == s1
    ensures LeftSorted(s0, s2, lo, p, hi)
  {
    if p > lo {
      LeftKeepsSplit(s1, s2, lo, p, hi);
      PermutedWider(s1, s2, lo, p, lo, hi);
      PermutedTransitive(s0, s1, s2, lo, hi);
    }
  }

  lemma RightKeepsOrder(s2: seq<real>, s3: seq<real>, lo: nat, p: nat, hi: nat)
    requires Split(s2, lo, p, hi) && SortedOn(s2, lo, p) && AllWhole(s2, p + 1, hi)
    requires Permuted(s2, s3, p + 1, hi) && SortedOn(s3, p + 1, hi)
    ensures SortedOn(s3, lo, hi)
  {
    PermutedKeepsBounds(s2, s3, p + 1, hi, s2[p], UNSIGNED_LIMIT);
    SortedAround(s3, lo, p, hi);
  }

  lemma RightPart(s0: seq<real>, s2: seq<real>, s3: seq<real>, lo: nat, p: nat, hi: nat)
    requires LeftSorted(s0, s2, lo, p, hi)
    requires if p + 1 < hi then Permuted(s2, s3, p + 1, hi) && SortedOn(s3, p + 1, hi) else s3 == s2
    ensures Permuted(s0, s3, lo, hi) && SortedOn(s3, lo, hi)
  {
    if p + 1 < hi {
      RightKeepsOrder(s2, s3, lo, p, hi);
      PermutedWider(s2, s3, p + 1, hi, lo, hi);
      PermutedTransitive(s0, s2, s3, lo, hi);
    } else {
      SortedAround(s3, lo, p, hi);
    }
  }

  lemma RightStaysWhole(s1: seq<real>, s2: seq<real>, lo: nat, p: nat, hi: nat)
    requires AllWhole(s1, p + 1, hi) && lo <= p
    requires if p > lo then Permuted(s1, s2, lo, p) else s2 == s1
    ensures AllWhole(s2, p + 1, hi)
  {
  }

  /** The whole call. */
  lemma Stages(s0: seq<real>, s1: seq<real>, s2: seq<real>, s3: seq<real>, lo: nat, p: nat, hi: nat)
    requires Parted(s0, s1, lo, p, hi)
    requires if p > lo then Permuted(s1, s2, lo, p) && SortedOn(s2, lo, p) else s2 == s1
    requires if p + 1 < hi then Permuted(s2, s3, p + 1, hi) && SortedOn(s3, p + 1, hi) else s3 == s2
    ensures Permuted(s0, s3, lo, hi) && SortedOn(s3, lo, hi)
  {
    LeftPart(s0, s1, s2, lo, p, hi);
    RightPart(s0, s2, s3, lo, p, hi);
  }

  /** For every choice of pivots: the slice start .. end ends up sorted, a permutation of
      what it was, and the rest of the array is untouched. */
  method Quicksort(a: array<real>, start: nat, end: nat)
    requires start <= end < a.Length
    requires AllWhole(a[..], start, end + 1)
    modifies a
    ensures Permuted(old(a[..]), a[..], start, end + 1)
    ensures SortedOn(a[..], start, end + 1)
    decreases end - start
  {
    ghost var s0 := a[..];
    if start < end {
      var pivot := Partition(a, start, end);
      ghost var s1 := a[..];
      PartitionParts(s0, s1, start, pivot, end + 1);
      if pivot > start {
        Quicksort(a, start, pivot - 1);
      }
      ghost var s2 := a[..];
      RightStaysWhole(s1, s2, start, pivot, end + 1);
      if pivot < end {
        Quicksort(a, pivot + 1, end);
      }
      Stages(s0, s1, s2, a[..], start, pivot, end + 1);
    }
  }
}
