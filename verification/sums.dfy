/** Sums, minima and maxima of sequences of natural numbers. */
module Sums {

  /** Sum of all elements, accumulated from the left as `Iterator::scan` does. */
  function Sum(s: seq<nat>): (r: nat)
  {
    if |s| == 0 then 0 else Sum(s[..|s| - 1]) + s[|s| - 1]
  }

  /** Smallest element (`iter().min().unwrap()` on a non-empty slice). */
  function Min(s: seq<nat>): (m: nat)
    requires |s| > 0
    ensures m in s
    ensures forall k :: 0 <= k < |s| ==> m <= s[k]
  {
    if |s| == 1 then s[0]
    else
      var m' := Min(s[..|s| - 1]);
      assert forall k :: 0 <= k < |s| - 1 ==> s[..|s| - 1][k] == s[k];
      if s[|s| - 1] < m' then s[|s| - 1] else m'
  }

  /** Largest element (`iter().max().unwrap()` on a non-empty slice). */
  function Max(s: seq<nat>): (m: nat)
    requires |s| > 0
    ensures m in s
    ensures forall k :: 0 <= k < |s| ==> s[k] <= m
  {
    if |s| == 1 then s[0]
    else
      var m' := Max(s[..|s| - 1]);
      assert forall k :: 0 <= k < |s| - 1 ==> s[..|s| - 1][k] == s[k];
      if s[|s| - 1] > m' then s[|s| - 1] else m'
  }

  /** Sums distribute over concatenation. */
  lemma {:induction false} SumAppend(a: seq<nat>, b: seq<nat>)
    ensures Sum(a + b) == Sum(a) + Sum(b)
    decreases |b|
  {
    if |b| == 0 {
      assert a + b == a;
    } else {
      assert (a + b)[..|a + b| - 1] == a + b[..|b| - 1];
      SumAppend(a, b[..|b| - 1]);
    }
  }

  /** The sum of a slice is the difference of two prefix sums. */
  lemma SumSlice(s: seq<nat>, i: nat, j: nat)
    requires i <= j <= |s|
    ensures Sum(s[..j]) == Sum(s[..i]) + Sum(s[i..j])
  {
    assert s[..j] == s[..i] + s[i..j];
    SumAppend(s[..i], s[i..j]);
  }

  /** Prefix sums never decrease: all elements are natural numbers. */
  lemma PrefixSumMonotone(s: seq<nat>, i: nat, j: nat)
    requires i <= j <= |s|
    ensures Sum(s[..i]) <= Sum(s[..j])
  {
    SumSlice(s, i, j);
  }

  /** With strictly positive elements prefix sums strictly increase. */
  lemma {:induction false} PrefixSumStrict(s: seq<nat>, i: nat, j: nat)
    requires i < j <= |s|
    requires forall k :: 0 <= k < |s| ==> s[k] > 0
    ensures Sum(s[..i]) < Sum(s[..j])
  {
    SumSlice(s, i, j);
    assert s[i..j] == s[i..j - 1] + [s[j - 1]];
    SumAppend(s[i..j - 1], [s[j - 1]]);
    assert Sum([s[j - 1]]) == s[j - 1] by {
      assert |[s[j - 1]][..0]| == 0;
    }
  }

  /** Two elements at distinct positions never add up to more than the whole sum. */
  lemma {:induction false} TwoElementsBelowSum(s: seq<nat>, i: nat, j: nat)
    requires i < |s| && j < |s| && i != j
    ensures s[i] + s[j] <= Sum(s)
    decreases |s|
  {
    var last := |s| - 1;
    if i == last || j == last {
      var other := if i == last then j else i;
      SingleElementBelowSum(s[..last], other);
    } else {
      TwoElementsBelowSum(s[..last], i, j);
    }
  }

  /** One element never exceeds the sum. */
  lemma {:induction false} SingleElementBelowSum(s: seq<nat>, i: nat)
    requires i < |s|
    ensures s[i] <= Sum(s)
    decreases |s|
  {
    if i < |s| - 1 {
      SingleElementBelowSum(s[..|s| - 1], i);
    }
  }

  /** For at least two elements, smallest plus largest is at most the sum. */
  lemma MinPlusMaxBelowSum(s: seq<nat>)
    requires |s| >= 2
    ensures Min(s) + Max(s) <= Sum(s)
  {
    var hi :| 0 <= hi < |s| && s[hi] == Max(s);
    var other := if hi == 0 then 1 else 0;
    TwoElementsBelowSum(s, hi, other);
  }
}
