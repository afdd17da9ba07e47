/** `part2` and `part2_b`: find a contiguous run summing to a target through
    inclusive running sums, and report the smallest plus the largest number
    of the slice the code then takes. */
module RangeSum {
  import opened Outcomes
  import opened Sums

  /** `running_sum[end] - running_sum[start] == target`, with the inclusive
      running sum `running_sum[k] == numbers[0] + ... + numbers[k]`. */
  ghost predicate IsMatch(numbers: seq<nat>, target: nat, s: nat, e: nat)
  {
    s <= e < |numbers| && Sum(numbers[..e + 1]) - Sum(numbers[..s + 1]) == target
  }

  /** `(s, e)` is the first match in the order the nested loops try pairs. */
  ghost predicate IsFirstMatch(numbers: seq<nat>, target: nat, s: nat, e: nat)
  {
    && IsMatch(numbers, target, s, e)
    && forall s': nat, e': nat :: IsMatch(numbers, target, s', e') ==> s < s' || (s == s' && e <= e')
  }

  ghost predicate NoMatch(numbers: seq<nat>, target: nat)
  {
    forall s: nat, e: nat :: !IsMatch(numbers, target, s, e)
  }

  /** What the code returns once it has matched `(s, e)`: the smallest plus
      the largest number of `numbers[s..e]`. On an empty slice `min()` is
      `None` and `unwrap()` aborts; the final `u64` addition may overflow. */
  ghost function RangeAnswer(numbers: seq<nat>, s: nat, e: nat): (r: Outcome<Option<nat>>)
    requires s <= e <= |numbers|
  {
    if s == e then Panicked(UnwrapNone)
    else if Min(numbers[s..e]) + Max(numbers[s..e]) > U64_MAX then Panicked(AddOverflow)
    else Done(Some(Min(numbers[s..e]) + Max(numbers[s..e])))
  }

  /** The inclusive running sum built with `scan`; a checked addition
      aborts as soon as a prefix sum leaves `u64`, which happens exactly when
      the total does. */
  method RunningSum(numbers: seq<nat>) returns (r: Outcome<seq<nat>>)
    ensures Sum(numbers) > U64_MAX ==> r == Panicked(AddOverflow)
    ensures Sum(numbers) <= U64_MAX ==>
              r.Done? && |r.value| == |numbers|
              && forall k :: 0 <= k < |numbers| ==> r.value[k] == Sum(numbers[..k + 1])
  {
    var state := 0;
    var sums: seq<nat> := [];
    assert numbers[..|numbers|] == numbers;
    for k := 0 to |numbers|
      invariant |sums| == k
      invariant state == Sum(numbers[..k]) <= U64_MAX
      invariant forall k' :: 0 <= k' < k ==> sums[k'] == Sum(numbers[..k' + 1])
    {
      assert numbers[..k + 1][..k] == numbers[..k];
      state := state + numbers[k];
      if state > U64_MAX {
        PrefixSumMonotone(numbers, k + 1, |numbers|);
        return Panicked(AddOverflow);
      }
      sums := sums + [state];
    }
    return Done(sums);
  }

  /** The difference of two inclusive running sums is the sum of the run
      just AFTER `start`: `numbers[start + 1..=end]`. */
  lemma MatchIsShiftedRun(numbers: seq<nat>, target: nat, s: nat, e: nat)
    requires s <= e < |numbers|
    ensures IsMatch(numbers, target, s, e) <==> Sum(numbers[s + 1..e + 1]) == target
  {
    SumSlice(numbers, s + 1, e + 1);
  }

  /** With strictly positive numbers a start has at most one matching end. */
  lemma UniqueEnd(numbers: seq<nat>, target: nat, s: nat, e: nat, e': nat)
    requires forall k :: 0 <= k < |numbers| ==> numbers[k] > 0
    requires IsMatch(numbers, target, s, e) && IsMatch(numbers, target, s, e')
    ensures e == e'
  {
    if e < e' {
      PrefixSumStrict(numbers, e + 1, e' + 1);
    } else if e' < e {
      PrefixSumStrict(numbers, e' + 1, e + 1);
    }
  }

  /** Any match implies a lexicographically first one. */
  lemma {:induction false} FirstMatchExists(numbers: seq<nat>, target: nat, s: nat, e: nat)
    requires IsMatch(numbers, target, s, e)
    ensures exists s': nat, e': nat :: IsFirstMatch(numbers, target, s', e')
    decreases s, e
  {
    if !IsFirstMatch(numbers, target, s, e) {
      var s': nat, e': nat :| IsMatch(numbers, target, s', e') && !(s < s' || (s == s' && e <= e'));
      FirstMatchExists(numbers, target, s', e');
    }
  }

  /** At most one pair is the first match. */
  lemma OnlyFirstMatch(numbers: seq<nat>, target: nat, s: nat, e: nat)
    requires IsFirstMatch(numbers, target, s, e)
    ensures forall s': nat, e': nat :: IsFirstMatch(numbers, target, s', e') ==> s' == s && e' == e
  {
  }

  /** `numbers[s..e].iter().min().unwrap() + numbers[s..e].iter().max().unwrap()`. */
  method MinPlusMax(numbers: seq<nat>, s: nat, e: nat) returns (r: Outcome<Option<nat>>)
    requires s <= e <= |numbers|
    ensures r == RangeAnswer(numbers, s, e)
  {
    if s == e {
      return Panicked(UnwrapNone);
    }
    var lowest := Min(numbers[s..e]);
    var highest := Max(numbers[s..e]);
    if lowest + highest > U64_MAX {
      return Panicked(AddOverflow);
    }
    return Done(Some(lowest + highest));
  }

  /** `part2`: quadratic scan over `(start, end)` with `start <= end`. */
  method Part2(numbers: seq<nat>, target: nat) returns (r: Outcome<Option<nat>>)
    requires target <= U64_MAX
    ensures Sum(numbers) > U64_MAX ==> r == Panicked(AddOverflow)
    ensures Sum(numbers) <= U64_MAX && NoMatch(numbers, target) ==> r == Done(None)
    ensures Sum(numbers) <= U64_MAX ==>
              forall s: nat, e: nat :: IsFirstMatch(numbers, target, s, e) ==> r == RangeAnswer(numbers, s, e)
  {
    var built := RunningSum(numbers);
    if built.Panicked? {
      return Panicked(built.reason);
    }
    var runningSum := built.value;
    for start := 0 to |runningSum|
      invariant forall s: nat, e: nat :: IsMatch(numbers, target, s, e) ==> start <= s
    {
      for end := start to |runningSum|
        invariant forall e: nat :: IsMatch(numbers, target, start, e) ==> end <= e
      {
        PrefixSumMonotone(numbers, start + 1, end + 1);
        var windowSum := runningSum[end] - runningSum[start];
        if windowSum == target {
          assert IsMatch(numbers, target, start, end);
          assert IsFirstMatch(numbers, target, start, end);
          OnlyFirstMatch(numbers, target, start, end);
          r := MinPlusMax(numbers, start, end);
          return;
        }
      }
    }
    return Done(None);
  }

  /** Once the needle `running_sum[start] + target` overflows, no match is
      left: every later running sum already exceeds what a match needs. */
  lemma NeedleOverflow(numbers: seq<nat>, target: nat, start: nat)
    requires start < |numbers| && Sum(numbers) <= U64_MAX
    requires forall s: nat, e: nat :: IsMatch(numbers, target, s, e) ==> start <= s
    requires Sum(numbers[..start + 1]) + target > U64_MAX
    ensures NoMatch(numbers, target)
    ensures Sum(numbers) + target > U64_MAX
  {
    PrefixSumMonotone(numbers, start + 1, |numbers|);
    assert numbers[..|numbers|] == numbers;
    forall s: nat, e: nat | IsMatch(numbers, target, s, e) ensures false {
      NoMatchPastNeedle(numbers, target, start, s, e);
    }
  }

  lemma NoMatchPastNeedle(numbers: seq<nat>, target: nat, start: nat, s: nat, e: nat)
    requires start <= s && IsMatch(numbers, target, s, e)
    requires Sum(numbers[..start + 1]) + target > U64_MAX
    ensures Sum(numbers) > U64_MAX
  {
    PrefixSumMonotone(numbers, start + 1, s + 1);
    PrefixSumMonotone(numbers, e + 1, |numbers|);
    assert numbers[..|numbers|] == numbers;
  }

  /** A match at the first start that has one fixes the first match's start. */
  lemma FirstMatchStartsAt(numbers: seq<nat>, target: nat, start: nat, end: nat)
    requires IsMatch(numbers, target, start, end)
    requires forall s: nat, e: nat :: IsMatch(numbers, target, s, e) ==> start <= s
    ensures forall s: nat, e: nat :: IsFirstMatch(numbers, target, s, e) ==> s == start
  {
  }

  /** `slice::binary_search` on a sorted slice, by its documented contract:
      some position holding `key` if there is one (which one, among equal
      values, is unspecified), none otherwise. */
  method BinarySearch(a: seq<nat>, key: nat) returns (r: Option<nat>)
    requires forall i, j :: 0 <= i <= j < |a| ==> a[i] <= a[j]
    ensures r.Some? ==> r.value < |a| && a[r.value] == key
    ensures r.None? ==> key !in a
  {
    var lo, hi := 0, |a|;
    while lo < hi
      invariant 0 <= lo <= hi <= |a|
      invariant forall i :: 0 <= i < lo ==> a[i] < key
      invariant forall i :: hi <= i < |a| ==> key < a[i]
    {
      var mid := lo + (hi - lo) / 2;
      if a[mid] < key {
        lo := mid + 1;
      } else if key < a[mid] {
        hi := mid;
      } else {
        return Some(mid);
      }
    }
    return None;
  }

  /** `part2_b`: for each start, binary-search `running_sum[start..]` for
      `running_sum[start] + target`. It finds the same first start as
      `part2` but may pick any matching end; the addition computing the
      needle may also overflow when no match exists. */
  method Part2B(numbers: seq<nat>, target: nat) returns (r: Outcome<Option<nat>>)
    requires target <= U64_MAX
    ensures Sum(numbers) > U64_MAX ==> r == Panicked(AddOverflow)
    ensures Sum(numbers) <= U64_MAX && NoMatch(numbers, target) ==>
              r == if Sum(numbers) + target > U64_MAX then Panicked(AddOverflow) else Done(None)
    ensures Sum(numbers) <= U64_MAX ==>
              forall s: nat, e: nat :: IsFirstMatch(numbers, target, s, e) ==>
                exists e': nat :: IsMatch(numbers, target, s, e') && r == RangeAnswer(numbers, s, e')
  {
    var built := RunningSum(numbers);
    if built.Panicked? {
      return Panicked(built.reason);
    }
    var runningSum := built.value;
    for start := 0 to |runningSum|
      invariant forall s: nat, e: nat :: IsMatch(numbers, target, s, e) ==> start <= s
      invariant Sum(numbers[..start]) + target <= U64_MAX
    {
      var needed := runningSum[start] + target;
      if needed > U64_MAX {
        NeedleOverflow(numbers, target, start);
        return Panicked(AddOverflow);
      }
      var tail := runningSum[start..];
      forall i, j | 0 <= i <= j < |tail| ensures tail[i] <= tail[j] {
        PrefixSumMonotone(numbers, start + i + 1, start + j + 1);
      }
      var found := BinarySearch(tail, needed);
      if found.Some? {
        var end := start + found.value;
        assert IsMatch(numbers, target, start, end);
        FirstMatchStartsAt(numbers, target, start, end);
        r := MinPlusMax(numbers, start, end);
        return;
      }
      assert forall e: nat :: IsMatch(numbers, target, start, e) ==> tail[e - start] == needed;
    }
    assert numbers[..|numbers|] == numbers;
    return Done(None);
  }

  /** With strictly positive numbers, `part2` and `part2_b` return the same
      outcome, unless there is no match and the needle addition of
      `part2_b` overflows. */
  method CompareRangeFinders(numbers: seq<nat>, target: nat) returns (quadratic: Outcome<Option<nat>>, bisect: Outcome<Option<nat>>)
    requires target <= U64_MAX
    ensures (forall k :: 0 <= k < |numbers| ==> numbers[k] > 0)
            && (!NoMatch(numbers, target) || Sum(numbers) + target <= U64_MAX)
            ==> quadratic == bisect
  {
    quadratic := Part2(numbers, target);
    bisect := Part2B(numbers, target);
    if (forall k :: 0 <= k < |numbers| ==> numbers[k] > 0)
       && !NoMatch(numbers, target) && Sum(numbers) <= U64_MAX {
      var s0: nat, e0: nat :| IsMatch(numbers, target, s0, e0);
      FirstMatchExists(numbers, target, s0, e0);
      var s: nat, e: nat :| IsFirstMatch(numbers, target, s, e);
      var e': nat :| IsMatch(numbers, target, s, e') && bisect == RangeAnswer(numbers, s, e');
      UniqueEnd(numbers, target, s, e, e');
    }
  }

  /** With a zero among the numbers a start can have several matching ends
      with different answers, and `part2_b` may pick any of them: on
      [5, 1, 0, 9] with target 1 both (0, 1) and (0, 2) match. */
  lemma ZerosAllowDifferentEnds()
    ensures IsFirstMatch([5, 1, 0, 9], 1, 0, 1)
    ensures IsMatch([5, 1, 0, 9], 1, 0, 2)
    ensures RangeAnswer([5, 1, 0, 9], 0, 1) == Done(Some(10))
    ensures RangeAnswer([5, 1, 0, 9], 0, 2) == Done(Some(6))
  {
    var n: seq<nat> := [5, 1, 0, 9];
    assert n[..1] == [5] && n[..2] == [5, 1] && n[..3] == [5, 1, 0];
    assert [5, 1][..1] == [5] && [5, 1, 0][..2] == [5, 1];
    assert Sum(n[..1]) == 5 && Sum(n[..2]) == 6 && Sum(n[..3]) == 6;
    assert n[0..1] == [5] && n[0..2] == [5, 1];
    assert IsMatch(n, 1, 0, 1);
  }

  /** When the target is zero the first match is `(0, 0)`, so whenever the
      running sum fits `part2` unwraps the minimum of an empty slice. */
  lemma TargetZeroPanics(numbers: seq<nat>)
    requires |numbers| > 0
    ensures IsFirstMatch(numbers, 0, 0, 0)
    ensures RangeAnswer(numbers, 0, 0) == Panicked(UnwrapNone)
  {
  }
}
