/** The range finder as evidently intended: exclusive prefix sums, so the
    matched run and the run whose smallest and largest numbers are reported
    are the same slice `numbers[s..e]`, and runs have at least two numbers. */
module IntendedRange {
  import opened Outcomes
  import opened Sums
  import RangeSum

  /** `numbers[s..e]` has at least two numbers and sums to `target`. */
  ghost predicate IsRun(numbers: seq<nat>, target: nat, s: nat, e: nat)
  {
    s + 2 <= e <= |numbers| && Sum(numbers[s..e]) == target
  }

  /** `(s, e)` is the run with the smallest start, then the smallest end. */
  ghost predicate IsFirstRun(numbers: seq<nat>, target: nat, s: nat, e: nat)
  {
    && IsRun(numbers, target, s, e)
    && forall s': nat, e': nat :: IsRun(numbers, target, s', e') ==> s < s' || (s == s' && e <= e')
  }

  ghost predicate NoRun(numbers: seq<nat>, target: nat)
  {
    forall s: nat, e: nat :: !IsRun(numbers, target, s, e)
  }

  /** At most one pair is the first run. */
  lemma OnlyFirstRun(numbers: seq<nat>, target: nat, s: nat, e: nat)
    requires IsFirstRun(numbers, target, s, e)
    ensures forall s': nat, e': nat :: IsFirstRun(numbers, target, s', e') ==> s' == s && e' == e
  {
  }

  /** The inclusive running sum read one position to the left is the
      exclusive prefix sum `numbers[0] + ... + numbers[k - 1]`. */
  lemma ExclusivePrefix(numbers: seq<nat>, runningSum: seq<nat>, k: nat)
    requires |runningSum| == |numbers| && k <= |numbers|
    requires forall k' :: 0 <= k' < |numbers| ==> runningSum[k'] == Sum(numbers[..k' + 1])
    ensures (if k == 0 then 0 else runningSum[k - 1]) == Sum(numbers[..k])
  {
    if k > 0 {
      assert runningSum[k - 1] == Sum(numbers[..(k - 1) + 1]);
    }
  }

  /** The nested scan of the corrected `part2` over exclusive prefix sums:
      the first `(start, end)` with `end >= start + 2` whose run sums to
      `target`, if any. */
  method FindFirstRun(numbers: seq<nat>, runningSum: seq<nat>, target: nat) returns (found: bool, start: nat, end: nat)
    requires |runningSum| == |numbers|
    requires forall k :: 0 <= k < |numbers| ==> runningSum[k] == Sum(numbers[..k + 1])
    ensures found ==> IsFirstRun(numbers, target, start, end)
    ensures !found ==> NoRun(numbers, target)
  {
    for s := 0 to |numbers|
      invariant forall s': nat, e: nat :: IsRun(numbers, target, s', e) ==> s <= s'
    {
      for e := s + 2 to |numbers| + 1
        invariant forall e': nat :: IsRun(numbers, target, s, e') ==> e <= e'
      {
        var before := if s == 0 then 0 else runningSum[s - 1];
        var upTo := runningSum[e - 1];
        ExclusivePrefix(numbers, runningSum, s);
        ExclusivePrefix(numbers, runningSum, e);
        SumSlice(numbers, s, e);
        if upTo - before == target {
          return true, s, e;
        }
      }
    }
    return false, 0, 0;
  }

  /** Corrected `part2`: returns the smallest plus the largest number of the
      first run of at least two numbers summing to `target`; that addition
      cannot overflow, since it is bounded by the run's own sum. */
  method Part2Intended(numbers: seq<nat>, target: nat) returns (r: Outcome<Option<nat>>)
    requires target <= U64_MAX
    ensures Sum(numbers) > U64_MAX ==> r == Panicked(AddOverflow)
    ensures Sum(numbers) <= U64_MAX && NoRun(numbers, target) ==> r == Done(None)
    ensures Sum(numbers) <= U64_MAX ==>
              forall s: nat, e: nat :: IsFirstRun(numbers, target, s, e) ==>
                r == Done(Some(Min(numbers[s..e]) + Max(numbers[s..e])))
  {
    var built := RangeSum.RunningSum(numbers);
    if built.Panicked? {
      return Panicked(built.reason);
    }
    var found, start, end := FindFirstRun(numbers, built.value, target);
    if !found {
      return Done(None);
    }
    OnlyFirstRun(numbers, target, start, end);
    MinPlusMaxBelowSum(numbers[start..end]);
    return Done(Some(Min(numbers[start..end]) + Max(numbers[start..end])));
  }

  /** `part2` takes the slice one position left of the run it matched: on
      [1, 2, 3] with target 5 it matches running sums (0, 2), the run
      [2, 3], yet reports 1 + 2 = 3 from [1, 2]; the intended answer is 5. */
  lemma ShiftedSliceCounterexample()
    ensures RangeSum.IsFirstMatch([1, 2, 3], 5, 0, 2)
    ensures RangeSum.RangeAnswer([1, 2, 3], 0, 2) == Done(Some(3))
    ensures IsFirstRun([1, 2, 3], 5, 1, 3)
    ensures Min([2, 3]) + Max([2, 3]) == 5
  {
    var n: seq<nat> := [1, 2, 3];
    assert n[..1] == [1] && n[..2] == [1, 2] && n[..3] == n;
    assert [1, 2][..1] == [1] && [1, 2, 3][..2] == [1, 2];
    assert Sum(n[..1]) == 1 && Sum(n[..2]) == 3 && Sum(n[..3]) == 6;
    assert n[0..2] == [1, 2] && n[1..3] == [2, 3];
    assert [2, 3][..1] == [2];
    assert Sum([2, 3]) == 5;
    assert RangeSum.IsMatch(n, 5, 0, 2);
    assert n[0..2] == [1, 2] && n[0..3] == n;
    assert !IsRun(n, 5, 0, 2) && !IsRun(n, 5, 0, 3);
  }

  /** A run starting at the first number is never matched by `part2`:
      on [1, 2] with target 3 there is no match, though 1 + 2 == 3. */
  lemma FirstNumberNeverInRun()
    ensures RangeSum.NoMatch([1, 2], 3)
    ensures IsFirstRun([1, 2], 3, 0, 2)
  {
    var n: seq<nat> := [1, 2];
    assert n[..1] == [1] && n[..2] == n && n[0..2] == n;
    assert [1, 2][..1] == [1];
    assert Sum(n[..1]) == 1 && Sum(n[..2]) == 3;
  }

  /** `part2` also matches a single number, `end == start + 1`, and reports
      twice it: on [3, 5] with target 5 it matches (0, 1), the run [5], and
      reports 3 + 3 = 6 from [3]. The corrected scan counts only runs of at
      least two numbers, so it finds none here. */
  lemma SingleNumberRunDropped()
    ensures RangeSum.IsFirstMatch([3, 5], 5, 0, 1)
    ensures RangeSum.RangeAnswer([3, 5], 0, 1) == Done(Some(6))
    ensures NoRun([3, 5], 5)
  {
    var n: seq<nat> := [3, 5];
    assert n[..1] == [3] && n[..2] == n && n[0..1] == [3] && n[0..2] == n;
    assert [3, 5][..1] == [3];
    assert Sum(n[..1]) == 3 && Sum(n[..2]) == 8;
    forall s: nat, e: nat
      ensures !IsRun(n, 5, s, e)
    {
      if s + 2 <= e <= |n| {
        assert s == 0 && e == 2;
      }
    }
  }
}
