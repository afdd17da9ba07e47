/** Pair-sum search over a window, in the order `itertools::combinations(2)`
    yields pairs: (0,1), (0,2), ..., (0,n-1), (1,2), ..., (n-2,n-1). */
module PairSums {
  import opened Outcomes

  /** Two distinct positions of `w` hold values that add up to `target`. */
  ghost predicate HasPairSum(w: seq<nat>, target: nat)
  {
    exists a, b :: 0 <= a < b < |w| && w[a] + w[b] == target
  }

  /** Such a pair exists at or after position (i, j) of the combinations order. */
  ghost predicate HasPairSumFrom(w: seq<nat>, target: nat, i: nat, j: nat)
  {
    exists a, b :: 0 <= a < b < |w| && (i < a || (i == a && j <= b)) && w[a] + w[b] == target
  }

  /** Resuming at the first pair means searching the whole window. */
  lemma HasPairSumFromStart(w: seq<nat>, target: nat)
    ensures HasPairSumFrom(w, target, 0, 1) <==> HasPairSum(w, target)
  {
  }

  /** Adding the values at any two distinct positions of `w` stays within `u64`. */
  ghost predicate PairsFit(w: seq<nat>)
  {
    forall a, b :: 0 <= a < b < |w| ==> w[a] + w[b] <= U64_MAX
  }

  /** `combinations(2).find(|p| *p[0] + *p[1] == target).is_some()`, resumed
      at pair (i, j). Each addition is checked and aborts on overflow before
      the comparison, so the first overflowing pair reached decides. */
  function FindPairFrom(w: seq<nat>, target: nat, i: nat, j: nat): (r: Outcome<bool>)
    requires i < j
    decreases |w| - i, |w| - j
  {
    if i + 1 >= |w| then Done(false)
    else if j >= |w| then FindPairFrom(w, target, i + 1, i + 2)
    else if w[i] + w[j] > U64_MAX then Panicked(AddOverflow)
    else if w[i] + w[j] == target then Done(true)
    else FindPairFrom(w, target, i, j + 1)
  }

  /** How the remaining pairs from (i, j) split into the next pair and the rest. */
  lemma HasPairSumFromStep(w: seq<nat>, target: nat, i: nat, j: nat)
    requires i < j && i + 1 < |w|
    ensures j >= |w| ==> (HasPairSumFrom(w, target, i, j) <==> HasPairSumFrom(w, target, i + 1, i + 2))
    ensures j < |w| ==> (HasPairSumFrom(w, target, i, j) <==>
                           w[i] + w[j] == target || HasPairSumFrom(w, target, i, j + 1))
  {
    if HasPairSumFrom(w, target, i, j) {
      var a, b :| 0 <= a < b < |w| && (i < a || (i == a && j <= b)) && w[a] + w[b] == target;
      if j >= |w| {
        assert HasPairSumFrom(w, target, i + 1, i + 2);
      } else if !(a == i && b == j) {
        assert HasPairSumFrom(w, target, i, j + 1);
      }
    }
    if j < |w| && w[i] + w[j] == target {
      assert HasPairSumFrom(w, target, i, j);
    }
  }

  /** When no addition can overflow, the search reports exactly whether a
      matching pair lies ahead of (i, j). */
  lemma {:induction false} FindPairFromMeaning(w: seq<nat>, target: nat, i: nat, j: nat)
    requires i < j
    requires PairsFit(w)
    ensures FindPairFrom(w, target, i, j) == Done(HasPairSumFrom(w, target, i, j))
    decreases |w| - i, |w| - j
  {
    if i + 1 >= |w| {
    } else if j >= |w| {
      HasPairSumFromStep(w, target, i, j);
      FindPairFromMeaning(w, target, i + 1, i + 2);
    } else {
      HasPairSumFromStep(w, target, i, j);
      if w[i] + w[j] != target {
        FindPairFromMeaning(w, target, i, j + 1);
      }
    }
  }

  /** The search only ever aborts on an addition that really overflows. */
  lemma {:induction false} FindPairFromPanicsOnlyOnOverflow(w: seq<nat>, target: nat, i: nat, j: nat)
    requires i < j
    requires FindPairFrom(w, target, i, j).Panicked?
    ensures FindPairFrom(w, target, i, j).reason == AddOverflow
    ensures !PairsFit(w)
  {
    if PairsFit(w) {
      FindPairFromMeaning(w, target, i, j);
    } else {
      FindPairFromReason(w, target, i, j);
    }
  }

  lemma {:induction false} FindPairFromReason(w: seq<nat>, target: nat, i: nat, j: nat)
    requires i < j
    requires FindPairFrom(w, target, i, j).Panicked?
    ensures FindPairFrom(w, target, i, j).reason == AddOverflow
    decreases |w| - i, |w| - j
  {
    if i + 1 >= |w| {
    } else if j >= |w| {
      FindPairFromReason(w, target, i + 1, i + 2);
    } else if w[i] + w[j] > U64_MAX {
    } else if w[i] + w[j] != target {
      FindPairFromReason(w, target, i, j + 1);
    }
  }

  /** `find_sum(window)`: do two distinct positions among all but the last
      element add up to the last element? `window.len() - 1` underflows on
      an empty window. */
  function FindSum(window: seq<nat>): (r: Outcome<bool>)
  {
    if |window| == 0 then Panicked(SubOverflow)
    else FindPairFrom(window[..|window| - 1], window[|window| - 1], 0, 1)
  }

  /** `find_sum` is true exactly when the elements before the last one hold
      a pair summing to it; it aborts on an empty window. */
  lemma FindSumMeaning(window: seq<nat>)
    ensures |window| == 0 ==> FindSum(window) == Panicked(SubOverflow)
    ensures |window| > 0 && PairsFit(window[..|window| - 1]) ==>
              FindSum(window) == Done(HasPairSum(window[..|window| - 1], window[|window| - 1]))
  {
    if |window| > 0 && PairsFit(window[..|window| - 1]) {
      var w := window[..|window| - 1];
      var t := window[|window| - 1];
      FindPairFromMeaning(w, t, 0, 1);
      HasPairSumFromStart(w, t);
    }
  }
}
