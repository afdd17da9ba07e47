/** `part1` and `part1_b`: the first number that is not the sum of two
    numbers of its sliding window, with `find_sum`'s window as the intended
    alternative. */
module SlidingWindow {
  import opened Outcomes
  import opened PairSums

  /** The window `numbers.windows(preamble + 1)` gives for target index `k`:
      the `preamble` numbers before `k` and `numbers[k]` itself. */
  ghost predicate WindowValid(numbers: seq<nat>, preamble: nat, k: nat)
    requires preamble <= k < |numbers|
  {
    HasPairSum(numbers[k - preamble..k + 1], numbers[k])
  }

  /** The rule as `find_sum` states it: two of the `preamble` numbers before
      `k`, not counting `numbers[k]` itself, add up to `numbers[k]`. */
  ghost predicate PreambleValid(numbers: seq<nat>, preamble: nat, k: nat)
    requires preamble <= k < |numbers|
  {
    HasPairSum(numbers[k - preamble..k], numbers[k])
  }

  /** `k` is the first target index whose window holds no matching pair. */
  ghost predicate IsFirstInvalidWindow(numbers: seq<nat>, preamble: nat, k: nat)
  {
    && preamble <= k < |numbers|
    && !WindowValid(numbers, preamble, k)
    && forall k' :: preamble <= k' < k ==> WindowValid(numbers, preamble, k')
  }

  /** `k` is the first target index whose preamble holds no matching pair. */
  ghost predicate IsFirstInvalidPreamble(numbers: seq<nat>, preamble: nat, k: nat)
  {
    && preamble <= k < |numbers|
    && !PreambleValid(numbers, preamble, k)
    && forall k' :: preamble <= k' < k ==> PreambleValid(numbers, preamble, k')
  }

  /** No addition of two numbers at most `span` positions apart overflows. */
  ghost predicate NearPairsFit(numbers: seq<nat>, span: nat)
  {
    forall a, b :: 0 <= a < b < |numbers| && b <= a + span ==> numbers[a] + numbers[b] <= U64_MAX
  }

  /** `part1_b`, resumed at the window that starts at index `s`:
      `windows(preamble + 1).find_map(...)`. */
  function Part1BFrom(numbers: seq<nat>, preamble: nat, s: nat): (r: Outcome<Option<nat>>)
    decreases |numbers| - s
  {
    if s + preamble + 1 > |numbers| then Done(None)
    else
      match FindPairFrom(numbers[s..s + preamble + 1], numbers[s + preamble], 0, 1)
      case Panicked(why) => Panicked(why)
      case Done(true) => Part1BFrom(numbers, preamble, s + 1)
      case Done(false) => Done(Some(numbers[s + preamble]))
  }

  /** `part1_b(numbers, preamble)`. */
  function Part1B(numbers: seq<nat>, preamble: nat): (r: Outcome<Option<nat>>)
  {
    Part1BFrom(numbers, preamble, 0)
  }

  /** `part1`: the same scan written as a loop with an early return. */
  method Part1(numbers: seq<nat>, preamble: nat) returns (r: Outcome<Option<nat>>)
    ensures r == Part1B(numbers, preamble)
  {
    var s := 0;
    while s + preamble + 1 <= |numbers|
      invariant Part1BFrom(numbers, preamble, s) == Part1B(numbers, preamble)
      decreases |numbers| - s
    {
      var window := numbers[s..s + preamble + 1];
      var target := window[preamble];
      var found := FindPairFrom(window, target, 0, 1);
      if found.Panicked? {
        return Panicked(found.reason);
      }
      if !found.value {
        return Done(Some(target));
      }
      s := s + 1;
    }
    return Done(None);
  }

  lemma {:induction false} Part1BFromMeaning(numbers: seq<nat>, preamble: nat, s: nat)
    requires NearPairsFit(numbers, preamble)
    ensures Part1BFrom(numbers, preamble, s).Done?
    ensures Part1BFrom(numbers, preamble, s) == Done(None) <==>
              forall k :: s + preamble <= k < |numbers| ==> WindowValid(numbers, preamble, k)
    ensures forall k :: s + preamble <= k < |numbers| && !WindowValid(numbers, preamble, k)
                        && (forall k' :: s + preamble <= k' < k ==> WindowValid(numbers, preamble, k'))
                     ==> Part1BFrom(numbers, preamble, s) == Done(Some(numbers[k]))
    decreases |numbers| - s
  {
    if s + preamble + 1 <= |numbers| {
      var k := s + preamble;
      WindowStep(numbers, preamble, s);
      var r := Part1BFrom(numbers, preamble, s);
      if WindowValid(numbers, preamble, k) {
        assert r == Part1BFrom(numbers, preamble, s + 1);
        Part1BFromMeaning(numbers, preamble, s + 1);
        forall k' | k <= k' < |numbers| && !WindowValid(numbers, preamble, k')
                    && (forall k'' :: k <= k'' < k' ==> WindowValid(numbers, preamble, k''))
          ensures r == Done(Some(numbers[k']))
        {
          assert k' != k;
        }
      } else {
        assert r == Done(Some(numbers[k]));
        forall k' | k <= k' < |numbers| && !WindowValid(numbers, preamble, k')
                    && (forall k'' :: k <= k'' < k' ==> WindowValid(numbers, preamble, k''))
          ensures k' == k
        {
        }
      }
    }
  }

  /** A slice no longer than `span + 1` inherits `NearPairsFit`. */
  lemma SlicePairsFit(numbers: seq<nat>, span: nat, lo: nat, hi: nat)
    requires lo <= hi <= |numbers| && hi <= lo + span + 1
    requires NearPairsFit(numbers, span)
    ensures PairsFit(numbers[lo..hi])
  {
    var w := numbers[lo..hi];
    forall a, b | 0 <= a < b < |w| ensures w[a] + w[b] <= U64_MAX {
      assert w[a] == numbers[lo + a] && w[b] == numbers[lo + b];
    }
  }

  /** The check of the window starting at `s` decides `WindowValid` for its target. */
  lemma WindowStep(numbers: seq<nat>, preamble: nat, s: nat)
    requires s + preamble < |numbers|
    requires NearPairsFit(numbers, preamble)
    ensures FindPairFrom(numbers[s..s + preamble + 1], numbers[s + preamble], 0, 1)
            == Done(WindowValid(numbers, preamble, s + preamble))
  {
    var k := s + preamble;
    var w := numbers[s..k + 1];
    SlicePairsFit(numbers, preamble, s, k + 1);
    FindPairFromMeaning(w, numbers[k], 0, 1);
    HasPairSumFromStart(w, numbers[k]);
    assert w == numbers[k - preamble..k + 1];
  }

  /** `find_sum` on the window starting at `s` decides `PreambleValid` for its target. */
  lemma PreambleStep(numbers: seq<nat>, preamble: nat, s: nat)
    requires s + preamble < |numbers|
    requires preamble == 0 || NearPairsFit(numbers, preamble - 1)
    ensures FindSum(numbers[s..s + preamble + 1]) == Done(PreambleValid(numbers, preamble, s + preamble))
  {
    var k := s + preamble;
    var window := numbers[s..k + 1];
    var w := window[..|window| - 1];
    assert w == numbers[s..k];
    if preamble > 0 {
      SlicePairsFit(numbers, preamble - 1, s, k);
    }
    FindSumMeaning(window);
  }

  /** `part1`/`part1_b` return the first number whose window (the
      `preamble` numbers before it and itself) has no two distinct positions
      adding up to it, or nothing if every window has such a pair. They
      cannot abort when no in-window addition overflows. */
  lemma Part1BMeaning(numbers: seq<nat>, preamble: nat)
    requires NearPairsFit(numbers, preamble)
    ensures Part1B(numbers, preamble).Done?
    ensures Part1B(numbers, preamble) == Done(None) <==>
              forall k :: preamble <= k < |numbers| ==> WindowValid(numbers, preamble, k)
    ensures forall k: nat :: IsFirstInvalidWindow(numbers, preamble, k) ==>
              Part1B(numbers, preamble) == Done(Some(numbers[k]))
  {
    Part1BFromMeaning(numbers, preamble, 0);
  }

  /** A window check that counts the target itself differs from the
      preamble-only rule exactly by the pairs (x, target) with a zero at x. */
  lemma WindowValidIffPreambleOrZero(numbers: seq<nat>, preamble: nat, k: nat)
    requires preamble <= k < |numbers|
    ensures WindowValid(numbers, preamble, k) <==>
              PreambleValid(numbers, preamble, k) || exists x :: k - preamble <= x < k && numbers[x] == 0
  {
    var w := numbers[k - preamble..k + 1];
    var pre := numbers[k - preamble..k];
    if WindowValid(numbers, preamble, k) {
      var a, b :| 0 <= a < b < |w| && w[a] + w[b] == numbers[k];
      if b == preamble {
        assert numbers[k - preamble + a] == 0;
      } else {
        assert pre[a] + pre[b] == numbers[k];
      }
    }
    if PreambleValid(numbers, preamble, k) {
      var a, b :| 0 <= a < b < |pre| && pre[a] + pre[b] == numbers[k];
      assert w[a] + w[b] == numbers[k];
    }
    if exists x :: k - preamble <= x < k && numbers[x] == 0 {
      var x :| k - preamble <= x < k && numbers[x] == 0;
      assert w[x - (k - preamble)] + w[preamble] == numbers[k];
    }
  }

  /** `part1` rebuilt on `find_sum`, as its doc comment says it originally
      was: each window's last number is checked against the others only. */
  function Part1IntendedFrom(numbers: seq<nat>, preamble: nat, s: nat): (r: Outcome<Option<nat>>)
    decreases |numbers| - s
  {
    if s + preamble + 1 > |numbers| then Done(None)
    else
      match FindSum(numbers[s..s + preamble + 1])
      case Panicked(why) => Panicked(why)
      case Done(true) => Part1IntendedFrom(numbers, preamble, s + 1)
      case Done(false) => Done(Some(numbers[s + preamble]))
  }

  function Part1Intended(numbers: seq<nat>, preamble: nat): (r: Outcome<Option<nat>>)
  {
    Part1IntendedFrom(numbers, preamble, 0)
  }

  lemma {:induction false} Part1IntendedFromMeaning(numbers: seq<nat>, preamble: nat, s: nat)
    requires preamble == 0 || NearPairsFit(numbers, preamble - 1)
    ensures Part1IntendedFrom(numbers, preamble, s).Done?
    ensures Part1IntendedFrom(numbers, preamble, s) == Done(None) <==>
              forall k :: s + preamble <= k < |numbers| ==> PreambleValid(numbers, preamble, k)
    ensures forall k :: s + preamble <= k < |numbers| && !PreambleValid(numbers, preamble, k)
                        && (forall k' :: s + preamble <= k' < k ==> PreambleValid(numbers, preamble, k'))
                     ==> Part1IntendedFrom(numbers, preamble, s) == Done(Some(numbers[k]))
    decreases |numbers| - s
  {
    if s + preamble + 1 <= |numbers| {
      var k := s + preamble;
      PreambleStep(numbers, preamble, s);
      var r := Part1IntendedFrom(numbers, preamble, s);
      if PreambleValid(numbers, preamble, k) {
        assert r == Part1IntendedFrom(numbers, preamble, s + 1);
        Part1IntendedFromMeaning(numbers, preamble, s + 1);
        forall k' | k <= k' < |numbers| && !PreambleValid(numbers, preamble, k')
                    && (forall k'' :: k <= k'' < k' ==> PreambleValid(numbers, preamble, k''))
          ensures r == Done(Some(numbers[k']))
        {
          assert k' != k;
        }
      } else {
        assert r == Done(Some(numbers[k]));
        forall k' | k <= k' < |numbers| && !PreambleValid(numbers, preamble, k')
                    && (forall k'' :: k <= k'' < k' ==> PreambleValid(numbers, preamble, k''))
          ensures k' == k
        {
        }
      }
    }
  }

  /** The intended scan returns the first number that is not the sum of two
      distinct numbers among the `preamble` before it. */
  lemma Part1IntendedMeaning(numbers: seq<nat>, preamble: nat)
    requires preamble == 0 || NearPairsFit(numbers, preamble - 1)
    ensures Part1Intended(numbers, preamble).Done?
    ensures Part1Intended(numbers, preamble) == Done(None) <==>
              forall k :: preamble <= k < |numbers| ==> PreambleValid(numbers, preamble, k)
    ensures forall k: nat :: IsFirstInvalidPreamble(numbers, preamble, k) ==>
              Part1Intended(numbers, preamble) == Done(Some(numbers[k]))
  {
    Part1IntendedFromMeaning(numbers, preamble, 0);
  }

  /** With a zero among the preamble, `part1` accepts a target that no two
      preamble numbers add up to: on [0, 5, 7] with preamble 2 it finds
      nothing, while the preamble-only rule reports 7. */
  lemma ZeroInWindowCounterexample()
    ensures Part1B([0, 5, 7], 2) == Done(None)
    ensures Part1Intended([0, 5, 7], 2) == Done(Some(7))
  {
    var n: seq<nat> := [0, 5, 7];
    assert n[0..3] == n;
    assert FindPairFrom(n, 7, 0, 2) == Done(true);
    assert FindPairFrom(n, 7, 0, 1) == Done(true);
    assert n[0..3][..2] == [0, 5];
    assert FindPairFrom([0, 5], 7, 0, 1) == Done(false);
  }
}
