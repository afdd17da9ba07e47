/** `part1_c`, `part1_d` and `part1_e`: the first-invalid-number scan run
    against the pre-computed pair-sum table. The target `numbers[i + preamble]`
    is looked up in rows `i..i + preamble` of the table. */
module TableScan {
  import opened Outcomes
  import opened PairSums
  import opened SumTable
  import SlidingWindow

  /** Rows `i..i + preamble` hold `target`: some pair `(x, x + j)` with
      `i <= x < i + preamble` and `1 <= j < preamble` adds up to it. */
  ghost predicate TableHit(numbers: seq<nat>, preamble: nat, i: nat, target: nat)
  {
    exists x, j :: i <= x < i + preamble && 1 <= j < preamble && x + j < |numbers|
                   && Entry(numbers, x, j) == target
  }

  /** The scan loop from target index `i + preamble` on, stated over pairs of
      numbers rather than over the table: the slice `sums[i..i + preamble]`
      needs `i + preamble <= numbers.len() - preamble`. */
  ghost function TableScanFrom(numbers: seq<nat>, preamble: nat, i: nat): (r: Outcome<Option<nat>>)
    requires preamble <= |numbers|
    decreases |numbers| - preamble - i
  {
    if i >= |numbers| - preamble then Done(None)
    else if i + preamble > |numbers| - preamble then Panicked(SliceOutOfRange)
    else if TableHit(numbers, preamble, i, numbers[i + preamble]) then TableScanFrom(numbers, preamble, i + 1)
    else Done(Some(numbers[i + preamble]))
  }

  /** What a table variant returns: the table build aborts first on a length
      underflow or an overflowing entry, then the scan runs. */
  ghost function TableOutcome(numbers: seq<nat>, preamble: nat): (r: Outcome<Option<nat>>)
  {
    if preamble > |numbers| then Panicked(SubOverflow)
    else if !TableFits(numbers, preamble) then Panicked(AddOverflow)
    else TableScanFrom(numbers, preamble, 0)
  }

  /** Some row among `i..i + preamble` of the nested table holds `target`
      exactly when `TableHit` holds. */
  lemma RowsHitIffTableHit(numbers: seq<nat>, preamble: nat, i: nat, target: nat)
    requires preamble <= |numbers| && i + preamble <= |numbers| - preamble
    ensures (exists r :: i <= r < i + preamble && target in Rows(numbers, preamble)[r])
              <==> TableHit(numbers, preamble, i, target)
  {
    var rows := Rows(numbers, preamble);
    if exists r :: i <= r < i + preamble && target in rows[r] {
      var r :| i <= r < i + preamble && target in rows[r];
      var c :| 0 <= c < |rows[r]| && rows[r][c] == target;
      assert Entry(numbers, r, c + 1) == target;
    }
    if TableHit(numbers, preamble, i, target) {
      var x, j :| i <= x < i + preamble && 1 <= j < preamble && x + j < |numbers|
                  && Entry(numbers, x, j) == target;
      assert rows[x][j - 1] == target;
    }
  }

  /** `part1_c`: nested table, then for each target a search of the rows
      `sums[i..i + preamble]`. */
  method Part1C(numbers: seq<nat>, preamble: nat) returns (r: Outcome<Option<nat>>)
    ensures r == TableOutcome(numbers, preamble)
  {
    var table := BuildRows(numbers, preamble);
    if table.Panicked? {
      return Panicked(table.reason);
    }
    var sums := table.value;
    assert sums == Rows(numbers, preamble);
    var i := 0;
    while i < |numbers| - preamble
      invariant 0 <= i <= |numbers| - preamble
      invariant TableScanFrom(numbers, preamble, i) == TableOutcome(numbers, preamble)
      decreases |numbers| - preamble - i
    {
      var target := numbers[i + preamble];
      if i + preamble > |sums| {
        return Panicked(SliceOutOfRange);
      }
      var row := i;
      while row < i + preamble && target !in sums[row]
        invariant i <= row <= i + preamble
        invariant forall r' :: i <= r' < row ==> target !in sums[r']
      {
        row := row + 1;
      }
      RowsHitIffTableHit(numbers, preamble, i, target);
      if row == i + preamble {
        return Done(Some(target));
      }
      i := i + 1;
    }
    return Done(None);
  }

  /** The scan of `part1_d`/`part1_e` over the flat vector `sums`, resumed
      at target index `i + preamble`: the slice runs from
      `(preamble - 1) * i` for `preamble * (preamble - 1)` entries. */
  function FlatScanFrom(sums: seq<nat>, numbers: seq<nat>, preamble: nat, i: nat): (r: Outcome<Option<nat>>)
    requires 1 <= preamble <= |numbers|
    decreases |numbers| - preamble - i
  {
    if i >= |numbers| - preamble then Done(None)
    else
      var start := (preamble - 1) * i;
      var end := start + preamble * (preamble - 1);
      if end > |sums| then Panicked(SliceOutOfRange)
      else if numbers[i + preamble] in sums[start..end] then FlatScanFrom(sums, numbers, preamble, i + 1)
      else Done(Some(numbers[i + preamble]))
  }

  /** `part1_e`: flat table, then `find_map` over the targets. The
      `preamble - 1` in `window_size` underflows when `preamble == 0`. */
  function Part1E(numbers: seq<nat>, preamble: nat): (r: Outcome<Option<nat>>)
  {
    match FlatTable(numbers, preamble)
    case Panicked(why) => Panicked(why)
    case Done(sums) =>
      if preamble == 0 then Panicked(SubOverflow)
      else FlatScanFrom(sums, numbers, preamble, 0)
  }

  /** `part1_d`: the same flat-table scan as `part1_e`, written as a loop. */
  method Part1D(numbers: seq<nat>, preamble: nat) returns (r: Outcome<Option<nat>>)
    ensures r == Part1E(numbers, preamble)
  {
    var table := BuildFlat(numbers, preamble);
    if table.Panicked? {
      return Panicked(table.reason);
    }
    var sums := table.value;
    if preamble == 0 {
      return Panicked(SubOverflow);
    }
    var windowSize := preamble * (preamble - 1);
    var i := 0;
    while i < |numbers| - preamble
      invariant 0 <= i <= |numbers| - preamble
      invariant FlatScanFrom(sums, numbers, preamble, i) == Part1E(numbers, preamble)
      decreases |numbers| - preamble - i
    {
      var target := numbers[i + preamble];
      var start := (preamble - 1) * i;
      var end := start + windowSize;
      assert FlatScanFrom(sums, numbers, preamble, i) ==
        if end > |sums| then Panicked(SliceOutOfRange)
        else if target in sums[start..end] then FlatScanFrom(sums, numbers, preamble, i + 1)
        else Done(Some(target));
      if end > |sums| {
        return Panicked(SliceOutOfRange);
      }
      if target !in sums[start..end] {
        return Done(Some(target));
      }
      i := i + 1;
    }
    return Done(None);
  }

  /** One step of the flat scan agrees with one step of the nested scan:
      the flat slice is out of range exactly when the nested one is, and
      otherwise holds the target exactly when rows `i..i + preamble` do. */
  lemma FlatStep(numbers: seq<nat>, preamble: nat, i: nat)
    requires 1 <= preamble <= |numbers| && i < |numbers| - preamble
    ensures var sums := Flatten(Rows(numbers, preamble));
            var start := (preamble - 1) * i;
            var end := start + preamble * (preamble - 1);
            && (end > |sums| <==> i + preamble > |numbers| - preamble)
            && (end <= |sums| ==> (numbers[i + preamble] in sums[start..end]
                                   <==> TableHit(numbers, preamble, i, numbers[i + preamble])))
  {
    var rows := Rows(numbers, preamble);
    var sums := Flatten(rows);
    var k := preamble - 1;
    var target := numbers[i + preamble];
    FlattenLength(rows, k);
    if preamble == 1 {
      assert |sums| == 0;
      assert !TableHit(numbers, preamble, i, target);
    } else {
      assert (preamble - 1) * i == i * k;
      assert preamble * (preamble - 1) == preamble * k;
      MulStrict(k, i + preamble, |numbers| - preamble);
      if i + preamble <= |numbers| - preamble {
        FlattenSlice(rows, k, i, preamble);
        var window := rows[i..i + preamble];
        InFlatten(window, target);
        RowsHitIffTableHit(numbers, preamble, i, target);
        if exists r :: 0 <= r < |window| && target in window[r] {
          var r :| 0 <= r < |window| && target in window[r];
          assert target in rows[i + r];
        }
        if exists r :: i <= r < i + preamble && target in rows[r] {
          var r :| i <= r < i + preamble && target in rows[r];
          assert target in window[r - i];
        }
      }
    }
  }

  /** Multiplying by a positive factor preserves strict order both ways. */
  lemma MulStrict(k: nat, x: nat, y: nat)
    requires k >= 1
    ensures x * k > y * k <==> x > y
  {
    if x > y {
      assert x * k == y * k + (x - y) * k;
    } else {
      assert y * k == x * k + (y - x) * k;
    }
  }

  lemma {:induction false} FlatScanMatchesTableScan(numbers: seq<nat>, preamble: nat, i: nat)
    requires 1 <= preamble <= |numbers|
    ensures FlatScanFrom(Flatten(Rows(numbers, preamble)), numbers, preamble, i)
            == TableScanFrom(numbers, preamble, i)
    decreases |numbers| - preamble - i
  {
    if i < |numbers| - preamble {
      FlatStep(numbers, preamble, i);
      FlatScanMatchesTableScan(numbers, preamble, i + 1);
    }
  }

  /** For every `preamble >= 1`, `part1_e` (hence `part1_d`) returns exactly
      what `part1_c` returns, aborts included: the flat slice
      `sums[(preamble-1)*i .. (preamble-1)*(i+preamble)]` is the nested slice
      `sums[i..i + preamble]` laid end to end. */
  lemma Part1EMatchesTable(numbers: seq<nat>, preamble: nat)
    requires preamble >= 1
    ensures Part1E(numbers, preamble) == TableOutcome(numbers, preamble)
  {
    if preamble <= |numbers| && TableFits(numbers, preamble) {
      FlatScanMatchesTableScan(numbers, preamble, 0);
    }
  }

  /** With `preamble == 0` the variants part ways: `part1_c` reports the
      first number, `part1_d`/`part1_e` abort on `preamble - 1`. */
  lemma PreambleZeroDisagreement(numbers: seq<nat>)
    ensures Part1E(numbers, 0) == Panicked(SubOverflow)
    ensures TableOutcome(numbers, 0) == if |numbers| == 0 then Done(None) else Done(Some(numbers[0]))
  {
    if |numbers| > 0 {
      assert !TableHit(numbers, 0, 0, numbers[0]);
    }
  }

  /** A pair of two distinct preamble positions is always among the table
      pairs searched for that target. */
  lemma PreambleValidImpliesTableHit(numbers: seq<nat>, preamble: nat, k: nat)
    requires preamble <= k < |numbers|
    requires SlidingWindow.PreambleValid(numbers, preamble, k)
    ensures TableHit(numbers, preamble, k - preamble, numbers[k])
  {
    var pre := numbers[k - preamble..k];
    var a, b :| 0 <= a < b < |pre| && pre[a] + pre[b] == numbers[k];
    var x := k - preamble + a;
    assert Entry(numbers, x, b - a) == numbers[k];
  }

  lemma {:induction false} TableScanFromSound(numbers: seq<nat>, preamble: nat, i: nat, v: nat)
    requires preamble <= |numbers|
    requires TableScanFrom(numbers, preamble, i) == Done(Some(v))
    ensures exists k :: i + preamble <= k < |numbers| && v == numbers[k]
                        && !SlidingWindow.PreambleValid(numbers, preamble, k)
    decreases |numbers| - preamble - i
  {
    var k := i + preamble;
    if TableHit(numbers, preamble, i, numbers[k]) {
      TableScanFromSound(numbers, preamble, i + 1, v);
    } else if SlidingWindow.PreambleValid(numbers, preamble, k) {
      PreambleValidImpliesTableHit(numbers, preamble, k);
    }
  }

  /** Soundness of the table variants: a reported number is not the sum of
      two distinct numbers among the `preamble` before it. The converse does
      not hold, since the searched rows also pair numbers past the target. */
  lemma TableOutcomeSound(numbers: seq<nat>, preamble: nat, v: nat)
    requires TableOutcome(numbers, preamble) == Done(Some(v))
    ensures exists k :: preamble <= k < |numbers| && v == numbers[k]
                        && !SlidingWindow.PreambleValid(numbers, preamble, k)
  {
    TableScanFromSound(numbers, preamble, 0, v);
  }

  lemma {:induction false} TableScanFromNeverExhausts(numbers: seq<nat>, preamble: nat, i: nat)
    requires preamble <= |numbers| && i < |numbers| - preamble
    ensures TableScanFrom(numbers, preamble, i) != Done(None)
    decreases |numbers| - preamble - i
  {
    if i + preamble <= |numbers| - preamble && TableHit(numbers, preamble, i, numbers[i + preamble]) {
      assert preamble >= 2;
      TableScanFromNeverExhausts(numbers, preamble, i + 1);
    }
  }

  /** The table variants answer "no anomaly" only when there is no target at
      all: otherwise the row slice runs past the table before the last target
      (for `preamble >= 2`) or the first target is reported at once. */
  lemma TableNoneOnlyWithoutTargets(numbers: seq<nat>, preamble: nat)
    ensures TableOutcome(numbers, preamble) == Done(None) <==> |numbers| == preamble
  {
    if preamble < |numbers| && TableFits(numbers, preamble) {
      TableScanFromNeverExhausts(numbers, preamble, 0);
    }
  }

  /** The table variants can miss an anomaly: on [1, 1, 1, 5, 4, 0] with
      preamble 3, 5 is no sum of two of [1, 1, 1], but the searched rows also
      pair 1 with the later 4; the next slice then runs past the table. */
  lemma TableMissesAnomaly()
    ensures SlidingWindow.Part1Intended([1, 1, 1, 5, 4, 0], 3) == Done(Some(5))
    ensures TableOutcome([1, 1, 1, 5, 4, 0], 3) == Panicked(SliceOutOfRange)
  {
    var n: seq<nat> := [1, 1, 1, 5, 4, 0];
    assert TableFits(n, 3);
    assert Entry(n, 2, 2) == 5;
    assert TableHit(n, 3, 0, n[3]);
    assert TableScanFrom(n, 3, 1) == Panicked(SliceOutOfRange);
    assert TableScanFrom(n, 3, 0) == Panicked(SliceOutOfRange);
    assert n[0..3] == [1, 1, 1];
    assert !SlidingWindow.PreambleValid(n, 3, 3);
    SlidingWindow.Part1IntendedMeaning(n, 3);
  }
}
