/** The pair-sum tables `part1_c`, `part1_d` and `part1_e` build before
    scanning: row `i` holds `numbers[i] + numbers[i + j]` for `j` in
    `1..preamble`, for every `i` in `0..numbers.len() - preamble`. */
module SumTable {
  import opened Outcomes

  /** Length of one row: the range `1..preamble` is empty when `preamble <= 1`. */
  function RowLen(preamble: nat): (r: nat)
  {
    if preamble == 0 then 0 else preamble - 1
  }

  /** One table entry: `numbers[i] + numbers[i + j]`, before any overflow check. */
  function Entry(numbers: seq<nat>, i: nat, j: nat): (r: nat)
    requires i + j < |numbers|
  {
    numbers[i] + numbers[i + j]
  }

  /** Row `i` of the table, `(1..preamble).map(|j| numbers[i] + numbers[i + j])`. */
  function Row(numbers: seq<nat>, preamble: nat, i: nat): (row: seq<nat>)
    requires i + preamble < |numbers|
    ensures |row| == RowLen(preamble)
  {
    seq(RowLen(preamble), j requires 0 <= j < RowLen(preamble) => Entry(numbers, i, j + 1))
  }

  /** The nested table of `part1_c`. */
  function Rows(numbers: seq<nat>, preamble: nat): (rows: seq<seq<nat>>)
    requires preamble <= |numbers|
    ensures |rows| == |numbers| - preamble
  {
    seq(|numbers| - preamble, i requires 0 <= i < |numbers| - preamble => Row(numbers, preamble, i))
  }

  /** Rows laid end to end, the flat vector of `part1_d` and `part1_e`. */
  function Flatten(rows: seq<seq<nat>>): (r: seq<nat>)
  {
    if |rows| == 0 then [] else Flatten(rows[..|rows| - 1]) + rows[|rows| - 1]
  }

  /** Every addition made while building the table stays within `u64`. */
  predicate TableFits(numbers: seq<nat>, preamble: nat)
  {
    forall i, j :: 0 <= i < |numbers| - preamble && 1 <= j < preamble ==>
      Entry(numbers, i, j) <= U64_MAX
  }

  /** The rows below `i` were built without overflow. */
  ghost predicate RowsFitBelow(numbers: seq<nat>, preamble: nat, i: nat)
  {
    forall i', j :: 0 <= i' < i && 1 <= j < preamble && i' + j < |numbers| ==>
      Entry(numbers, i', j) <= U64_MAX
  }

  /** What building the flat table yields: `numbers.len() - preamble`
      underflows when `preamble` exceeds the length, and a checked addition
      aborts on overflow. */
  function FlatTable(numbers: seq<nat>, preamble: nat): (r: Outcome<seq<nat>>)
  {
    if preamble > |numbers| then Panicked(SubOverflow)
    else if !TableFits(numbers, preamble) then Panicked(AddOverflow)
    else Done(Flatten(Rows(numbers, preamble)))
  }

  /** The nested table loop of `part1_c`. */
  method BuildRows(numbers: seq<nat>, preamble: nat) returns (t: Outcome<seq<seq<nat>>>)
    ensures preamble > |numbers| ==> t == Panicked(SubOverflow)
    ensures preamble <= |numbers| && !TableFits(numbers, preamble) ==> t == Panicked(AddOverflow)
    ensures preamble <= |numbers| && TableFits(numbers, preamble) ==> t == Done(Rows(numbers, preamble))
  {
    if preamble > |numbers| {
      return Panicked(SubOverflow);
    }
    var sums: seq<seq<nat>> := [];
    var i := 0;
    while i < |numbers| - preamble
      invariant 0 <= i <= |numbers| - preamble
      invariant sums == Rows(numbers, preamble)[..i]
      invariant RowsFitBelow(numbers, preamble, i)
    {
      var row: seq<nat> := [];
      var j := 1;
      while j < preamble
        invariant 1 <= j <= RowLen(preamble) + 1
        invariant i + preamble < |numbers|
        invariant row == Row(numbers, preamble, i)[..j - 1]
        invariant forall j' :: 1 <= j' < j ==> Entry(numbers, i, j') <= U64_MAX
      {
        var x := Entry(numbers, i, j);
        if x > U64_MAX {
          return Panicked(AddOverflow);
        }
        row := row + [x];
        j := j + 1;
      }
      assert row == Row(numbers, preamble, i);
      sums := sums + [row];
      i := i + 1;
    }
    assert sums == Rows(numbers, preamble);
    return Done(sums);
  }

  /** The flat table loop of `part1_d` and `part1_e`. */
  method BuildFlat(numbers: seq<nat>, preamble: nat) returns (t: Outcome<seq<nat>>)
    ensures t == FlatTable(numbers, preamble)
  {
    if preamble > |numbers| {
      return Panicked(SubOverflow);
    }
    var sums: seq<nat> := [];
    var i := 0;
    while i < |numbers| - preamble
      invariant 0 <= i <= |numbers| - preamble
      invariant sums == Flatten(Rows(numbers, preamble)[..i])
      invariant RowsFitBelow(numbers, preamble, i)
    {
      var j := 1;
      ghost var before := sums;
      while j < preamble
        invariant 1 <= j <= RowLen(preamble) + 1
        invariant i + preamble < |numbers|
        invariant sums == before + Row(numbers, preamble, i)[..j - 1]
        invariant forall j' :: 1 <= j' < j ==> Entry(numbers, i, j') <= U64_MAX
      {
        var x := Entry(numbers, i, j);
        if x > U64_MAX {
          return Panicked(AddOverflow);
        }
        sums := sums + [x];
        j := j + 1;
      }
      assert Row(numbers, preamble, i)[..j - 1] == Row(numbers, preamble, i);
      assert Rows(numbers, preamble)[..i + 1][..i] == Rows(numbers, preamble)[..i];
      i := i + 1;
    }
    assert Rows(numbers, preamble)[..i] == Rows(numbers, preamble);
    return Done(sums);
  }

  /** Flattening distributes over concatenation of row lists. */
  lemma {:induction false} FlattenAppend(a: seq<seq<nat>>, b: seq<seq<nat>>)
    ensures Flatten(a + b) == Flatten(a) + Flatten(b)
    decreases |b|
  {
    if |b| == 0 {
      assert a + b == a;
    } else {
      var init := b[..|b| - 1];
      assert (a + b)[..|a + b| - 1] == a + init;
      assert (a + b)[|a + b| - 1] == b[|b| - 1];
      assert Flatten(a + b) == Flatten(a + init) + b[|b| - 1];
      assert Flatten(b) == Flatten(init) + b[|b| - 1];
      FlattenAppend(a, init);
    }
  }

  /** Rows that all have length `k` flatten to `k` entries per row. */
  lemma {:induction false} FlattenLength(rows: seq<seq<nat>>, k: nat)
    requires forall r :: 0 <= r < |rows| ==> |rows[r]| == k
    ensures |Flatten(rows)| == |rows| * k
  {
    if |rows| > 0 {
      FlattenLength(rows[..|rows| - 1], k);
      assert (|rows| - 1) * k + k == |rows| * k;
    }
  }

  /** A value occurs in the flat vector exactly when it occurs in some row. */
  lemma {:induction false} InFlatten(rows: seq<seq<nat>>, v: nat)
    ensures v in Flatten(rows) <==> exists r :: 0 <= r < |rows| && v in rows[r]
  {
    if |rows| > 0 {
      var init := rows[..|rows| - 1];
      InFlatten(init, v);
      if exists r :: 0 <= r < |rows| && v in rows[r] {
        var r :| 0 <= r < |rows| && v in rows[r];
        if r < |rows| - 1 {
          assert v in init[r];
        }
      }
      if exists r :: 0 <= r < |init| && v in init[r] {
        var r :| 0 <= r < |init| && v in init[r];
        assert v in rows[r];
      }
    }
  }

  /** Rows `i..i+m` of a table with rows of length `k` sit at offsets
      `i*k .. (i+m)*k` of the flat vector. */
  lemma FlattenSlice(rows: seq<seq<nat>>, k: nat, i: nat, m: nat)
    requires forall r :: 0 <= r < |rows| ==> |rows[r]| == k
    requires i + m <= |rows|
    ensures i * k + m * k <= |Flatten(rows)|
    ensures Flatten(rows)[i * k..i * k + m * k] == Flatten(rows[i..i + m])
  {
    var pre, mid, post := rows[..i], rows[i..i + m], rows[i + m..];
    assert rows == pre + mid + post;
    FlattenAppend(pre + mid, post);
    FlattenAppend(pre, mid);
    FlattenLength(pre, k);
    FlattenLength(mid, k);
    var fp, fm := Flatten(pre), Flatten(mid);
    assert Flatten(rows) == fp + fm + Flatten(post);
    assert Flatten(rows)[|fp|..|fp| + |fm|] == fm;
  }

  /** Entry `c` of row `i` sits at offset `i*k + c` of the flat vector. */
  lemma FlattenEntry(rows: seq<seq<nat>>, k: nat, i: nat, c: nat)
    requires forall r :: 0 <= r < |rows| ==> |rows[r]| == k
    requires i < |rows| && c < k
    ensures i * k + c < |Flatten(rows)|
    ensures Flatten(rows)[i * k + c] == rows[i][c]
  {
    FlattenSlice(rows, k, i, 1);
    assert rows[i..i + 1] == [rows[i]];
    var single: seq<seq<nat>> := [rows[i]];
    assert Flatten(single) == rows[i] by {
      assert single[..0] == [];
    }
    assert Flatten(rows)[i * k..i * k + 1 * k] == rows[i];
  }

  /** The flat table has `(N - preamble) * (preamble - 1)` entries and entry
      `(preamble - 1) * i + (j - 1)` is `numbers[i] + numbers[i + j]`, the
      same value as row `i`, column `j - 1` of the nested table. */
  lemma FlatTableIndex(numbers: seq<nat>, preamble: nat, i: nat, j: nat)
    requires FlatTable(numbers, preamble).Done?
    ensures |FlatTable(numbers, preamble).value| == (|numbers| - preamble) * RowLen(preamble)
    ensures 0 <= i < |numbers| - preamble && 1 <= j < preamble ==>
              (preamble - 1) * i + (j - 1) < |FlatTable(numbers, preamble).value|
              && FlatTable(numbers, preamble).value[(preamble - 1) * i + (j - 1)] == numbers[i] + numbers[i + j]
              && FlatTable(numbers, preamble).value[(preamble - 1) * i + (j - 1)] == Rows(numbers, preamble)[i][j - 1]
  {
    var rows := Rows(numbers, preamble);
    var k := RowLen(preamble);
    assert FlatTable(numbers, preamble).value == Flatten(rows);
    FlattenLength(rows, k);
    if 0 <= i < |numbers| - preamble && 1 <= j < preamble {
      assert k == preamble - 1;
      FlattenEntry(rows, k, i, j - 1);
      assert i * k == (preamble - 1) * i;
    }
  }
}
