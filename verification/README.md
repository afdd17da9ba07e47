# Encoding-error scan and contiguous-range finder (Dafny model)

This project models the numeric core of `src/lib.rs`, a library that checks a
sequence of `u64` numbers against a sliding-window "sum of two predecessors"
rule and then searches the sequence for a contiguous run summing to the
number that broke the rule.

- **Part 1** has five implementations:
  - `part1` and `part1_b` test each `preamble + 1` window with `itertools::combinations(2)`.
  - `part1_c` pre-computes a nested pair-sum table.
  - `part1_d` and `part1_e` pre-compute the same table as one flat vector.
  - `find_sum` is the helper the code used to call.
- **Part 2** has two implementations. Both use inclusive running sums:
  - `part2` is a quadratic scan.
  - `part2_b` binary-searches the running sums.

The model follows what the code does:

- The part 1 window includes the target itself.
- The table variants search rows that reach past the target. They can also slice past the end of the table.
- Part 2 sums `numbers[start+1..=end]` but reports the min and max of `numbers[start..end]`.

Where the code evidently means something else, the intended version is
modelled beside the code and the difference is exhibited under "## Findings":

- For part 1, the doc comment at src/lib.rs:6-7 says the loop inlined `find_sum`. `find_sum` searches only the `preamble` numbers before the target (src/lib.rs:199).
- For part 2, the code matches one run (`numbers[start+1..=end]`) but reports the min and max of another (`numbers[start..end]`). The intended version uses exclusive prefix sums and reports the run it matched. It also counts only runs of at least two numbers. `part2` accepts a one-number run (`end == start + 1`) and reports twice the number just before it. The binary (src/bin/day09.rs) passes a number of the list as the target, so that number always forms such a run, and min + max of a single number says nothing about a range.

Every abort the code can reach, except the `usize` overflows listed under "## Left out", is a value of `Outcomes.Outcome`:
`Done(v)` or `Panicked(reason)`. The reasons are:

- `u64` addition overflow.
- `usize` subtraction underflow.
- A slice end past the vector.
- `unwrap()` of an empty `min()`.

Arithmetic is debug-build (checked) Rust. Operations therefore carry no preconditions beyond their Rust types.
Nothing in the model is executed; every statement in the "## Model" table is proved.

Files:

- `outcomes.dfy`: `Option`, `Panic`, `Outcome`, `U64_MAX`.
- `sums.dfy`: `Sum`, `Min`, `Max` and prefix-sum lemmas.
- `pair_sums.dfy`: the `combinations(2).find` search and `find_sum`.
- `sliding_window.dfy`: `part1`, `part1_b`, and the `find_sum`-based intended scan.
- `sum_table.dfy`: the nested and flat pair-sum tables.
- `table_scan.dfy`: `part1_c`, `part1_d`, `part1_e`.
- `range_sum.dfy`: running sums, `part2`, `part2_b`, binary search.
- `intended_range.dfy`: part 2 with exclusive prefix sums.

## Model

| member | source | states |
|---|---|---|
| PairSums.FindPairFromMeaning | src/lib.rs:12-15 | when no pair addition overflows, the `combinations(2).find` search from pair (i, j) returns exactly whether a later pair of distinct positions sums to the target |
| PairSums.FindPairFromPanicsOnlyOnOverflow | src/lib.rs:12-15 | the pair search aborts only with an addition overflow, and only on a window that contains an overflowing pair |
| PairSums.FindSumMeaning | src/lib.rs:195-203 | `find_sum` aborts on an empty window; otherwise, when no addition overflows, it is true iff two distinct positions among all but the last element sum to the last element |
| SlidingWindow.Part1 | src/lib.rs:8-21 | the loop with early return computes exactly what the `find_map` form of `part1_b` computes, aborts included |
| SlidingWindow.Part1BMeaning | src/lib.rs:24-39 | when no in-window addition overflows: `part1_b` does not abort; it returns `None` iff every window (preamble plus target) has a pair summing to the target; otherwise it returns the target of the first window without one |
| SlidingWindow.WindowValidIffPreambleOrZero | src/lib.rs:9-15 | a window that includes its target is valid iff the preamble alone has a matching pair or the preamble contains a zero |
| SlidingWindow.Part1IntendedMeaning | src/lib.rs:195-203 | the scan built on `find_sum` returns the first number that is not the sum of two distinct numbers among the `preamble` before it, or `None` if there is none |
| SlidingWindow.ZeroInWindowCounterexample | src/lib.rs:9-15 | on [0, 5, 7] with preamble 2, `part1_b` returns `None` while the `find_sum` rule reports 7 |
| SumTable.BuildRows | src/lib.rs:54-61 | the nested table aborts on `N - preamble` underflow or on an overflowing entry; otherwise it is the `N - preamble` rows of `numbers[i] + numbers[i + j]`, `j` in `1..preamble` |
| SumTable.BuildFlat | src/lib.rs:83-88 | the flat table loop yields the rows of the nested table laid end to end, with the same aborts |
| SumTable.FlatTableIndex | src/lib.rs:83-88 | the flat table has `(N - preamble) * (preamble - 1)` entries, and entry `(preamble - 1) * i + (j - 1)` is `numbers[i] + numbers[i + j]`, equal to nested row `i`, column `j - 1` |
| TableScan.Part1C | src/lib.rs:51-77 | `part1_c` aborts when the table does; otherwise it returns the first target not found in rows `i..i + preamble`, or aborts once that slice passes the end of the table |
| TableScan.Part1D | src/lib.rs:82-104 | the loop of `part1_d` returns exactly what the `find_map` of `part1_e` returns, aborts included |
| TableScan.Part1EMatchesTable | src/lib.rs:107-134 | for every `preamble >= 1`, `part1_e` (hence `part1_d`) returns the same outcome as `part1_c`, aborts included |
| TableScan.PreambleZeroDisagreement | src/lib.rs:92 | with `preamble == 0`, `part1_d`/`part1_e` abort on `preamble - 1`, while `part1_c` returns the first number (or `None` on empty input) |
| TableScan.TableOutcomeSound | src/lib.rs:65-74 | a number reported by a table variant has no pair of distinct numbers among the `preamble` before it that sums to it |
| TableScan.TableNoneOnlyWithoutTargets | src/lib.rs:65-76 | `part1_c` returns `None` iff the input has exactly `preamble` numbers; otherwise it reports a number or aborts. This holds for `part1_d`/`part1_e` only when `preamble >= 1`, through `Part1EMatchesTable`; with `preamble == 0` they abort (`PreambleZeroDisagreement`) |
| TableScan.TableMissesAnomaly | src/lib.rs:68-71 | on [1, 1, 1, 5, 4, 0] with preamble 3, the intended rule reports 5, but the table variants find 5 = 1 + 4 beyond the target and then slice past the table |
| RangeSum.RunningSum | src/lib.rs:140-146 | the running sum aborts iff the total leaves `u64`; otherwise element `k` is `numbers[0] + ... + numbers[k]` |
| RangeSum.MatchIsShiftedRun | src/lib.rs:150-152 | `running_sum[end] - running_sum[start] == target` iff `numbers[start+1..=end]` sums to the target |
| RangeSum.MinPlusMax | src/lib.rs:153-156 | the reported value is min plus max of `numbers[s..e]`; it aborts on an empty slice or when the sum overflows |
| RangeSum.Part2 | src/lib.rs:139-162 | a running-sum overflow makes `part2` abort; otherwise it returns `None` when no `(start, end)` matches, and otherwise the answer for the lexicographically first match, which itself aborts on an empty slice or an overflowing min + max |
| RangeSum.TargetZeroPanics | src/lib.rs:150-153 | with target 0 the first match is (0, 0), whose empty slice makes `min().unwrap()` abort |
| RangeSum.BinarySearch | src/lib.rs:179 | on a sorted slice the search returns a position holding the key, or `None` iff the key does not occur |
| RangeSum.Part2B | src/lib.rs:166-191 | a running-sum overflow makes `part2_b` abort. Otherwise, with no match it returns `None`, unless the needle overflows, which happens exactly when `total + target` does. With a match it answers for the first matching start and some end matching there |
| RangeSum.UniqueEnd | src/lib.rs:177-181 | with strictly positive numbers each start has at most one matching end |
| RangeSum.CompareRangeFinders | src/lib.rs:164-191 | with strictly positive numbers, `part2` and `part2_b` return the same outcome unless there is no match and `total + target` overflows |
| RangeSum.ZerosAllowDifferentEnds | src/lib.rs:179 | on [5, 1, 0, 9] with target 1, both (0, 1) and (0, 2) match, with answers 10 and 6, so the binary search's choice matters |
| IntendedRange.FindFirstRun | src/lib.rs:148-158 | the corrected nested scan reports the lexicographically first `(start, end)` whose run of at least two numbers sums to the target, and reports nothing only when no such run exists |
| IntendedRange.Part2Intended | src/lib.rs:148-161 | the corrected scan returns min + max of the first run of at least two numbers summing to the target, `None` if there is none, and never aborts once the total fits |
| IntendedRange.ShiftedSliceCounterexample | src/lib.rs:151-156 | on [1, 2, 3] with target 5, `part2` matches the run [2, 3] but reports 1 + 2 = 3; the intended answer is 5 |
| IntendedRange.SingleNumberRunDropped | src/lib.rs:150-156 | on [3, 5] with target 5, `part2` matches the one-number run [5] at (0, 1) and returns 3 + 3 = 6, while the corrected scan, which counts only runs of at least two numbers, finds no run |
| IntendedRange.FirstNumberNeverInRun | src/lib.rs:140-152 | on [1, 2] with target 3, `part2` finds no match although the run [1, 2] sums to 3 |

## Left out

- `parse_file` and `parse_row` (src/lib.rs:205-214) are left out: they wrap `u64::from_str` and `eyre` error context, which are library calls.
- `src/bin/day09.rs` (stdin reading, printing, `unwrap`) and `benches/bench_day09.rs` (Criterion harness code whose data file is not part of this model) are left out.
- `usize` arithmetic is unbounded in the model. The overflow of `preamble + 1` at `usize::MAX` and the overflow of `(preamble - 1) * i` or `preamble * (preamble - 1)` are not modelled.
- Release builds wrap `u64` additions instead of aborting. The model follows debug builds.
- The eyre error `"no result"` of `part2`/`part2_b` is modelled as `Done(None)`.
- Timing and memory claims in the doc comments are left out.
- SlidingWindow.Part1BMeaning: the characterisation assumes no addition of two numbers within one window overflows. `Part1B` itself models the exact short-circuit order in which an overflow aborts.
- SlidingWindow.Part1IntendedMeaning: same assumption, for pairs within one preamble.
- RangeSum.Part2B: states the end only up to "some matching end". `slice::binary_search` leaves the choice among equal keys unspecified, and the model keeps only that documented contract.
- RangeSum.CompareRangeFinders: states agreement only for strictly positive numbers. With zeros the binary search may pick another end (see `ZerosAllowDifferentEnds`).
- For an oversized preamble, `part1` returns `None` and the table variants abort on `N - preamble`.

## Findings

| source | as written | input that shows it | evidently intended | confidence | as-written member | corrected member |
|---|---|---|---|---|---|---|
| src/lib.rs:9-15 | the `combinations(2)` window includes the target, so a zero anywhere in the preamble validates any target | numbers [0, 5, 7], preamble 2: `part1`/`part1_b` return `None` | only the preamble is searched, as in `find_sum`, which the doc comment at src/lib.rs:6-7 says the loop inlined; the answer is `Some(7)` | high; not executed | SlidingWindow.ZeroInWindowCounterexample | SlidingWindow.Part1IntendedMeaning |
| src/lib.rs:148-156 | inclusive running sums make `running_sum[end] - running_sum[start]` the sum of `numbers[start+1..=end]`, but min and max are taken over `numbers[start..end]`, one position to the left | numbers [1, 2, 3], target 5: `part2` returns 3 | min + max of the run that sums to the target, `[2, 3]`, so 5 | high; not executed | IntendedRange.ShiftedSliceCounterexample | IntendedRange.Part2Intended |
| src/lib.rs:65-71 | the table scan searches rows `i..i + preamble` (flat form at src/lib.rs:95-98), and those rows hold pair sums reaching up to `preamble - 1` positions past the target; for the last targets the slice passes the end of the table | numbers [1, 1, 1, 5, 4, 0], preamble 3: row 2 holds 1 + 4 = 5, so 5 is accepted, and the next slice, rows 1..4, passes the 3-row table and aborts | only pairs among the `preamble` numbers before the target count, as in `find_sum`, and the scan ends with `None`; the answer is `Some(5)` | high; not executed | TableScan.TableMissesAnomaly | SlidingWindow.Part1IntendedMeaning |
| src/lib.rs:150-156 | the inner loop starts at `end = start`, so `end == start + 1` matches the single number `numbers[start+1]`, and the answer is then min + max of the one number `numbers[start]` | numbers [3, 5], target 5: `part2` matches [5] and returns 3 + 3 = 6 | a range has at least two numbers, since min + max of one number is just twice it; no such run exists here, so `None` | medium; not executed | IntendedRange.SingleNumberRunDropped | IntendedRange.Part2Intended |
