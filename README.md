# fuzzbench in Dafny

A model of the fuzzy string matcher `fuzzbench`. The matcher has two
implementations of the same batch search:

- the reference (`src/fuzzbench/baseline_impl.py`): a rolling-row
  Wagner-Fischer Levenshtein distance, the 0-100 similarity `ratio`, the
  `Match` record, and `batch_best_match`. For every query,
  `batch_best_match` keeps the first candidate with the strictly highest
  score. It starts from the sentinel `Match("", -1.0)`.
- the "optimised" one (`src/fuzzbench/impl.py`): a distance that falls back
  to the same dynamic program, and a batch search that differs from the
  reference in three ways:
  - it returns the sentinel for every query early when there are no
    candidates;
  - it seeds each scan with the first candidate instead of `""`;
  - it inlines the score formula.

The model:

- `EditDistance` (`edit_distance.dfy`)
  - `Lev`: the recursive definition of the edit distance on strings.
  - `Table`: the Wagner-Fischer table, indexed by prefix lengths.
  - The facts both implementations rely on: identity, distance 0 exactly for
    equal strings, bounds by the lengths, symmetry, the triangle inequality,
    one-edit facts (appending, dropping or substituting one character), and
    agreement of every table entry with the distance
    between the corresponding prefixes.
- `BaselineImpl` (`baseline_impl.dfy`)
  - the dynamic program as a method with loops over sequences, proved to
    return `Lev`;
  - `Ratio` over exact reals;
  - `Match` and the sentinel `NoMatch`;
  - the specification `BestMatch`: the earliest candidate with the highest
    score;
  - the batch search as a method, proved to return `BestMatch` for every
    query, in query order. Its proof goes through the scan as a fold
    (`ScanChoices`) and through a first-maximum function on score sequences
    (`FirstMax`).
- `Impl` (`impl.dfy`)
  - the fallback dynamic program and the optimised batch search, proved
    against the same specifications;
  - the consistency promise of the test suite: on every input both batch
    searches return the same choices and the same scores.
- `Scenarios` (`scenarios.dfy`)
  - "flaw" among "flaws" and "law";
  - the tie-break between equal candidates;
  - the sentinel for no candidates;
  - the sample input of the consistency test: "kitten" gets "bitten" and
    "flaw" gets "flaws";
  - distance("kitten", "sitting") == 3 and the ratio that follows from it.

The seed of the optimised scan is unobservable.
`BaselineImpl.ScanFindsFirstBest` holds for every seed that scores below 0,
and every real score lies in [0, 100]. So the first candidate always replaces
the seed, whether the seed is `""` or `choices[0]`.

## Model

| member | source | states |
|---|---|---|
| EditDistance.LevSelf | src/fuzzbench/baseline_impl.py:6-7 | every string is at distance 0 from itself, the empty string included |
| EditDistance.LevZeroIff | src/fuzzbench/baseline_impl.py:5-23 | the distance is 0 if and only if the two strings are equal |
| EditDistance.LevUpperBound | src/fuzzbench/baseline_impl.py:5-23 | the distance never exceeds the longer length |
| EditDistance.LevLowerBound | src/fuzzbench/baseline_impl.py:5-23 | the distance is at least the difference of the lengths |
| EditDistance.LevSymmetric | src/fuzzbench/baseline_impl.py:5-23 | distance(a, b) == distance(b, a) |
| EditDistance.LevTriangle | src/fuzzbench/baseline_impl.py:5-23 | distance(a, c) <= distance(a, b) + distance(b, c) |
| EditDistance.LevAppendOne | src/fuzzbench/baseline_impl.py:5-23 | appending one character to a string costs exactly one edit |
| EditDistance.LevDropFirst | src/fuzzbench/baseline_impl.py:5-23 | dropping the first character of a string costs exactly one edit |
| EditDistance.LevSubstituteOne | src/fuzzbench/baseline_impl.py:5-23 | replacing one character by another costs one edit, and nothing when the two characters are equal |
| EditDistance.TableIsLev | src/fuzzbench/baseline_impl.py:13-22 | entry (i, j) of the table that the rolling rows hold is the distance between the first i characters of `a` and the first j of `b` |
| EditDistance.RowPrefixSnoc | src/fuzzbench/baseline_impl.py:16-21 | proof helper for the inner loop: appending the next table entry to a partial row keeps it a prefix of that row of the table |
| BaselineImpl.LevenshteinDistance | src/fuzzbench/baseline_impl.py:5-23 | the early returns and the rolling-row loop return exactly the recursive edit distance; `prev` holds row i-1 and `cur` a prefix of row i as the loops run |
| BaselineImpl.ComputeRatio | src/fuzzbench/baseline_impl.py:26-30 | the computed score equals `Ratio`: 100 for two empty strings, otherwise `(1 - distance / longer length) * 100` |
| BaselineImpl.Ratio | src/fuzzbench/baseline_impl.py:26-30 | the score of two strings: 100 for two empty strings, otherwise one minus the distance over the longer length, times 100; every score lies in [0, 100] |
| BaselineImpl.RatioPerfectIff | src/fuzzbench/baseline_impl.py:26-30 | a score of 100 is reached exactly when the strings are equal, so ratio("", "") and ratio(a, a) are 100 |
| BaselineImpl.RatioSymmetric | src/fuzzbench/baseline_impl.py:26-30 | the score does not depend on the order of its arguments |
| BaselineImpl.FirstMax | src/fuzzbench/baseline_impl.py:43-46 | the index returned holds a highest score, and every earlier index scores strictly less |
| BaselineImpl.FirstMaxUnique | src/fuzzbench/baseline_impl.py:43-46 | proof helper: only one index is the first maximum, so an index shown to be one is the one `FirstMax` returns |
| BaselineImpl.FirstMaxSnoc | src/fuzzbench/baseline_impl.py:45-46 | after one more score, the first maximum moves to the new index exactly when the new score is strictly larger; a tie keeps the earlier index |
| BaselineImpl.ScoresAt | src/fuzzbench/baseline_impl.py:43-44 | proof helper: there is one score per candidate, and score j is the ratio of the query to candidate j |
| BaselineImpl.ScoresPrefix | src/fuzzbench/baseline_impl.py:43-44 | proof helper: scoring a prefix of the candidates gives the prefix of the scores |
| BaselineImpl.BestMatch | src/fuzzbench/baseline_impl.py:39-48 | with no candidates the result is `Match("", -1.0)`; otherwise the choice is one of the candidates, its score is its ratio, no candidate scores higher, and every earlier candidate scores strictly lower |
| BaselineImpl.BestMatchAt | src/fuzzbench/baseline_impl.py:43-46 | proof helper for concrete inputs: a candidate that scores at least every candidate and strictly more than every earlier one is the best match |
| BaselineImpl.KeepBetter | src/fuzzbench/baseline_impl.py:45-46 | one step of the scan keeps a score at least the current best and at least the new candidate's, and replaces the current best only with the new candidate scoring strictly more |
| BaselineImpl.ScanChoices | src/fuzzbench/baseline_impl.py:42-46 | the scan over the candidates ends with a score at least the seed's and at least every candidate's, and either on the seed or on a candidate paired with its own score |
| BaselineImpl.ScanStep | src/fuzzbench/baseline_impl.py:43-46 | proof helper: scanning one more candidate applies one strict-improvement step |
| BaselineImpl.BestMatchSnoc | src/fuzzbench/baseline_impl.py:45-46 | with one more candidate, the best match moves to it exactly when it scores strictly more |
| BaselineImpl.ScanFindsFirstBest | src/fuzzbench/baseline_impl.py:42-46 | the strict-improvement scan from any seed scoring below 0 ends on the earliest best-scoring candidate |
| BaselineImpl.AppendBest | src/fuzzbench/baseline_impl.py:47 | proof helper for the outer loop: appending the next query's result keeps every result the best match of its own query |
| BaselineImpl.BatchBestMatch | src/fuzzbench/baseline_impl.py:39-48 | one result per query, in query order, each the best match of its query (the sentinel when there are no candidates) |
| Impl.LevenshteinDistanceFast | src/fuzzbench/impl.py:18-35 | the fallback dynamic program returns exactly the recursive edit distance |
| Impl.BatchBestMatch | src/fuzzbench/impl.py:38-72 | the early return gives one sentinel per query; otherwise the scan seeded with `choices[0]` and the inlined score give, for every query in order, the same best match as the reference |
| Impl.AgreesWithBaseline | tests/test_correctness.py:4-12 | on every input both batch searches return lists of the same length with equal choices and equal scores at every index |
| Scenarios.LevFlawFlaws | src/fuzzbench/baseline_impl.py:5-23 | distance("flaw", "flaws") == 1 |
| Scenarios.LevFlawLaw | src/fuzzbench/baseline_impl.py:5-23 | distance("flaw", "law") == 1 |
| Scenarios.FlawBestMatch | src/fuzzbench/baseline_impl.py:39-48 | among "flaws" (score 80) and "law" (score 75) the query "flaw" gets `Match("flaws", 80.0)` |
| Scenarios.TieBreakFirst | src/fuzzbench/baseline_impl.py:45-46 | with two equal candidates "aa" for the query "aa", the first is chosen, with score 100 |
| Scenarios.EmptyChoicesExample | src/fuzzbench/impl.py:47-51 | with no candidates the query "x" gets `[Match("", -1.0)]` |
| Scenarios.LevKittenBitten | src/fuzzbench/baseline_impl.py:5-23 | distance("kitten", "bitten") == 1 |
| Scenarios.LevKittenKitchenLower | src/fuzzbench/baseline_impl.py:5-23 | distance("kitten", "kitchen") >= 2 |
| Scenarios.LevKittenSittingUpper | src/fuzzbench/baseline_impl.py:5-23 | distance("kitten", "sitting") <= 3 |
| Scenarios.LevKittenSittingLower | src/fuzzbench/baseline_impl.py:5-23 | distance("kitten", "sitting") >= 3 |
| Scenarios.LevKittenSitting | src/fuzzbench/baseline_impl.py:5-23 | distance("kitten", "sitting") == 3 |
| Scenarios.RatioKittenSitting | src/fuzzbench/baseline_impl.py:26-30 | ratio("kitten", "sitting") == (1 - 3/7) * 100 |
| Scenarios.KittenAmongSample | tests/test_correctness.py:5-6 | among "kitchen", "bitten" and "flaws" the query "kitten" gets `Match("bitten", (1 - 1/6) * 100)` |
| Scenarios.FlawAmongSample | tests/test_correctness.py:5-6 | among "kitchen", "bitten" and "flaws" the query "flaw" gets `Match("flaws", 80.0)` |
| Scenarios.ConsistencyExample | tests/test_correctness.py:4-12 | on the test's sample input both batch searches return the same two results: `Match("bitten", ratio("kitten", "bitten"))` and `Match("flaws", 80.0)` |

## Left out

- The RapidFuzz branch of `_levenshtein_distance_fast` (src/fuzzbench/impl.py:11-16) is foreign code and is not modelled. Only the pure fallback is. The consistency promise therefore holds for the fallback only.
- Floating point: scores are exact reals. The source computes `dist / m` and the product with `100.0` in IEEE doubles. Two different exact scores that round to the same double could compare differently there. The test compares scores within `1e-6` and does not rely on this.
- `Match` is a frozen dataclass. It is modelled as a datatype, so object identity is not modelled. Two equal candidates are told apart by their index (`FirstMax`), not by identity.
- The benchmark driver (src/fuzzbench/benchmark.py) is not modelled. It generates random inputs, measures time and memory, and writes a JSON report.
- The import-path shim (fuzzbench/__init__.py) and packaging (setup.py) are not modelled. They only arrange how the package is found and installed.
- The performance test (tests/test_performance.py) is not modelled. It measures wall-clock time.
- Strings are sequences of Unicode scalar values (Dafny `char`). A Python `str` may also hold lone surrogates; such strings are not representable here. No normalisation is modelled.
