# Pair sampler with one denied pair

This project models `src/rand_indices.rs`. That file holds a small Rust library. It picks two distinct indices from `0..len` and returns them as an ordered pair `(lo, hi)`. It never returns the denied pair `deny`, in either order. It has two samplers that share one input check:

- `validate_inputs` panics when `len < 3`, when the two denied indices are equal, or when either denied index is out of range.
- `random_distinct_index_tuple_ordered_except_good` keeps drawing two distinct indices with `rand::seq::index::sample`. It stops at the first draw that is not the denied pair, then orders that draw.
- `random_distinct_index_tuple_ordered_except_fast` never retries. It draws `a`. If `a` is not denied, it draws `b` from `0..len-1` and moves a `b` equal to `a` up to `len-1`. If `a` is denied, it sorts the denied pair and splits `0..len` into the three ranges around it. It picks a non-empty range with `sample_weighted` and draws `b` from that range. Finally it orders `(a, b)`.

The model has two modules:

- `RandIndices` (`rand_indices.dfy`). `validate_inputs` is a function. Both samplers are methods with mutable locals. The retrying sampler has a `while` loop. The modules also hold the pure pieces the samplers rely on: the acceptance test, the shift trick, the deny ranges and the final ordering.
- `PairCounting` (`pair_counting.dfy`). Counting facts about the pairs the samplers return, and the result sets the source's tests expect.

The generator is not modelled. Each value it would return is a parameter of the sampler method, constrained to the range `rand` guarantees:

- `SampleGood` takes the sequence of `sample` results. Once validation has passed, each is a pair of distinct indices below `len`.
- `SampleFast` takes `a`, the `sample_weighted` index `idx`, and the second `gen_range` result `b`.

These constraints apply only once validation has passed, so every input can still reach the panic path. A panic is the outcome `Panicked(reason)`, not a precondition. Indices are `usize` in the source. All arithmetic there (`len - 1`, `deny_a + 1`) runs after validation, where it cannot wrap, so `nat` is exact.

## Model

| member | source | states |
|---|---|---|
| `RandIndices.ValidateInputs` | src/rand_indices.rs:5-30 | Passes exactly when `len >= 3`, the denied indices differ and both are below `len`. Otherwise it fails with the reason of the first failing check, in source order; each reason is characterised in both directions. |
| `RandIndices.Ordered` | src/rand_indices.rs:51-52 | The conditional swap returns the same two values as a set, smaller first, and strictly ordered when they differ. |
| `RandIndices.AcceptsIffNotDenied` | src/rand_indices.rs:43-49 | For a distinct draw and a distinct deny pair, the loop's acceptance test `Accepts` (the break condition of line 46) holds exactly when the drawn set `{a, b}` is not the set `{deny_a, deny_b}`. |
| `RandIndices.SampleGood` | src/rand_indices.rs:36-53 | Panics exactly on invalid input, with `validate_inputs`' reason. Runs out of draws exactly when every draw is the denied pair. Otherwise it returns the ordered form of the first accepted draw. That pair satisfies `lo < hi < len` and is neither `deny` nor `deny` reversed. |
| `RandIndices.GoodSupportIsValidPairs` | src/rand_indices.rs:43-52 | The pairs the accepted `sample` draws lead to are exactly the valid pairs. |
| `RandIndices.GoodPreimageIsBothOrders` | src/rand_indices.rs:33-35 | Each valid pair comes from exactly two accepted draws, its two orders. So all valid pairs get equal shares of the accepted draws. |
| `RandIndices.ShiftDraw` | src/rand_indices.rs:81-86 | For `a < len` and a raw draw below `len - 1`, the shifted draw is below `len` and differs from `a`. |
| `RandIndices.ShiftDrawIsBijection` | src/rand_indices.rs:81-86 | On `0..len-1` the shift map is injective, and its image is exactly `0..len` without `a`. |
| `RandIndices.DenyRanges` | src/rand_indices.rs:70-75 | The three ranges around sorted denied indices `lo < hi` are pairwise disjoint. Together they cover exactly `0..len` without `lo` and `hi`. Their lengths sum to `len - 2`, and a range holding a value is non-empty. |
| `RandIndices.DenyRangesNotAllEmpty` | src/rand_indices.rs:76-78 | For valid input, some range has positive weight, so `sample_weighted` always has a range to return. |
| `RandIndices.FastSecond` | src/rand_indices.rs:68-87 | The second index is below `len` and differs from `a`. Together with `a` it is not the denied pair, in both branches. |
| `RandIndices.SampleFast` | src/rand_indices.rs:58-91 | Panics exactly on invalid input, with `validate_inputs`' reason, and otherwise always returns a pair. The pair is `Ordered(a, FastSecond(..))`, with `lo < hi < len`, and is neither `deny` nor `deny` reversed. |
| `RandIndices.FastReachable` | src/rand_indices.rs:66-90 | Every valid pair is produced by some admissible draws `a`, `idx` and `b`. |
| `RandIndices.FastSupportIsValidPairs` | src/rand_indices.rs:251-256 | The pairs the admissible draws of the single-pass sampler lead to are exactly the valid pairs. |
| `PairCounting.AllPairsCount` | src/rand_indices.rs:44 | There are `n * (n - 1) / 2` two-element subsets of `0..n`, the outcomes of `sample(rng, n, 2)`. |
| `PairCounting.ValidPairsAreAllButDenied` | src/rand_indices.rs:33-34 | The valid pairs are all two-element subsets of `0..len` except the sorted denied pair, which is one of them. |
| `PairCounting.ValidPairsCount` | src/rand_indices.rs:33-35 | There are `len * (len - 1) / 2 - 1` valid pairs. Both samplers have exactly that many possible results. |
| `PairCounting.ScenarioPairs` | src/rand_indices.rs:114-163 | The valid-pair sets for `len = 3, deny = (0, 2)`, `len = 4, deny = (0, 3)`, `len = 4, deny = (0, 2)` and `len = 5, deny = (1, 2)` are the key sets the tests list. |
| `PairCounting.TestScenarios` | src/rand_indices.rs:105-265 | In those four scenarios, the possible results of the retrying sampler and of the single-pass sampler are both exactly the key sets the two tests expect. |

## Left out

- The internals of `rand` (`sample`, `gen_range`, `sample_weighted`) and the generator's state. The model keeps only each call's result and the range `rand` guarantees for it.
- SampleGood: the source's loop is unbounded. The model loops over a finite sequence of draws, and `DrawsExhausted` stands for a loop that has not stopped yet. Termination with probability 1 is not stated.
- SampleFast: `sample_weighted` weighs each range by its length as an `f64`. The model only requires the chosen index to name a non-empty range. Selection proportional to length is not modelled.
- Probabilities are not modelled. The uniformity of the retrying sampler appears only as the counting fact `GoodPreimageIsBothOrders`.
- The single-pass sampler is not uniform. Its doc comment (src/rand_indices.rs:55-57) and the exact-distribution assertion of its test (src/rand_indices.rs:258-264) say it is. Worked by hand and not executed: for `len = 4, deny = (0, 3)`, the pair `(1, 2)` has probability 1/6 and each other valid pair has 5/24. Pairs containing one denied index are also reached through the denied branch. This is a claim about probabilities, so there is no Dafny member for it.
- Panic messages and their formatting (src/rand_indices.rs:11, 14, 17-21, 24-28). A panic is the outcome `Panicked(reason)`. The two out-of-range checks share one reason, as they share one message.
- The test helper `repeat_and_collect` (frequency counting over 100,000 calls) and the Criterion benchmark in `benches/my_benchmark.rs`. Neither has logic of its own.
- Thread safety of the caller's generator.
