# Lottery-number engine — a Dafny model

This project models the number generator of the Sorzi lottery helper: an
unbiased rejection sampler that turns 32-bit entropy words into an integer
of an inclusive range, the generation of one game (validate the requested
count of dozens, check that unique values are feasible, draw with duplicate
rejection, sort ascending), the generation of a batch of games, and the
table of seven lottery variants whose rules the generator is fed.

Two modules follow the two source files:

- `Lotteries` (`lotteries.dfy`, from `src/config/lotteries.ts`, pure): the
  `LotteryRules` record, the `LotteryKey` variants and the `LOTTERIES` table
  as the total function `Lottery`.
- `Generator` (`generator.dfy`, from `src/lib/generator.ts`, imperative):
  `CryptoIntInclusive`, `GenerateGame` (with its draw loop `DrawNumbers` and
  its in-place sort `SortAscending`) and `GenerateGames` as methods with
  loops, each proved equal to a specification function (`Sample`,
  `DrawLoop`, `Game`, `Batch`) whose properties are proved in turn.

The platform's cryptographic random source is a parameter: each operation
receives the sequence of 32-bit words it may consume and returns the words
it left unread. A finite sequence can run out, which the source's retry
loops never do; running out is reported as `EntropyExhausted`, an outcome
that exists only in the model.

Three behaviours of the code that one might expect to be otherwise are kept
as written:

- The code computes `limit = floor(0xffffffff / range) * range`, dividing
  the largest word rather than the number of words (2^32). `limit` is still
  a multiple of `range`, so the draw stays unbiased (`NoModuloBias`); for a
  range that divides 2^32 (1, or a power of two) one block of words more than
  necessary is rejected.
- The sampler has no `InvalidRange` error. With `max == min - 1` the range
  is 0 and the code returns NaN; with `max < min - 1` the range is negative,
  `limit` is at least `0xffffffff` so at most the word `0xffffffff` is
  rejected, and the value `min + x % range` is at least `min`, outside
  `[min, max]` (4 or 5 for `min` 4 and `max` 1); with a spread above `0xffffffff`, `limit` is 0 and the
  loop rejects every word forever; the model states `min <= max` and a spread of at
  most `0xffffffff` as the sampler's precondition (`SpreadFits`). The
  generator demands it only where the code would call the sampler: when
  both checks pass and at least one value is to be drawn (`DrawDefined`).
  With an empty range the count and uniqueness checks are still modelled,
  and so is the empty game.
- Rules are not required to have `dozens.min >= 1`. A count at or below zero
  that the rules allow passes the count check and yields the empty game,
  unless the rules ask for unique values and the range holds fewer than
  `dozens` values (`max - min + 1 < dozens`, possible only with
  `max < min - 1`), when the uniqueness check fails.

## Model

| member | source | states |
|---|---|---|
| `Lotteries.Lottery` | src/config/lotteries.ts:62-206 | every table entry is filed under its own key, has `range.min <= range.max` and `1 <= dozens.min <= dozens.max`, allows at most as many dozens as the range holds, and sets `uniqueNumbers` and `sortAscending` |
| `Generator.LimitIsLargestMultiple` | src/lib/generator.ts:10-11 | `limit` is a multiple of `range`, at least `range`, at most `0xffffffff`, and the largest such multiple |
| `Generator.Sample` | src/lib/generator.ts:5-20 | an accepted draw lies in `[min, max]`, consumes at least one word, and leaves a suffix of the words |
| `Generator.SampleIsFirstAccepted` | src/lib/generator.ts:13-19 | the sampler fails only when every word is at or above `limit`; otherwise its value is `min + x % range` for the first word `x` below `limit`, all earlier words being rejected |
| `Generator.CryptoIntInclusive` | src/lib/generator.ts:5-20 | the do-while rejection loop returns exactly what `Sample` specifies, a value in `[min, max]` |
| `Generator.NoModuloBias` | src/lib/generator.ts:11-19 | for every residue `r < range`, exactly `limit / range` words of `[0, limit)` have residue `r` |
| `Generator.UniformValues` | src/lib/generator.ts:11-19 | for every value `v` of `[min, max]`, exactly `limit / range` words of `[0, limit)` are mapped to `v` by `min + x % range`: each value has the same number of accepted words |
| `Generator.PreimageCount` | src/lib/generator.ts:19 | among the first `q * range` words, exactly `q` have residue `r` |
| `Generator.DrawLoop` | src/lib/generator.ts:40-50 | the draw loop ends with `dozens` values, or `nums` itself when it already holds that many, extending `nums`, all in `[min, max]`, without repeats when uniqueness is on, leaving at most as many words as it was given |
| `Generator.DrawLoopSuffix` | src/lib/generator.ts:43-50 | the words the draw loop leaves are a suffix of those it was given: it reads a prefix |
| `Generator.DrawNumbers` | src/lib/generator.ts:40-50 | the loop with `used` kept equal to the values held (no repeats when unique) fills the array with exactly what `DrawLoop` draws, or reports that the words ran out |
| `Generator.GenerateGame` | src/lib/generator.ts:22-54 | the result and the words left are exactly `Game`; the count check fails first and the uniqueness check second, both before any word is consumed, each exactly under its condition; on success the game has `max(dozens, 0)` values in range, distinct when unique, ascending when sorted, a permutation of the drawn values, and in draw order when not sorted; running out of words leaves none |
| `Generator.SortSeq` | src/lib/generator.ts:52 | the numeric sort of a sequence is ascending and a permutation of it |
| `Generator.AscendingPermutationUnique` | src/lib/generator.ts:52 | two ascending sequences with the same elements are equal, so any correct numeric sort gives the same game |
| `Generator.Game` | src/lib/generator.ts:22-54 | one call of `generateGame`: a failed count or uniqueness check leaves the words untouched, an exhausted supply leaves none, and a success is a game meeting `IsGame` (the drawn values, sorted when `sortAscending`) |
| `Generator.SortAscending` | src/lib/generator.ts:52 | the in-place numeric sort leaves the array ascending and a permutation of its old contents |
| `Generator.DistinctPermutation` | src/lib/generator.ts:52 | sorting a draw without repeats gives a game without repeats |
| `Generator.InRangePermutation` | src/lib/generator.ts:52 | sorting a draw within the range gives a game within the range |
| `Generator.FullRangeGame` | src/lib/generator.ts:34-49 | a unique game of `max - min + 1` dozens contains every value of the range, each exactly once |
| `Generator.FullRangeSortedGame` | src/lib/generator.ts:34-53 | such a game, when also sorted, is exactly `min, min + 1, ..., max` |
| `Generator.Batch` | src/lib/generator.ts:56-65 | `n` successive calls of `Game`, each on the words the previous one left, the first failure ending the batch with its error; a success appends exactly `n` games meeting `IsGame`, and when both checks pass the only failure is running out of words |
| `Generator.BatchChecks` | src/lib/generator.ts:28-38 | a batch of one or more games fails the count or uniqueness check on its first game with every word unread, or never fails them, and then its only failure is running out of words; a successful batch holds `n` games meeting `IsGame` |
| `Generator.GenerateGames` | src/lib/generator.ts:56-65 | a non-positive count fails before any game and consumes nothing; so does a count of 2^32 or more, for which `Array.from` cannot allocate the batch (`InvalidArrayLength`); otherwise the result and the words left are exactly `Batch` of `gamesCount` games; the game checks fail on the first game without consuming words or never; on success exactly `gamesCount` games, each meeting `IsGame` |
| `Generator.TableNeverInsufficient` | src/config/lotteries.ts:62-206 | for every table entry and every allowed count, the sampler's precondition holds and the uniqueness check passes |
| `Generator.MegaSenaGame` | src/config/lotteries.ts:78-100 | a Mega-Sena game of six holds six strictly ascending values of 1..60 |
| `Generator.LotomaniaGame` | src/config/lotteries.ts:147-167 | a Lotomania game holds fifty strictly ascending values of 0..99 |
| `Generator.CustomFullGame` | src/config/lotteries.ts:63-76 | a custom game of 60 dozens is exactly 1, 2, ..., 60 |
| `Generator.MegaSenaBatch` | src/lib/generator.ts:56-65 | three Mega-Sena games of six are exactly `Batch` on the words: either all succeed, each strictly ascending within 1..60, or the words ran out |

## Left out

- `crypto.getRandomValues` (src/lib/generator.ts:15) is a platform call; the model takes the words as a parameter. Statistical uniformity of the source cannot be stated about a finite sequence of words; only the counting argument (`NoModuloBias`) is proved.
- Almost-sure termination of the two retry loops (src/lib/generator.ts:14-17, 43-50) is not modelled: the loops are bounded by the supplied words, and `EntropyExhausted` stands for a supply that ran out.
- `CryptoIntInclusive`: requires `min <= max` and a spread of at most `0xffffffff`; `GenerateGame` and `GenerateGames` require it only when both checks pass and a value is to be drawn (for `GenerateGames`, also only when the count is between 1 and 2^32 - 1). The code's results outside this precondition (NaN when `max == min - 1`, a value at or above `min` when `max < min - 1`, a loop that never ends when `limit` is 0 for a wider spread) are not modelled.
- Non-integer counts (a fractional `dozens`, the `Number.isInteger` test on `gamesCount`) are not modelled: all quantities are `int`.
- The Portuguese error messages are modelled as the variants of `GenError`; the `RangeError` that `Array.from` throws for a length of 2^32 or more is the variant `InvalidArrayLength`.
- The engine's sort algorithm is not modelled: `SortAscending` is an insertion sort, and only the outcome of `Array.prototype.sort` with a numeric comparator (ascending, a permutation) is claimed.
- The `name` strings are kept, but the `prizes` and `prices` fields of `LotteryRules` are not: they are informational and unused by the generator.
- The React components, page layout, support form, animation and styling files hold no generation logic and are not part of this model.
