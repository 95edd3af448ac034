# random_name_generator_rs: syllable adjacency and dialect loading in Dafny

This project models the core of a Rust crate that builds pronounceable names
from syllables. A syllable has a text value, a position class (prefix, center
or suffix) and two `Joiner` flag sets. One says what may come before it, the
other what may come after it. The model covers four parts:

- `RngJoiner` (`joiner.dfy`): the one-byte `Joiner` flag set. It covers the
  one-way check `JoinsTo`, the two-way check `Joins` and the two renderers
  that turn the "only" flags back into directive tokens (` +c`, ` -v`, …).
- `RngSyllable` / `RngSyllables` (`syllable.dfy`, `syllables.dfy`): the
  `Syllable` record and the `Syllables` collection. The collection is a class
  over a sequence, because `add` pushes onto the vector in place. It has
  append, collapse to a string, membership, filtering by joinability, the
  accessors, the random index `rnd`, `get_random` and `next_from`.
- `WeightedIndex` / `RngWeightedRnd` (`weighted_index.dfy`,
  `weighted_rnd.dfy`): the weighted pick and the two fixed count/weight tables.
- `RngDialect` (`dialect.dfy`): the `Dialects` names and file paths, and the
  loader. The loader is a method over given lines: it routes each line to
  prefixes, centers, suffixes or bad lines. The module also has validity, the
  concatenation of the groups, the random prefix and the weighted syllable
  count.

Every random choice is an explicit `draw` parameter. A `requires` limits it
to the range the library call would produce. The weighted pick takes a draw
from `0..total` and returns the first index whose cumulative weight exceeds
it. `SampleDistribution` proves that exactly `weights[i]` of the `total`
draws pick index `i`.

Three behaviours of the code that a reader might not expect are kept as
written:

- `Syllables::rnd` draws from `0..len - 1` with the upper bound excluded. For
  two or more syllables the last one is therefore never picked by `rnd`,
  `get_random` or `next_from`. `Rnd` and `NextFrom` state this exclusion.
- `Dialect::is_valid` only asks whether some line failed to parse. An empty
  name and empty groups are valid, as the crate's own test at
  src/rng_dialect.rs:182-192 checks. `IsValid` follows this.
- `Joiner` declares `NONE` (no bits) and four flags in a `u8`. The model keeps
  the whole byte and proves that the four high bits never matter
  (`UndeclaredBitsIgnored`).

## Model

| member | source | states |
|---|---|---|
| `RngJoiner.Joiner.JoinsTo` | src/rng_joiner.rs:39-53 | `x.JoinsTo(to)` holds iff `to` carries SOME and `to` demands no consonant when x has VOWEL and no vowel when x lacks VOWEL |
| `RngJoiner.Joiner.Joins` | src/rng_joiner.rs:29-37 | two Joiners join iff both carry SOME and each one's only-vowel or only-consonant demand is met by the other's VOWEL flag |
| `RngJoiner.ConstantsDeclared` | src/rng_joiner.rs:4-12 | the five flag constants use only the four declared bits, and a union of such Joiners does too |
| `RngJoiner.UndeclaredBitsIgnored` | src/rng_joiner.rs:4-12 | clearing the four high bits changes neither `Joins`, `JoinsTo` nor the two renderers |
| `RngJoiner.JoinsToFailsExactly` | src/rng_joiner.rs:39-53 | `x.JoinsTo(y)` fails exactly when y has no bits, or y lacks SOME, or x has VOWEL while y demands a consonant, or x lacks VOWEL while y demands a vowel |
| `RngJoiner.JoinsSymmetric` | src/rng_joiner.rs:29-37 | `Joins` is `JoinsTo` in both directions, so `a.Joins(b) == b.Joins(a)` |
| `RngJoiner.JoinsMeansDemandsMet` | src/rng_joiner.rs:29-53 | two Joiners join iff both carry SOME and each one's only-vowel or only-consonant demand is met by the other's VOWEL flag |
| `RngJoiner.NoneJoinsNothing` | src/rng_joiner.rs:247-271 | NONE joins nothing and nothing joins NONE; a Joiner without SOME joins nothing in either direction |
| `RngJoiner.JoinsToNotSymmetric` | src/rng_joiner.rs:231-245 | `JoinsTo({SOME, VOWEL}, {SOME, ONLY_VOWEL})` holds; `JoinsTo` alone is one-way (SOME accepts {SOME, ONLY_VOWEL}, but {SOME, ONLY_VOWEL} does not accept SOME); {SOME, ONLY_VOWEL} joins {SOME, VOWEL} |
| `RngJoiner.JoinsMatrix` | src/rng_joiner.rs:154-174 | the flag unions equal the codes 3, 5, 7, 9, 11, and all sixteen listed pairs join |
| `RngJoiner.JoinsMatrixNeg` | src/rng_joiner.rs:176-199 | none of the nineteen listed pairs join |
| `RngJoiner.Joiner.ValueNext` | src/rng_joiner.rs:55-64 | renders `" +c"` iff ONLY_CONSONANT is set, `" +v"` iff ONLY_VOWEL is set without ONLY_CONSONANT, `""` iff neither is set |
| `RngJoiner.Joiner.ValuePrevious` | src/rng_joiner.rs:66-75 | the same rule with `" -c"`, `" -v"` and `""` |
| `RngJoiner.RenderersAgree` | src/rng_joiner.rs:55-75 | both renderers have the same length and the same letter, and differ only in `+` against `-` |
| `RngJoiner.RenderingExamples` | src/rng_joiner.rs:94-144 | SOME and {SOME, VOWEL} render empty; codes 9 and 11 render `c`, 5 and 7 render `v`, on both edges |
| `RngSyllables.Syllables.constructor` | src/rng_syllables.rs:13-19 | a collection built from a vector holds exactly that vector; the empty one holds nothing |
| `RngSyllables.Syllables.Add` | src/rng_syllables.rs:29-31 | the new contents are the old contents plus the element at the end, and the element is then contained |
| `RngSyllables.Syllables.Collapse` | src/rng_syllables.rs:37-43 | the loop over indices returns `Collapsed(items)`, the in-order concatenation of the values |
| `RngSyllables.CollapsedConcat` | src/rng_syllables.rs:37-43 | collapsing `a + b` is collapsing `a` followed by collapsing `b` |
| `RngSyllables.CollapsedUnits` | src/rng_syllables.rs:135-142 | an empty collection collapses to `""` and a single syllable to its value |
| `RngSyllables.Syllables.Contains` | src/rng_syllables.rs:45-47 | true iff some index holds a structurally equal syllable |
| `RngSyllables.Filtered` | src/rng_syllables.rs:49-54 | the result is no longer than the input and holds exactly the input elements `s` with `from.Joins(s.jprevious)` |
| `RngSyllables.Syllables.FilterFrom` | src/rng_syllables.rs:49-54 | returns a new collection holding `Filtered(items, from)` |
| `RngSyllables.FilteredConcat` | src/rng_syllables.rs:49-54 | filtering `a + b` is filtering `a` followed by filtering `b`, so the original order is kept |
| `RngSyllables.FilteredExtremes` | src/rng_syllables.rs:49-54 | if every element joins, the filter returns the whole input; if none does, it returns nothing |
| `RngSyllables.Syllables.First` | src/rng_syllables.rs:56-58 | `None` iff empty, otherwise the element at index 0 |
| `RngSyllables.Syllables.Get` | src/rng_syllables.rs:60-62 | `Some` iff the index is below the length, and then the element at that index |
| `RngSyllables.Syllables.GetRandom` | src/rng_syllables.rs:64-66 | `None` iff empty, otherwise an element of the collection |
| `RngSyllables.Syllables.IsEmpty` | src/rng_syllables.rs:68-70 | true iff the length is 0 |
| `RngSyllables.Syllables.Last` | src/rng_syllables.rs:72-74 | `None` iff empty, otherwise the element at index `len - 1` |
| `RngSyllables.Syllables.Len` | src/rng_syllables.rs:76-78 | the number of elements |
| `RngSyllables.FirstLastAreGet` | src/rng_syllables.rs:165-203 | `First` is `Get(0)`, and `Last` is `Get(len - 1)` on a non-empty collection |
| `RngSyllables.Syllables.NextFrom` | src/rng_syllables.rs:80-82 | given at least one element joinable from `from.jnext`, returns an element of the collection whose `jprevious` joins `from.jnext`: the candidate at index `draw` of the filtered list (index 0 below two candidates), so with two or more candidates never the last one |
| `RngSyllables.Syllables.Rnd` | src/rng_syllables.rs:84-95 | 0 when the length is below 2; otherwise an index below `len - 1`, so always a valid index and never the last one |
| `RngSyllables.RndReachesAllButLast` | src/rng_syllables.rs:217-223 | every index below `len - 1` is produced by some draw |
| `WeightedIndex.SampleFrom` | src/rng_weighted_rnd.rs:26-28 | scanning from index `i`, the result is the first index at or after `i` whose cumulative weight exceeds the draw |
| `WeightedIndex.Sample` | src/rng_weighted_rnd.rs:26-28 | the picked index is in range and has positive weight; the draw lies in its band of cumulative weight; every earlier band ends at or before the draw |
| `WeightedIndex.SampleBand` | src/rng_weighted_rnd.rs:26-28 | a draw picks `i` iff it lies in `i`'s band `[Sum(w[..i]), Sum(w[..i]) + w[i])` |
| `WeightedIndex.SampleDistribution` | src/rng_weighted_rnd.rs:26-28 | exactly `w[i]` of the `Sum(w)` possible draws pick index `i` |
| `RngWeightedRnd.WeightedRnd.Gen` | src/rng_weighted_rnd.rs:25-29 | needs weights no longer than counts and a draw below the total weight; returns `counts[i]` for some index `i` with positive weight |
| `RngWeightedRnd.TablesUsable` | src/rng_weighted_rnd.rs:7-17 | NORMAL pairs 4 counts with 4 weights summing to 18, SHORT pairs 2 with 2 summing to 5, and both can be sampled |
| `RngWeightedRnd.NormalGenRange` | src/rng_weighted_rnd.rs:8-11 | the normal table always yields 2, 3, 4 or 5 |
| `RngWeightedRnd.ShortGenRange` | src/rng_weighted_rnd.rs:13-16 | the short table always yields 2 or 3 |
| `RngWeightedRnd.GenDistribution` | src/rng_weighted_rnd.rs:25-29 | with distinct counts, exactly `weights[i]` of the draws yield `counts[i]` |
| `RngWeightedRnd.NormalDistribution` | src/rng_weighted_rnd.rs:8-11 | of the normal table's 18 draws, 10 yield 3 and 1 yields 5 |
| `RngDialect.Dialects.ToString` | src/rng_dialect.rs:84-88 | the variant name: at least five characters, starting with a capital letter |
| `RngDialect.Dialects.GetFilename` | src/rng_dialect.rs:91-93 | the variant name followed by `.txt` |
| `RngDialect.Dialects.GetPath` | src/rng_dialect.rs:95-97 | `"./src/languages/"` followed by the file name |
| `RngDialect.FilenamesDistinct` | src/rng_dialect.rs:90-98 | two dialects share a file name, or a path, only if they are the same dialect |
| `RngDialect.DialectNameExamples` | src/rng_dialect.rs:206-222 | `Elven` is named `"Elven"` with file `"Elven.txt"`; Fantasy's path is `"./src/languages/Fantasy.txt"` |
| `RngDialect.Dialect.IsValid` | src/rng_dialect.rs:23-25 | true iff there are no bad lines |
| `RngDialect.ValidityIgnoresNameAndGroups` | src/rng_dialect.rs:182-204 | any name and groups with no bad lines are valid, including the empty name and empty groups; one bad line makes a dialect invalid |
| `RngDialect.Dialect.Syllables` | src/rng_dialect.rs:60-67 | length is the sum of the three groups; the result is the prefixes, then the centers, then the suffixes |
| `RngDialect.Dialect.RandPrefix` | src/rng_dialect.rs:69-71 | `None` iff there are no prefixes, otherwise one of the prefixes |
| `RngDialect.LoadedRandPrefixIsPrefix` | src/rng_dialect.rs:224-232 | a random prefix of a loaded dialect is classified `Prefix` |
| `RngDialect.ClassOf` | src/rng_dialect.rs:34-44 | the syllables routed to class `c`: no more of them than input lines, and each is classified `c` |
| `RngDialect.ClassOfMembers` | src/rng_dialect.rs:35-40 | a syllable is routed to class `c` iff it is classified `c` and some input line parses to it |
| `RngDialect.BadLines` | src/rng_dialect.rs:34-44 | the lines routed to the bad list: no more of them than input lines |
| `RngDialect.BadLinesMembers` | src/rng_dialect.rs:41-43 | a line is among the bad lines iff it is an input line that does not parse |
| `RngDialect.LoadSnoc` | src/rng_dialect.rs:35-43 | one more line extends its own group by its syllable, or the bad lines by itself, and leaves the other outputs unchanged |
| `RngDialect.BadLinesWitness` | src/rng_dialect.rs:53-57 | the bad lines are non-empty iff some input line fails to parse |
| `RngDialect.New` | src/rng_dialect.rs:27-58 | the loop builds `Loaded(dialect, lines, parse)`; the result is `Err` iff some line fails to parse, and the `Err` carries the whole dialect |
| `RngDialect.LoadedAccountsForEveryLine` | src/rng_dialect.rs:34-44 | prefixes, centers, suffixes and bad lines together count exactly the input lines |
| `RngDialect.LoadedKeepsOrder` | src/rng_dialect.rs:34-44 | loading `a + b` gives, in each output, the result for `a` followed by the result for `b` |
| `RngDialect.LoadedSyllablesAreParsed` | src/rng_dialect.rs:60-67 | the groups of a loaded dialect, concatenated, hold exactly the parsed syllables with their multiplicities |
| `RngDialect.LoadedValidIffAllParse` | src/rng_dialect.rs:45-52 | a loaded dialect carries the variant name, and is valid iff every input line parses |
| `RngDialect.GenRndSyllableCount` | src/rng_dialect.rs:115-122 | the weighted syllable count is always between 2 and 5 |
| `RngDialect.SyllableCountIsNormalWeight` | src/rng_dialect.rs:115-116 | the dialect's count and weight tables equal NORMAL_WEIGHT's, so the count it draws is `NORMAL_WEIGHT.Gen` of the same draw |

## Left out

- The syllable parser `Syllable::new` and renderer `to_string` are not part of this model. src/rng_syllable.rs declares only the types. The loader takes the parser as a function parameter `string -> Option<Syllable>`.
- `Syllables::new_from_array` is left out because it calls the parser and unwraps each result.
- `Syllables::all` and the `IntoIterator` impl are left out. They only hand out the vector itself, which the model exposes as the field `items`.
- Random number generation (`thread_rng`, `Uniform`, `WeightedIndex`, `SliceRandom::choose`) is left out. Each draw is a parameter limited by a `requires` to the range the library call produces.
- Resolving the embedded asset, decoding UTF-8 and splitting into lines (src/rng_dialect.rs:28, 34, 125-127) are I/O and packaging. `New` receives the file's lines directly, so the `unwrap` on a missing asset is not modelled.
- The `debug!`/`trace!` logging is left out. So are the binary `Display` of `Joiner` and the `BadDialect` display string, which print only.
- `WeightedIndex.Sample`: sums are unbounded integers. The rand crate accumulates `u8` weights in `u8`, which would overflow past 255. Both tables sum far below that (18 and 5).
- `RngWeightedRnd.WeightedRnd.Gen`: requires a usable table. The source panics on an empty or all-zero weight list or a short count list. Both static tables are usable (`TablesUsable`).
- `RngSyllables.Syllables.NextFrom`: requires that some element is joinable from `from.jnext`. Otherwise the source panics on `unwrap`, and the model does not represent that panic.
- The bitflags `|` operator is modelled as the helper `Joiner.Union`. The crate can only build Joiners whose bits lie within the four declared flags (`Declared`). The model admits every byte, and `UndeclaredBitsIgnored` shows the extra bits never change a result.
- Name generation (the `RNG`/`rng_language` module used by src/main.rs and the benchmark) is not part of this model. Neither are the CLI in src/main.rs, `lib::test`, the benchmark, or the superseded `rng_joint.rs`, `rng_join.rs` and `j.rs`, which are not declared as modules.
