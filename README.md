# Melody similarity retrieval (query by humming), modelled in Dafny

This project models the similarity retrieval engine of the query-by-humming system. The engine has two parts:

- `qbh-system/src/similarity_retrieval/utils.h` holds the encoders, the two alignment sweeps and the fragment selection.
- `qbh-system/src/similarity_retrieval/matching.cpp` validates the matching method and drives the comparison of the hummed query against every sample of every catalogue song. It then keeps the five best songs.

Each part of the engine maps to one module.

- **Encoders** (`encoders.dfy`): a transcription is a sequence of `(onset, duration, note)` events, where note 0 means silence.
  - `ConvertToUds` turns the voiced events into a contour string. Each transition gives a direction token (`D`, `U`, `S`) and then a duration token (`S`, `L`, `E`). It is specified by `UdsTokens`. When no voiced event has duration 0, it is proved equal to the transition-by-transition reading `Transitions`. A voiced event of duration 0 leaves the remembered duration at 0, so the next voiced event emits nothing.
  - `ConvertToMidi` keeps each voiced note truncated to an integer.
  - `ReadStream` picks the encoder by matching method. The `default` method gives an empty sequence.
- **Sorting** (`sorting.dfy`): the stand-in for `std::sort`. `SortBy` returns a permutation sorted by a real key.
- **Alignment** (`alignment.dfy`) covers the pieces both sweeps rest on:
  - the `pos_min` tie-break
  - the `Cost` cell and its order by normalised score
  - `distance_ij`
  - the height-aware `min` of the DTW sweep

  It also defines each sweep's grid row by row (`DtwRow`, `DpRow`) and gives the cell recurrence the two-row sweep computes (`DtwCellRecurrence`, `DpCellRecurrence`). The sweep methods `DtwSweep` and `DpSweep` keep only two rows, as the source does, and are proved to return the last grid row. Further lemmas state:
  - the shape of every cell
  - that an exact (or, for DTW, transposed) occurrence of the query in the reference is aligned with score 0
  - that transposing the query changes no DTW score, only the heights
- **Selection** (`selection.dfy`): the final row is sorted by normalised score. Then a window-and-overlap loop accepts at most one fragment. A fragment must be longer than 0.6 times the query and shorter than 2.4 times it. DTW also requires a normalised score below 3. The song is appended to the rank only when the accepted score is nonzero.
  - `SelectFragments` is the source's loop. It is proved to accept exactly `Accepted`, the first eligible fragment.
  - `EmittedIsBest` proves that the emitted value is the smallest normalised score among eligible fragments, whatever order the sort gave to ties.
- **Ranking** (`ranking.dfy`): the method name is validated by `ParseMethod`.
  - `RankCatalog` walks every song and sample in catalogue order. `Retrieve` sorts the rank ascending by score.
  - `TopSongs` is the source's top-5 loop with its `used[50]` array. It is proved to produce `Reports(Top(...))`, which reports each selected entry with the details of the song at position `id - 1` of the catalogue, as the source does.
  - `RankedReport` collects what the output promises: at most five songs, distinct, in ascending order of score, each reported with its best score, no unreported song better than a reported one, and every matching song when fewer than five do.

## Model

| member | source | states |
|---|---|---|
| Encoders.Direction | qbh-system/src/similarity_retrieval/utils.h:103 | the direction token is `U` exactly when the pitch rises, `D` exactly when it falls, and otherwise `S` |
| Encoders.DurationRelation | qbh-system/src/similarity_retrieval/utils.h:104 | the duration token is `L` exactly when the note is longer, `E` exactly when it is equally long, and otherwise `S` |
| Encoders.Voiced | qbh-system/src/similarity_retrieval/utils.h:101 | the voiced events: never more than the input, and every event with a nonzero note is among them |
| Encoders.UdsTokens | qbh-system/src/similarity_retrieval/utils.h:100-108 | the contour tokens of a transcription come in pairs (even length) |
| Encoders.ConvertToUds | qbh-system/src/similarity_retrieval/utils.h:95-110 | the encoder loop produces `UdsTokens`, the token pairs emitted while a previous voiced duration is remembered |
| Encoders.Transitions | qbh-system/src/similarity_retrieval/utils.h:101-107 | one direction token and one duration token per consecutive pair of voiced notes: `2(n-1)` tokens for `n` notes, and none for none |
| Encoders.LastIsLastVoiced | qbh-system/src/similarity_retrieval/utils.h:98-107 | the remembered duration and note are those of the last voiced event, or 0 when there is none |
| Encoders.UdsAlternates | qbh-system/src/similarity_retrieval/utils.h:102-105 | the contour string has even length, with direction tokens at even positions and duration tokens at odd positions |
| Encoders.UdsIgnoresSilence | qbh-system/src/similarity_retrieval/utils.h:101 | silent events change neither the output nor the remembered state |
| Encoders.UdsIsTransitions | qbh-system/src/similarity_retrieval/utils.h:95-110 | when no voiced event has duration 0, the contour string is exactly `Transitions` of the voiced notes |
| Encoders.VoicedMembers | qbh-system/src/similarity_retrieval/utils.h:101 | every kept event comes from the input and is voiced |
| Encoders.TransitionsAt | qbh-system/src/similarity_retrieval/utils.h:103-104 | tokens `2k` and `2k+1` compare voiced notes `k` and `k+1` |
| Encoders.Truncate | qbh-system/src/similarity_retrieval/utils.h:118 | the `double`-to-`int` conversion truncates toward zero |
| Encoders.MidiTokens | qbh-system/src/similarity_retrieval/utils.h:117-118 | one token per voiced event, each the truncated note |
| Encoders.ConvertToMidi | qbh-system/src/similarity_retrieval/utils.h:112-120 | the encoder loop produces `MidiTokens` |
| Encoders.Encode | qbh-system/src/similarity_retrieval/utils.h:132-137 | what `read_stream` leaves: nothing for `default`, an even number of contour tokens for `uds`, and one token per voiced note for `dtw` |
| Encoders.ReadStream | qbh-system/src/similarity_retrieval/utils.h:122-140 | `uds` gives the contour string (even length), `dtw` gives one token per voiced note, and any other method gives an empty sequence |
| Sorting.SortBy | qbh-system/src/similarity_retrieval/utils.h:169 | the result is sorted by the key and is a permutation of the input |
| Sorting.SortByMembers | qbh-system/src/similarity_retrieval/utils.h:225 | sorting keeps exactly the same elements |
| Sorting.InsertBy | qbh-system/src/similarity_retrieval/utils.h:169 | inserting into a sorted sequence keeps it sorted and adds exactly one element |
| Alignment.PosMin | qbh-system/src/similarity_retrieval/utils.h:40 | `pos_min` gives 1 exactly when the first is strictly smallest, 2 exactly when the second is, and otherwise 3 |
| Alignment.PosMinChoice | qbh-system/src/similarity_retrieval/utils.h:40 | the picked value never exceeds the third; a strict minimum is picked; a tie of the first two goes to the third, even a larger one (`pos_min(1,1,5) == 3`) |
| Alignment.NormScore | qbh-system/src/similarity_retrieval/utils.h:182 | the normalised score times the run's length is its score; a zero-length run, which the source divides by zero, gets 0 |
| Alignment.NormScoreSign | qbh-system/src/similarity_retrieval/utils.h:182 | the normalised score of a run with positive length is nonnegative, and zero exactly when its score is zero |
| Alignment.CostLess | qbh-system/src/similarity_retrieval/utils.h:66-70 | `operator<` orders runs by score per length, i.e. by cross-multiplied score and length |
| Alignment.CrossMultiply | qbh-system/src/similarity_retrieval/utils.h:69 | comparing two quotients with positive divisors equals comparing the cross products |
| Alignment.DistanceIJ | qbh-system/src/similarity_retrieval/utils.h:73-77 | the capped distance lies in 0..12 and equals the absolute difference below the cap |
| Alignment.DistanceIJMetric | qbh-system/src/similarity_retrieval/utils.h:73-77 | the capped distance is symmetric, zero on equal notes, and satisfies the triangle inequality |
| Alignment.Min | qbh-system/src/similarity_retrieval/utils.h:79-91 | a predecessor whose height is strictly closest to the interval is always chosen |
| Alignment.MinPicksClosest | qbh-system/src/similarity_retrieval/utils.h:79-91 | with distinct scores below 1000, the chosen predecessor is among the closest in height, with the smallest score among those |
| Alignment.MinSentinelQuirk | qbh-system/src/similarity_retrieval/utils.h:86-89 | on a tie for the closest height, the left-out predecessor enters `pos_min` with score 1000: when left and upper tie with equal scores, or both score at least 1000, the farther diagonal one is chosen; when a tie involving the diagonal one has both scores above 1000, the farther left or upper one is chosen |
| Alignment.MinPrefersPerfectDiagonal | qbh-system/src/similarity_retrieval/utils.h:79-91 | a diagonal predecessor with score 0 whose height equals the interval always wins |
| Alignment.MinShift | qbh-system/src/similarity_retrieval/utils.h:81 | raising all heights and the interval by the same amount leaves the choice unchanged |
| Alignment.DtwFirstColumn | qbh-system/src/similarity_retrieval/utils.h:151-152 | column 0 of a later DTW row starts at 0, keeps the height of the cell above, and costs more than it exactly when that height differs from the interval |
| Alignment.DtwStepChoice | qbh-system/src/similarity_retrieval/utils.h:153-162 | an inner DTW step extends the left, upper or diagonal predecessor to column `j`, adding the gap between its height and the interval; a predecessor strictly closest in height is the one extended |
| Alignment.DtwRowPrefix | qbh-system/src/similarity_retrieval/utils.h:151-163 | the row prefix built by the inner loop has one cell per column visited |
| Alignment.DtwRow | qbh-system/src/similarity_retrieval/utils.h:148-166 | every DTW row has one cell per reference token |
| Alignment.DtwCellRecurrence | qbh-system/src/similarity_retrieval/utils.h:148-163 | row 0 starts a run at every column with score 0 and height `q[0]-r[j]`; column 0 extends the cell above; an inner cell extends the predecessor `min` chooses, adding its height's distance to the raw interval |
| Alignment.DtwStepShaped | qbh-system/src/similarity_retrieval/utils.h:155-162 | one inner DTW step keeps the cell shape: it ends at its own column, starts at or before it, has a nonnegative score, and its height is the starting interval |
| Alignment.DtwCellShape | qbh-system/src/similarity_retrieval/utils.h:148-166 | every DTW cell has that shape; row-0 cells have score 0 and start at their own column |
| Alignment.DtwStepShift | qbh-system/src/similarity_retrieval/utils.h:154-162 | transposing the query token and raising the predecessors' heights raises the step's height and changes nothing else |
| Alignment.DtwRowPrefixRaised | qbh-system/src/similarity_retrieval/utils.h:151-163 | a DTW row computed from a raised previous row is the raised row |
| Alignment.DtwTransposition | qbh-system/src/similarity_retrieval/utils.h:148-166 | every DTW row of a query transposed by `k` equals the original row with heights raised by `k`: same runs, same scores |
| Alignment.DtwStepPerfect | qbh-system/src/similarity_retrieval/utils.h:155-161 | a diagonal predecessor with score 0 and height equal to the interval is extended and keeps score 0 |
| Alignment.DtwOccurrence | qbh-system/src/similarity_retrieval/utils.h:148-166 | if the query occurs in the reference at column `a`, transposed by `k`, then cell `(i, a+i)` is the run from `a` with score 0 and height `k` |
| Alignment.DtwNextRow | qbh-system/src/similarity_retrieval/utils.h:151-163 | one pass of the inner loop computes the next DTW row |
| Alignment.DtwSweep | qbh-system/src/similarity_retrieval/utils.h:145-166 | the two-row sweep returns the last DTW row |
| Alignment.DpRow | qbh-system/src/similarity_retrieval/utils.h:203-222 | every contour row has one cell per reference token |
| Alignment.DpFirstColumn | qbh-system/src/similarity_retrieval/utils.h:206 | column 0 of a later contour row starts at 0 and costs more than the cell above exactly when the tokens differ |
| Alignment.DpStepChoice | qbh-system/src/similarity_retrieval/utils.h:207-218 | an inner contour step extends the left, upper or diagonal predecessor at a cost of half, once or one and a half times the mismatch; never more than the diagonal extension; a strictly cheapest left or upper extension is taken |
| Alignment.DpRowPrefix | qbh-system/src/similarity_retrieval/utils.h:206-219 | the row prefix built by the inner loop has one cell per column visited |
| Alignment.DpCellRecurrence | qbh-system/src/similarity_retrieval/utils.h:203-219 | row 0 starts runs with score 0 or 4; column 0 adds 0 or 4 to the cell above; an inner cell adds 0 or 1, 2 or 3 to the left, upper or diagonal cell `pos_min` picks |
| Alignment.DpStepShaped | qbh-system/src/similarity_retrieval/utils.h:207-218 | one inner contour step keeps the cell shape, and its score exceeds the diagonal predecessor's by at most 3, and by nothing for matching tokens |
| Alignment.DpCellShape | qbh-system/src/similarity_retrieval/utils.h:203-222 | every contour cell ends at its column, starts at or before it, has height 0 and a score in `0..4(i+1)`; never more than 3 above its diagonal predecessor, and no more for a match |
| Alignment.DpStepPerfect | qbh-system/src/similarity_retrieval/utils.h:208-218 | a diagonal predecessor with score 0 and matching tokens is extended and keeps score 0 |
| Alignment.DpOccurrence | qbh-system/src/similarity_retrieval/utils.h:203-222 | if the query occurs verbatim in the reference at column `a`, then cell `(i, a+i)` is the run from `a` with score 0 |
| Alignment.DpNextRow | qbh-system/src/similarity_retrieval/utils.h:206-219 | one pass of the inner loop computes the next contour row |
| Alignment.DpSweep | qbh-system/src/similarity_retrieval/utils.h:200-222 | the two-row sweep returns the last contour row |
| Selection.Overlaps | qbh-system/src/similarity_retrieval/utils.h:177-178 | a run whose start or whose end lies inside the accepted one overlaps it; a run wholly before or after it does not; as written, neither does a run that strictly contains it |
| Selection.Plausible | qbh-system/src/similarity_retrieval/utils.h:183 | the length window `0.6n < L < 2.4n` is the integer test `3n < 5L < 12n`, and it implies a positive length |
| Selection.Eligible | qbh-system/src/similarity_retrieval/utils.h:182-183 | an eligible run is plausible, has positive length and, for DTW, a score below 3 per unit of length |
| Selection.Runs | qbh-system/src/similarity_retrieval/utils.h:169 | the cells kept for sorting are exactly the final-row cells of positive length |
| Selection.FirstEligible | qbh-system/src/similarity_retrieval/utils.h:173-184 | the index of the first fragment in the sorted row that passes the window (and, for DTW, the score cap): no earlier one passes |
| Selection.Accepted | qbh-system/src/similarity_retrieval/utils.h:171-188 | at most one fragment is accepted; it is an eligible cell of the sorted row, and none is accepted exactly when no cell is eligible |
| Selection.SelectFragments | qbh-system/src/similarity_retrieval/utils.h:171-188 | the loop, overlap test included, accepts exactly `Accepted` (at most one fragment), and its sum is that fragment's normalised score |
| Selection.BestFragment | qbh-system/src/similarity_retrieval/utils.h:169-188 | the fragment accepted from a final row is one of its cells and is eligible |
| Selection.Emitted | qbh-system/src/similarity_retrieval/utils.h:190-193 | `if (s)`: a score is emitted only for an accepted fragment, equals its normalised score and is nonzero; every accepted fragment with a nonzero normalised score is emitted |
| Selection.DtwScore | qbh-system/src/similarity_retrieval/utils.h:142-194 | no score for an empty query or reference; an emitted DTW score is never 0 |
| Selection.DpScore | qbh-system/src/similarity_retrieval/utils.h:197-250 | no score for an empty query or reference; an emitted contour score is never 0 |
| Selection.MatchScore | qbh-system/src/similarity_retrieval/utils.h:254-261 | `default` emits no score; an emitted score is never 0 |
| Selection.Appended | qbh-system/src/similarity_retrieval/utils.h:190-193 | a comparison appends at most one entry |
| Selection.DtwMatching | qbh-system/src/similarity_retrieval/utils.h:142-194 | the rank is extended by the song id with `DtwScore` when one is emitted, and otherwise left as it was |
| Selection.DpMatching | qbh-system/src/similarity_retrieval/utils.h:197-250 | the rank is extended by the song id with `DpScore` when one is emitted, and otherwise left as it was |
| Selection.Matching | qbh-system/src/similarity_retrieval/utils.h:254-261 | `uds` runs the contour matcher, `dtw` the DTW matcher, and any other method leaves the rank untouched |
| Selection.BestScoreUnique | qbh-system/src/similarity_retrieval/utils.h:182 | there is at most one best normalised score over a set of runs |
| Selection.FirstEligibleIsMin | qbh-system/src/similarity_retrieval/utils.h:173-184 | in a sorted row, the first eligible fragment has the smallest normalised score of all eligible ones |
| Selection.SortedNeverCostLess | qbh-system/src/similarity_retrieval/utils.h:66-70 | sorting runs by normalised score is sorting by `operator<`: no later run is `CostLess` than an earlier one |
| Selection.SelectionIgnoresTieOrder | qbh-system/src/similarity_retrieval/utils.h:169-188 | two sorted orders of the same row agree on whether a fragment is accepted, and on its normalised score |
| Selection.BestFragmentIsBest | qbh-system/src/similarity_retrieval/utils.h:169-188 | a fragment is accepted exactly when some run is eligible, and its normalised score is the best among eligible runs |
| Selection.EmittedIsBest | qbh-system/src/similarity_retrieval/utils.h:169-193 | a score is emitted exactly when some run is eligible and all eligible runs have positive scores; it is then the best eligible normalised score and is positive |
| Selection.DtwRowNonnegative | qbh-system/src/similarity_retrieval/utils.h:148-166 | every last-row DTW cell has a nonnegative score |
| Selection.DpRowNonnegative | qbh-system/src/similarity_retrieval/utils.h:203-222 | every last-row contour cell has a nonnegative score |
| Selection.DtwScoreIsBest | qbh-system/src/similarity_retrieval/utils.h:142-194 | a DTW similarity is emitted exactly when the final row has an eligible run and no eligible run scores 0; it is then that row's best normalised score |
| Selection.DpScoreIsBest | qbh-system/src/similarity_retrieval/utils.h:197-250 | a contour similarity is emitted exactly when the final row has a run in the window and no such run scores 0; it is then their best normalised score |
| Selection.MatchScorePositive | qbh-system/src/similarity_retrieval/utils.h:190-193 | every emitted similarity is positive |
| Selection.SingleNoteNeverRanked | qbh-system/src/similarity_retrieval/utils.h:183 | a one-token query never ranks a song: no run fits the window |
| Selection.DpExactOccurrenceNotRanked | qbh-system/src/similarity_retrieval/utils.h:239-249 | a contour query of three or more tokens that occurs verbatim in the reference gives no entry for that sample, because its perfect score 0 fails `if (s)` |
| Selection.DtwExactOccurrenceNotRanked | qbh-system/src/similarity_retrieval/utils.h:183-193 | likewise, a DTW query of three or more notes that occurs in the reference under any transposition gives no entry |
| Selection.DtwScoreTransposition | qbh-system/src/similarity_retrieval/utils.h:142-194 | transposing the hummed query by any number of semitones leaves the DTW similarity unchanged |
| Ranking.ParseMethod | qbh-system/src/similarity_retrieval/matching.cpp:113-118 | a method name is accepted exactly when it is `default`, `uds` or `dtw` |
| Ranking.MethodName | qbh-system/src/similarity_retrieval/matching.cpp:113-115 | every method's name is one of the three names the validation accepts |
| Ranking.ParseMethodRoundTrip | qbh-system/src/similarity_retrieval/matching.cpp:113-118 | parsing a method's own name gives that method back, and an accepted name is that method's name |
| Ranking.Cmp | qbh-system/src/similarity_retrieval/matching.cpp:123-126 | entries of equal score are not ordered, and `cmp` is asymmetric |
| Ranking.CmpStrictWeakOrder | qbh-system/src/similarity_retrieval/matching.cpp:123-126 | `cmp` is the strict weak order `std::sort` needs: irreflexive, transitive, with equal scores as the only incomparable pairs |
| Ranking.SortRank | qbh-system/src/similarity_retrieval/matching.cpp:123-126 | the rank sorted by `cmp` is a permutation of the rank, with no later entry scoring below an earlier one |
| Ranking.Reports | qbh-system/src/similarity_retrieval/matching.cpp:199-215 | one report per selected entry |
| Ranking.Top | qbh-system/src/similarity_retrieval/matching.cpp:193-198 | the loop keeps at most `k` entries, and no more than the rank holds |
| Ranking.TopSongs | qbh-system/src/similarity_retrieval/matching.cpp:192-217 | the loop with `used[50]` reports exactly `Top(rank, 5, {})`, each entry with the details of the song at catalogue position `id - 1` and with its score; every selected id is a valid position |
| Ranking.TopInRank | qbh-system/src/similarity_retrieval/matching.cpp:193-198 | at most `k` entries are selected, each from the rank and with an id not yet used |
| Ranking.TopDistinct | qbh-system/src/similarity_retrieval/matching.cpp:195-197 | the selected entries have pairwise distinct ids |
| Ranking.TopKeepsBestScore | qbh-system/src/similarity_retrieval/matching.cpp:193-198 | over a rank sorted by score, each selected entry's score is no larger than that of any rank entry with the same id |
| Ranking.TopIsBest | qbh-system/src/similarity_retrieval/matching.cpp:193-198 | over a rank sorted by score, a rank entry whose id is neither used nor selected scores no better than any selected entry: the loop keeps the best |
| Ranking.TopSorted | qbh-system/src/similarity_retrieval/matching.cpp:193-198 | over a sorted rank, the selected entries come in ascending order of score |
| Ranking.TopComplete | qbh-system/src/similarity_retrieval/matching.cpp:192-198 | when fewer than `k` entries are selected, every id in the rank, except those already used, is selected |
| Ranking.Songs | qbh-system/src/similarity_retrieval/matching.cpp:165-168 | one song record per catalogue song, in catalogue order |
| Ranking.SampleEntries | qbh-system/src/similarity_retrieval/matching.cpp:170-182 | a song's samples contribute at most one entry each, all under the song's id |
| Ranking.CatalogRank | qbh-system/src/similarity_retrieval/matching.cpp:159-183 | the catalogue contributes at most one entry per sample, each under a catalogue id |
| Ranking.CompareSample | qbh-system/src/similarity_retrieval/matching.cpp:172-180 | one sample is read with the method's encoder and compared, and the rank is extended by its entry |
| Ranking.RankSong | qbh-system/src/similarity_retrieval/matching.cpp:170-182 | the sample loop appends the song's `SampleEntries` |
| Ranking.RankCatalog | qbh-system/src/similarity_retrieval/matching.cpp:159-183 | the song loop builds `CatalogRank` and the song list |
| Ranking.Retrieve | qbh-system/src/similarity_retrieval/matching.cpp:139-217 | an unknown method is an error; otherwise the output is `Reports` of the top five of the sorted catalogue rank |
| Ranking.CatalogRankPositive | qbh-system/src/similarity_retrieval/matching.cpp:180 | every rank entry has a positive similarity |
| Ranking.SampleEntriesPositive | qbh-system/src/similarity_retrieval/matching.cpp:170-182 | every entry a song's samples contribute has a positive similarity |
| Ranking.DefaultReportsNothing | qbh-system/src/similarity_retrieval/matching.cpp:157-186 | with the `default` method, the rank stays empty and no song is reported |
| Ranking.DefaultSamplesNothing | qbh-system/src/similarity_retrieval/matching.cpp:170-182 | with the `default` method, no sample contributes an entry |
| Ranking.RankedReport | qbh-system/src/similarity_retrieval/matching.cpp:186-217 | at most five songs, with distinct ids, in ascending order of score. Each comes from the rank with a positive score and is reported with the best score of its id. No ranked song left out scores below a reported one, so these are the five best. When fewer than five are reported, every ranked song is |

## Left out

- File and XML I/O is not modelled, and neither are the program's side channels:
  - opening files and `exit` on failure
  - `fscanf`
  - loading `db.xml` and writing the ranking XML
  - `getopt`
  - the verbose and debug messages

  A transcription is given as a sequence of events, and a catalogue as a sequence of song records with their samples' transcriptions. A sample's file path is not modelled.
- Doubles are modelled as exact reals. Rounding, NaN and infinities are not modelled.
  - A zero-length run would divide by zero in the source. Such runs are removed before sorting (`Selection.Runs`). `Selection.Plausible` shows that they could never pass the length window.
  - Removing them also sidesteps the source's comparison of NaN values inside `std::sort`.
- `int` is unbounded; 32-bit overflow of scores and sizes is not modelled.
- Tie order of `std::sort` is not modelled. `Sorting.SortBy` is one fixed sorted permutation.
  - `Selection.SelectionIgnoresTieOrder` shows that the fragment selection does not depend on the tie order.
  - The top-5 cut in `matching.cpp` does depend on it, when entries of different songs tie on score.
  - Both sorts work in place in the source and are modelled on values.
- An empty query with a nonempty reference, or a query of two or more tokens with an empty reference, makes the source index past the end of a vector. That is undefined behaviour, and the model emits no entry for it. The other empty cases emit nothing in the source too, as in the model.
- The source leaves `last_note` uninitialised. The `if (last_duration)` test keeps it unread until a voiced event has set it. The model starts it at 0, a value that is never observed.
- `distance_ij` is modelled with its properties, but neither sweep calls it. The DTW sweep uses raw, uncapped differences, as the code does.
- The overlap test of the selection loop is modelled in `Selection.SelectFragments`. It can never reject a fragment, because at most one fragment is ever accepted. As written, it also would not reject a run that strictly contains an accepted one (`Selection.Overlaps`).
- The `-t` similarity threshold is parsed but never used, so it is not modelled.
- The model follows the code where one might expect otherwise:
  - One might expect an exact occurrence of the query to rank first. For a query of three or more tokens, such an occurrence scores 0. The `if (s)` test then drops it, so the song is not ranked for that sample (`Selection.DpExactOccurrenceNotRanked`, `Selection.DtwExactOccurrenceNotRanked`). For a two-token query the occurrence spans one column, too short for the length window.
  - DTW intervals are not capped at 12.
- Ranking.TopSongs: requires every rank id to lie in 1..50 and to name a catalogue song. The source relies on this only for the entries it reads before the fifth distinct song.
- Ranking.Retrieve: requires every catalogue id to lie in 1..50 and to be at most the catalogue size, and every song to have at least one sample. The source needs the same for the entries it reads (a song without samples makes it dereference a null pointer). Like the source, the model does not check that a song's id is its own position: the report shows the details of the song at position `id - 1`.
- Ranking.RankCatalog: requires every song to have at least one sample, for the same reason.
