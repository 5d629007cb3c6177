# MacMarket Trader: verified models of the deterministic engines

Dafny models of the parts of MacMarket Trader whose results depend on nothing
but their inputs, with proofs of what they promise. `dafny verify dfyconfig.toml`
checks everything.

| file | what it models |
|---|---|
| `TrailingStop.dfy` | the ATR trailing-stop display model of the workflow charts: rolling mean, modified true range, seeded average, the long/short machine, run-length segments |
| `Rsi.dfy` | the relative strength index of the same charts |
| `Heatmap.dfy`, `HeatmapHistory.dfy`, `HeatmapFields.dfy` | chunked refresh of the momentum and HACO heatmaps, and the state that any history of responses leaves |
| `NoteSanitizer.dfy`, `NotePromise.dfy` | the operator-note sanitiser of the trial journal and the outcome review, and what it promises, told in characters |
| `OutcomeReview.dfy` | default outcome rows and their re-hydration from storage |
| `SymbolEntry.dfy`, `DataParityCsv.dfy` | manual symbol entry, and the data-parity CSV export with a reader for section 2 of RFC 4180 |
| `ReportSchedule.dfy`, `IndexSession.dfy` | next report run; expected index timestamp and freshness, in wall-clock time |
| `Notifications.dfy` | the notification service with its attempt log and SMS limits |
| `ModelValidation.dfy` | drawdown and attribution of the validation report |
| `Ranking.dfy`, `RankingQueue.dfy` | the impact review's estimated ranks, and the engine's queue with its three lists |
| `TextKeys.dfy` | the colon-joined keys that the outcome and impact reviews look candidates up by |
| `Calendar.dfy`, `OrderedMap.dfy`, `Sorting.dfy`, `Sequences.dfy`, `Reals.dfy`, `Text.dfy`, `Wrappers.dfy` | shared: instants, insertion-ordered maps, stable sorting, sequences, reals, ASCII text, options |

Loops of the source are methods with loops, proved equal to a specification
function; the laws are lemmas about those functions. The notification service
and the ranked candidates, which the source updates in place, are classes.
JavaScript's `Map` and `Set` are sequences of entries in insertion order.

Where the code does not meet what one would expect of it, the model follows the
code and states exactly when the expectation holds:

- A chunked refresh of a category not yet on screen differs from a whole one when a row id repeats across more than one chunk (`HeatmapHistory.ChunkedRefreshIff`; for instance `HeatmapHistory.RepeatedIdDiffers`).
- A row keeps the squeeze of its first answer until a good one arrives, so it need not show the latest (`HeatmapFields.SqueezeIsLatestIff`; for instance `HeatmapFields.DeferredStays`).
- A text of separators only formats as a dash, which reads back as a symbol (`SymbolEntry.FormatRoundTrip`).
- A null in front of a candidate shifts its look-up position (`Ranking.OwnPlaceIff`; for instance `Ranking.NullBreaksRanks`).
- Outcome keys are joined with colons, so two names can share one and the second loses its row (`TextKeys.KeysCollideIff`, `OutcomeReview.NothingLostIff`; for instance `OutcomeReview.KeysCanCollide`).
- Rounding to three decimals lengthens every freshness tolerance by 30 milliseconds; whether a span of exactly that length passes is left to how the binary quotient rounds: at 80 minutes, the tolerance of the default setting, it rounds up and is refused, at 20 and 30 minutes it passes (`IndexSession.MinutesAtMost`, `IndexSession.AcceptedIff`; for instance `IndexSession.ToleranceEdge`).
- The cap on a zero average fall breaks the mirror symmetry of the index (`Rsi.RsiMirror`; for instance `Rsi.RisingBreaksMirror`).

## Model

| member | source | states |
|---|---|---|
| `TrailingStop.WindowSlides` | apps/web/lib/chart-indicators.ts:212-221 | adding the arriving value and dropping the one `period` places back turns the sum of one window into the sum of the next, also while the window is still filling |
| `TrailingStop.RollingSimple` | apps/web/lib/chart-indicators.ts:212-221 | the running-sum loop yields the exact mean of the last `period` values (or of all there are) at every index |
| `TrailingStop.RollingIsSma` | apps/web/lib/chart-indicators.ts:114-120 | the rolling mean agrees with the sliced moving average wherever that one is defined, and it is undefined exactly before the first full window |
| `TrailingStop.WindowMeanBetween` | apps/web/lib/chart-indicators.ts:212-221 | the rolling mean lies between the least and the greatest value of its window |
| `TrailingStop.ModifiedRangeBounds` | apps/web/lib/chart-indicators.ts:223-237 | the gap discount and the wide-bar cap never add to the classic true range and never take away more than half of it; without a gap and within the cap the two are equal |
| `TrailingStop.GapDiscount` | apps/web/lib/chart-indicators.ts:233-235 | on a gap exactly half of it is taken off the classic true range |
| `TrailingStop.CapIff` | apps/web/lib/chart-indicators.ts:232-236 | without a gap the cap of one and a half average bars cuts exactly a wider bar with the previous close strictly inside, down to the greatest of the cap and the two moves from that close |
| `TrailingStop.AverageSpread` | apps/web/lib/chart-indicators.ts:224-225 | with every bar of the window between two widths the average bar is between them |
| `TrailingStop.FirstRange` | apps/web/lib/chart-indicators.ts:228-228 | the first true range is the spread of the first bar |
| `TrailingStop.CalculateModifiedTrueRange` | apps/web/lib/chart-indicators.ts:223-237 | the true ranges, computed with the rolling mean, are the declared ones: first bar clamped at zero, later bars against the bar before |
| `TrailingStop.SeededEma` | apps/web/lib/chart-indicators.ts:202-210 | the loop yields the recursive average seeded with the first value |
| `TrailingStop.EmaStep` | apps/web/lib/chart-indicators.ts:202-210 | each value moves the average by two parts in period + 1 of its distance |
| `TrailingStop.EmaDecay` | apps/web/lib/chart-indicators.ts:202-210 | after k equal values the distance of the average to them has shrunk to the k-th power of (period - 1) / (period + 1) |
| `TrailingStop.EmaAtLeast` | apps/web/lib/chart-indicators.ts:202-210 | the average never falls below a bound that all values so far respect |
| `TrailingStop.EmaAtMost` | apps/web/lib/chart-indicators.ts:202-210 | the average never exceeds a bound that all values so far respect |
| `TrailingStop.TrueRangeNonNegative` | apps/web/lib/chart-indicators.ts:223-237 | with low at most high on every bar no true range is negative |
| `TrailingStop.LossNonNegative` | apps/web/lib/chart-indicators.ts:282-283 | hence no stop distance is negative, through rolling mean, true range and average |
| `TrailingStop.MarksStep` | apps/web/lib/chart-indicators.ts:289-324 | each state and stop is one machine step from the one before, the first bar taking the configured trade |
| `TrailingStop.BoundIsExtreme` | apps/web/lib/chart-indicators.ts:289-324 | the bound of a run is attained in the run and bounds every close minus loss (long) or close plus loss (short) of it |
| `TrailingStop.MarksTrail` | apps/web/lib/chart-indicators.ts:289-324 | at every bar the ratcheted stop is the extreme of its run so far, and the state flips exactly when the close reaches that extreme |
| `TrailingStop.TrailingStopIffMarks` | apps/web/lib/chart-indicators.ts:289-324 | the declarative trailing stop (extreme of the run, flip exactly on reaching it) has one solution, and it is what the incremental machine computes |
| `TrailingStop.StopGuards` | apps/web/lib/chart-indicators.ts:289-324 | on ordered bars a long stop is never above the close and never falls within a run, and dually for short |
| `TrailingStop.NoLookahead` | apps/web/lib/chart-indicators.ts:202-325 | the model of the first k candles is the first k points of the model of all, through all four stages |
| `TrailingStop.MirrorSymmetry` | apps/web/lib/chart-indicators.ts:202-325 | negating all prices and swapping the first trade keeps every loss, swaps every state and negates every stop |
| `TrailingStop.SegmentAtrTrailingStop` | apps/web/lib/chart-indicators.ts:243-264 | the segments, put end to end, are exactly the points with their states; none is empty and neighbours differ in state |
| `TrailingStop.SegmentsUnique` | apps/web/lib/chart-indicators.ts:243-264 | there is one such segmentation of any list of points |
| `TrailingStop.SegmentsMirror` | apps/web/lib/chart-indicators.ts:202-325 | the segments of the negated prices are the segments with states swapped and values negated, cut at the same bars |
| `TrailingStop.SegmentsNoLookahead` | apps/web/lib/chart-indicators.ts:202-325 | the segments of the first k candles are a beginning of the segments of all: whole ones, then perhaps part of the next |
| `TrailingStop.RunStop` | apps/web/lib/chart-indicators.ts:285-323 | the stop loop, which remembers only the previous state and trail, emits time, stop, close and state of every bar |
| `TrailingStop.BuildDisplayModel` | apps/web/lib/chart-indicators.ts:268-325 | the whole pipeline returns the machine points for period 9, factor 2.9 and a long start, with their segmentation; nothing for no candles |
| `TrailingStop.ExampleStops` | apps/web/lib/chart-indicators.ts:268-325 | two bars worked out: true ranges 2 and 10.5, losses 5.8 and 10.73, long stops 4.2 and 5.27 |
| `Rsi.CalculateRsi` | apps/web/lib/chart-indicators.ts:327-357 | the loop with its in-place sums and averages gives the index of the smoothed gains and falls at every bar, null before the period |
| `Rsi.GainLessFall` | apps/web/lib/chart-indicators.ts:331-335 | a change of the close is its gain less its fall, one of which is zero |
| `Rsi.FirstAverage` | apps/web/lib/chart-indicators.ts:340-346 | at the period the average is the mean of the values of the bars after the first |
| `Rsi.WilderStep` | apps/web/lib/chart-indicators.ts:352-353 | from there on each value moves the average by one part in period of its distance |
| `Rsi.IndexIsShare` | apps/web/lib/chart-indicators.ts:354-355 | the index is the share of the average gain in both averages in per cent, and 100 - 100/101 without falls |
| `Rsi.RsiInRange` | apps/web/lib/chart-indicators.ts:327-357 | there is a value exactly from the period on, and it lies in [0, 100) |
| `Rsi.IndexInRange` | apps/web/lib/chart-indicators.ts:343-344 | the index is zero exactly when there were falls and no gains |
| `Rsi.RunningPositive` | apps/web/lib/chart-indicators.ts:337-355 | a smoothed average is positive exactly when some value so far was: smoothing never forgets completely |
| `Rsi.RsiMirror` | apps/web/lib/chart-indicators.ts:327-357 | the index of the negated closes is 100 minus the index exactly when the close has both risen and fallen so far; the cap on a zero average fall breaks it otherwise |
| `Rsi.RisingBreaksMirror` | apps/web/lib/chart-indicators.ts:327-357 | closes 1, 2, 3 with period 2: a close that only rises, where the index and its mirror do not add up to 100 |
| `NoteSanitizer.ReplaceAllAbsent` | apps/web/lib/momentum-trial-journal.ts:299-304 | a replace-all without an occurrence is the identity |
| `NoteSanitizer.ReplaceAllFirst` | apps/web/lib/momentum-trial-journal.ts:299-304 | text before the first occurrence is copied, the occurrence replaced, and the scan goes on behind it: leftmost and non-overlapping |
| `NoteSanitizer.ReplaceCreatesNothing` | apps/web/lib/momentum-trial-journal.ts:299-304 | no phrase occurs after a replacement that did not occur before: the mark neither holds one nor completes one across its edges; the replaced phrase itself is gone |
| `NoteSanitizer.RedactAllCreatesNothing` | apps/web/lib/momentum-trial-journal.ts:298-304 | after all replacements no listed phrase is left and no other phrase is new |
| `NoteSanitizer.RedactPhrases` | apps/web/lib/momentum-trial-journal.ts:297-304 | testing a copy that was lower-cased once before the loop gives the same text as replacing unconditionally |
| `NoteSanitizer.NormaliseKeepsInk` | apps/web/lib/momentum-trial-journal.ts:290-295 | white-space normalisation keeps every other character, in order, and leaves no white space at the ends |
| `NoteSanitizer.NormaliseIsTidy` | apps/web/lib/momentum-trial-journal.ts:290-295 | after normalisation there is no carriage return, no tab, no double space and no triple line feed |
| `NoteSanitizer.NormaliseFixed` | apps/web/lib/momentum-trial-journal.ts:290-295 | a tidy text is left alone |
| `NoteSanitizer.TruncateKeepsEnds` | apps/web/lib/momentum-trial-journal.ts:305-307 | truncation respects 1200 characters and leaves no white space at the ends |
| `NoteSanitizer.TruncateCreatesNothing` | apps/web/lib/momentum-trial-journal.ts:305-307 | cutting, trimming and adding the ellipsis creates no occurrence of a phrase |
| `NoteSanitizer.SanitizeMomentumNote` | apps/web/lib/momentum-trial-journal.ts:288-309 | the function as written computes the unguarded composition of normalisation, redaction and truncation; null gives the empty note |
| `NoteSanitizer.SanitizedIsClean` | apps/web/lib/momentum-trial-journal.ts:283-309 | every sanitised note is empty or clean: no forbidden phrase in any letter case, at most 1200 characters, tidy white space; it is empty only for white space |
| `NoteSanitizer.FixedPoints` | apps/web/lib/momentum-trial-journal.ts:288-309 | the notes the sanitiser leaves unchanged are exactly the empty one and the clean ones |
| `NoteSanitizer.Idempotent` | apps/web/lib/momentum-trial-outcomes.ts:181-202 | sanitising twice is sanitising once |
| `NoteSanitizer.InnocentNote` | apps/web/lib/momentum-trial-journal.ts:288-309 | a note without a listed phrase loses white space and an over-long tail only |
| `NotePromise.CrToLfPieces` | apps/web/lib/momentum-trial-journal.ts:292-292 | line ends are rewritten piece by piece, wherever a cut does not split a pair |
| `NotePromise.CrToLfPair` | apps/web/lib/momentum-trial-journal.ts:292-292 | a pair and a lone carriage return each become one line feed |
| `NotePromise.CollapseBlanksPieces` | apps/web/lib/momentum-trial-journal.ts:293-293 | spaces and tabs are rewritten piece by piece, wherever a cut does not split a run |
| `NotePromise.CollapseBlanksRun` | apps/web/lib/momentum-trial-journal.ts:293-293 | a whole run of spaces and tabs becomes one space |
| `NotePromise.CollapseLinesPieces` | apps/web/lib/momentum-trial-journal.ts:294-294 | line feeds are rewritten piece by piece, wherever a cut does not split a run |
| `NotePromise.CollapseLinesRun` | apps/web/lib/momentum-trial-journal.ts:294-294 | of a run of line feeds two at most are left |
| `NotePromise.TrimSplits` | apps/web/lib/momentum-trial-journal.ts:295-295 | trimming takes exactly the white space off both ends |
| `NotePromise.TruncatedMeaning` | apps/web/lib/momentum-trial-journal.ts:305-307 | a text over 1200 characters keeps its first 1199 less white space at their end, and an ellipsis; a shorter one stays |
| `NotePromise.ForbiddenIsListed` | apps/web/lib/momentum-trial-journal.ts:264-281 | the table holds exactly the nine phrases, spelled out |
| `NotePromise.FoundIff` | apps/web/lib/momentum-trial-journal.ts:298-302 | a phrase is found exactly when the text holds it in some letter case, letter by letter |
| `NotePromise.NoPhraseInAnyCase` | apps/web/lib/momentum-trial-journal.ts:283-309 | no spelling of any of the nine phrases in upper and lower case letters is a substring of a sanitised note |
| `NotePromise.SanitizedShape` | apps/web/lib/momentum-trial-outcomes.ts:181-202 | at most 1200 characters, no white space at the ends, no carriage return, tab, double space or triple line feed; empty exactly for white space |
| `NotePromise.LonePhrase` | apps/web/lib/momentum-trial-journal.ts:296-304 | BUY NOW, and every other spelling of that phrase, becomes [redacted] |
| `Heatmap.ChunkCategory` | apps/web/lib/momentum-heatmap-api.ts:232-246 | the index loop yields the declared chunks; a category without rows gives one empty chunk |
| `Heatmap.ChunksCover` | apps/web/lib/momentum-heatmap-api.ts:232-246 | the chunks keep id and label, concatenate to the rows, and every chunk but the last holds exactly max(1, floor(size)) rows, the last at most that |
| `Heatmap.MergeScores` | apps/web/lib/momentum-heatmap-api.ts:267-277 | the loop over the five timeframes merges every cell as declared: a failed refresh keeps a good value, marks it stale and names the failure |
| `Heatmap.MergeRowsInto` | apps/web/lib/momentum-heatmap-api.ts:260-288 | the row loop over an insertion-ordered map is the fold of single-row merges |
| `Heatmap.MergeResponse` | apps/web/lib/haco-heatmap-api.ts:291-342 | the category loop is the fold of category merges; the merged response has the timestamp and timeframes of the newer one, and is the newer one when there is none before |
| `HeatmapHistory.MergeRowsKeys` | apps/web/lib/momentum-heatmap-api.ts:260-288 | after a row merge the ids are those of both lists in first-seen order, each once |
| `OrderedMap.CollectLastWins` | apps/web/lib/momentum-heatmap-api.ts:253-260 | of entries with one key in a list made into a map the last one counts |
| `HeatmapHistory.ChunkedRefreshIff` | apps/web/lib/momentum-heatmap-api.ts:232-300 | refreshing a category chunk by chunk shows the same categories, rows and order as refreshing it at once exactly when one chunk suffices, or no row id repeats, or the category was already shown; any previous state, null included |
| `HeatmapHistory.RepeatedIdDiffers` | apps/web/lib/momentum-heatmap-api.ts:232-300 | one id listed twice in a new category, chunks of one row: the chunked refresh shows something else than the whole one |
| `HeatmapHistory.MergeWellFormed` | apps/web/lib/momentum-heatmap-api.ts:248-300 | merging responses without repeated ids gives a state without repeated ids |
| `HeatmapHistory.MergeRowIn` | apps/web/lib/momentum-heatmap-api.ts:248-300 | a response changes exactly the rows it names, each by one row merge |
| `HeatmapHistory.StateRowFolds` | apps/web/lib/momentum-heatmap-api.ts:248-300 | after any history a row of the state is the fold of the answers for that row alone |
| `HeatmapHistory.CellHistory` | apps/web/lib/momentum-heatmap-api.ts:253-299 | after any history a cell shows the last good answer, verbatim if that was the last to name the row, else marked stale with the reason of the last failure; without a good answer, the last answer |
| `HeatmapHistory.OnceOkStaysOk` | apps/web/lib/haco-heatmap-api.ts:296-341 | once a cell was ok it stays ok with the value of the latest ok refresh, and is stale exactly since a later answer for the row failed |
| `HeatmapHistory.CategoriesKeepOrder` | apps/web/lib/momentum-heatmap-api.ts:253-299 | no category is lost and all keep first-arrival order |
| `HeatmapHistory.RowsKeepOrder` | apps/web/lib/haco-heatmap-api.ts:296-341 | no row is lost from its category and all keep first-arrival order |
| `HeatmapHistory.HeaderIsLast` | apps/web/lib/momentum-heatmap-api.ts:294-299 | after any history the state carries the timestamp and timeframes of the last response |
| `HeatmapHistory.LabelIsLast` | apps/web/lib/haco-heatmap-api.ts:331-335 | a category is shown once listed, under the label of its last listing |
| `HeatmapHistory.ReasonAfterFailure` | apps/web/lib/momentum-heatmap-api.ts:270-276 | a value kept past a failure gives as reason the prefix of the page and the reason of the last answer, else its status, else unknown |
| `HeatmapFields.FieldHistory` | apps/web/lib/momentum-heatmap-api.ts:279-287 | a field merged with the nullish operator holds, after any history, the last value any answer gave it |
| `HeatmapFields.FieldAfterHistory` | apps/web/lib/momentum-heatmap-api.ts:253-299 | the same of any such field of any row in the state after any history of whole responses |
| `HeatmapFields.MomentumScoresKeepLast` | apps/web/lib/momentum-heatmap-api.ts:282-284 | after any history each of the three momentum scores of a row is the last value any response gave it |
| `HeatmapFields.HacoFieldsKeepLast` | apps/web/lib/haco-heatmap-api.ts:325-328 | after any history so is each of the four HACO fields of a row |
| `HeatmapFields.SqueezeHistory` | apps/web/lib/momentum-heatmap-api.ts:285-285 | the squeeze is the latest good one, and before any good one that of the very first answer, whatever later answers say |
| `HeatmapFields.SqueezeIsLatestIff` | apps/web/lib/momentum-heatmap-api.ts:285-285 | the row shows the latest good squeeze, else the latest one, exactly when there was a good one or the first answer had the same squeeze as the last |
| `HeatmapFields.DeferredStays` | apps/web/lib/momentum-heatmap-api.ts:285-285 | deferred, then unavailable: the row still shows deferred |
| `HeatmapFields.SqueezeAfterHistory` | apps/web/lib/momentum-heatmap-api.ts:253-299 | the closed form of the squeeze for any row in the state after any history of responses |
| `HeatmapFields.RowFlaggedStale` | apps/web/lib/momentum-heatmap-api.ts:286-286 | a row answered more than once is flagged exactly when some timeframe had its last good value before the last answer |
| `HeatmapFields.FlagAfterHistory` | apps/web/lib/momentum-heatmap-api.ts:253-299 | the same of any row in the state after any history of responses |
| `HeatmapFields.SoleAnswer` | apps/web/lib/momentum-heatmap-api.ts:262-266 | a row answered once is shown as it was answered |
| `HeatmapFields.MomentumNamesAreLast` | apps/web/lib/momentum-heatmap-api.ts:279-281 | after any history the names of a momentum row are those of its last answer |
| `HeatmapFields.HacoNamesAreLast` | apps/web/lib/haco-heatmap-api.ts:322-324 | after any history the names of a HACO row are those of its last answer |
| `HeatmapFields.Prefixes` | apps/web/lib/haco-heatmap-api.ts:314-318 | the prefixes of the stale reasons of the two pages |
| `SymbolEntry.ParseManualSymbolEntry` | apps/web/lib/symbol-entry.ts:25-50 | the loop with two sets yields the first-seen symbols, those entered twice or more, and how many were entered beyond the first time |
| `SymbolEntry.MergeManualSymbols` | apps/web/lib/symbol-entry.ts:63-88 | the merge loop yields the existing symbols followed by the added ones, which are exactly the incoming ones not there yet, and the duplicates of both kinds, incoming ones first |
| `SymbolEntry.RawAreSymbols` | apps/web/lib/symbol-entry.ts:25-29 | every parsed symbol is non-empty, upper case and free of separators |
| `SymbolEntry.RawAcross` | apps/web/lib/symbol-entry.ts:25-29 | the symbols of two texts with a separator between them are those of the first followed by those of the second |
| `SymbolEntry.PlainText` | apps/web/lib/symbol-entry.ts:25-29 | a text without commas and white space is one symbol: itself with its small letters raised |
| `SymbolEntry.SeparatorCuts` | apps/web/lib/symbol-entry.ts:26-27 | a comma and each of the six white-space characters cuts a text in two |
| `SymbolEntry.RepeatedMeaning` | apps/web/lib/symbol-entry.ts:31-43 | the duplicates are exactly the symbols entered at least twice, each once |
| `SymbolEntry.RepeatedInOrder` | apps/web/lib/symbol-entry.ts:31-43 | duplicates stand in the order of their second occurrence |
| `SymbolEntry.RawEmptyIff` | apps/web/lib/symbol-entry.ts:25-29 | no symbol is parsed exactly from a text of separators only |
| `SymbolEntry.FormatRoundTrip` | apps/web/lib/symbol-entry.ts:25-54 | parsing the formatted list gives the list back, without duplicates, exactly when the text was not separators only; otherwise a dash is printed, which reads as a symbol |
| `SymbolEntry.Printed` | apps/web/lib/symbol-entry.ts:52-54 | symbols are printed one after the other, a comma and a space between them |
| `SymbolEntry.MergeIsParseOfBoth` | apps/web/lib/symbol-entry.ts:63-88 | merging a parsed text into existing symbols gives the same list as parsing both texts as one, and the duplicate counts agree |
| `SymbolEntry.MergedDuplicates` | apps/web/lib/symbol-entry.ts:63-88 | the merged duplicates are, each once, what the second text repeats and what it shares with the symbols on screen |
| `SymbolEntry.OverlapInOrder` | apps/web/lib/symbol-entry.ts:71-79 | what the merge adds, and what it finds on screen, stand in the order of the second text |
| `SymbolEntry.DuplicatesOfBoth` | apps/web/lib/symbol-entry.ts:63-88 | with the duplicates on screen they are exactly the duplicates of both texts parsed as one |
| `SymbolEntry.TwoTexts` | apps/web/lib/symbol-entry.ts:25-88 | merging the parse of one text into the symbols of another gives the symbols of both parsed as one, the duplicate counts add up, and every symbol typed in either is listed or counted as a duplicate |
| `SymbolEntry.TwoTextsDuplicates` | apps/web/lib/symbol-entry.ts:25-88 | the duplicates of both texts parsed as one are those of the first parse and those the merge reports |
| `DataParityCsv.QuotedReadsBack` | apps/web/lib/data-parity-api.ts:186-190 | the escaped inside of a cell is read back to the last character, quotes, commas and line breaks included |
| `DataParityCsv.RowReadsBack` | apps/web/lib/data-parity-api.ts:286-290 | a printed row is read back cell by cell, with its exact number of columns |
| `DataParityCsv.RowExample` | apps/web/lib/data-parity-api.ts:186-190 | quotes are doubled inside quotes and a null is bare, in an example |
| `DataParityCsv.LinesExample` | apps/web/lib/data-parity-api.ts:286-290 | rows are parted by one line feed |
| `DataParityCsv.RoundTripIff` | apps/web/lib/data-parity-api.ts:186-290 | a reader for section 2 of RFC 4180 recovers every cell, null apart from empty, and the exact rows exactly when the table does not end in a row that is one null |
| `DataParityCsv.PrintingLosesNothing` | apps/web/lib/data-parity-api.ts:186-290 | two tables print alike exactly when they are equal, or one has no row and the other is a single null |
| `DataParityCsv.ExportRoundTrip` | apps/web/lib/data-parity-api.ts:192-290 | the export with its 45 columns always reads back, whatever the header and the cells hold |
| `ReportSchedule.NextRunAt` | src/macmarket_trader/strategy_reports.py:119-136 | the day-stepping loops end and return the least permitted slot strictly after now; an hour or minute out of range is an error |
| `ReportSchedule.NextUnique` | src/macmarket_trader/strategy_reports.py:119-136 | there is one such slot |
| `ReportSchedule.NextIsPromised` | src/macmarket_trader/strategy_reports.py:119-136 | the run is at the hour and minute asked for, within 1, 3 or 7 days, never on a weekend for weekdays and always on Monday for weekly |
| `Calendar.KnownMonday` | src/macmarket_trader/strategy_reports.py:126-131 | weekdays are counted from Monday as Python counts them, fixed by 1 January 2024 |
| `ReportSchedule.RunsIncrease` | src/macmarket_trader/strategy_reports.py:119-136 | iterated runs are slots and strictly increase |
| `ReportSchedule.EverySlotOnce` | src/macmarket_trader/strategy_reports.py:119-136 | iterating from any instant runs exactly the permitted slots after it, each once, skipping none |
| `IndexSession.PreviousWeekday` | src/macmarket_trader/index_risk.py:352-356 | the loop stops at the latest weekday not after the given day |
| `IndexSession.SessionHours` | src/macmarket_trader/index_risk.py:338-349 | the sessions by the clock: 4:00, 9:30, 16:00 and 20:00 on weekdays |
| `IndexSession.ExpectedMeaning` | src/macmarket_trader/index_risk.py:364-372 | the expected timestamp is now in the regular session and otherwise the greatest weekday 16:00 not after now |
| `IndexSession.ExpectedNotAfterNow` | src/macmarket_trader/index_risk.py:364-372 | it is never in the future |
| `IndexSession.ExpectedMonotone` | src/macmarket_trader/index_risk.py:364-372 | it never goes back as time passes |
| `IndexSession.MinutesAtMost` | src/macmarket_trader/index_risk.py:277-280 | comparing minutes rounded to three decimals lengthens a tolerance by 30 milliseconds; a span of exactly that length passes unless the tie rounds up |
| `IndexSession.ToleranceEdge` | src/macmarket_trader/index_risk.py:277-280 | however ties fall, a span 29.999 milliseconds over a tolerance passes and one 30.001 over does not |
| `IndexSession.AcceptedIff` | src/macmarket_trader/index_risk.py:269-315 | the freshness decision as a comparison of instants, in and out of the regular session, for any way the ties fall |
| `IndexSession.AcceptanceMonotone` | src/macmarket_trader/index_risk.py:269-315 | a later timestamp is never refused where an earlier one is accepted, however ties fall |
| `IndexSession.AcceptanceStands` | src/macmarket_trader/index_risk.py:269-315 | between two regular sessions the expectation and every decision stay the same |
| `Notifications.NotificationService.CountRecent` | src/macmarket_trader/storage/repositories.py:3880-3911 | the log queries count the matching attempts |
| `Notifications.NotificationService.SmsAllowed` | src/macmarket_trader/notifications.py:127-141 | the daily limit is checked before the run limit, a negative limit counts as zero, an empty run id is not limited |
| `Notifications.NotificationService.SendSms` | src/macmarket_trader/notifications.py:293-378 | the order of the checks, the status and reason of each outcome, and one record appended for it; sent exactly when service, phone, consent, both limits and the provider allow it |
| `Notifications.NotificationService.SendEmail` | src/macmarket_trader/notifications.py:235-291 | status and reason of each outcome, and one record appended for it; sent exactly when the address has an at-sign and the provider accepts |
| `Notifications.NotificationService.SendEvent` | src/macmarket_trader/notifications.py:143-194 | email before SMS, each exactly when preference and switch ask for it; the log grows by exactly the returned attempts |
| `Notifications.SmsIsGuarded` | src/macmarket_trader/notifications.py:293-378 | when an SMS is sent the user had fewer SMS attempts of any status than the daily limit in the preceding day, and fewer than the run limit in its run |
| `Notifications.SmsSentIff` | src/macmarket_trader/notifications.py:293-378 | an SMS goes out exactly when the service is ready, phone and consent are there, the provider accepts, and both counts are below their limits |
| `Notifications.SmsReasons` | src/macmarket_trader/notifications.py:307-378 | status and reason for each obstacle, in the order they are checked |
| `Notifications.RunLimitReason` | src/macmarket_trader/notifications.py:136-140 | the reason when only the run limit is reached |
| `Notifications.EmailReasons` | src/macmarket_trader/notifications.py:246-291 | status and reason of an email, by address and provider |
| `Notifications.RunSendsIff` | src/macmarket_trader/notifications.py:143-378 | in every run an event sends an SMS exactly when preference and switch ask for one and the log so far lets it |
| `Notifications.InRunIsMine` | src/macmarket_trader/storage/repositories.py:3898-3911 | the run query counts the SMS attempts of the user in that run |
| `Notifications.EventKeepsGuarded` | src/macmarket_trader/notifications.py:143-194 | one event keeps that true of every SMS in the log |
| `Notifications.RunIsGuarded` | src/macmarket_trader/notifications.py:143-194 | so does every run of events, whatever the clock does between them |
| `Notifications.RunExists` | src/macmarket_trader/notifications.py:143-194 | any events make a run: a log before the first event and after each |
| `Notifications.SentMeans` | src/macmarket_trader/notifications.py:143-378 | in every run whatever was sent was asked for by preference and switch and accepted by its provider; an email had an address with an at-sign, an SMS a ready service, a phone number and consent |
| `Notifications.LockedOutIff` | src/macmarket_trader/notifications.py:127-141 | with a clock that never goes back, an SMS that could go out is refused by the daily rule exactly when the attempt of the user as many places back as the limit - sent, failed or refused - lies within the last day |
| `Notifications.OftenIsNever` | src/macmarket_trader/notifications.py:127-141 | so a user for whom that many attempts always fall within a day gets no SMS after the first of them |
| `Notifications.WindowWithinLimit` | src/macmarket_trader/notifications.py:127-141 | in such a log any closed 24-hour window holds at most the daily limit of sent SMS of a user |
| `Notifications.RunWithinLimit` | src/macmarket_trader/notifications.py:127-141 | and any run id at most the run limit |
| `Notifications.LimitsHold` | src/macmarket_trader/notifications.py:127-378 | in every run of events both limits hold for every user, window and run id |
| `Notifications.SentWithinDay` | src/macmarket_trader/notifications.py:127-378 | whichever places of the log are looked at, sent SMS of one user within 24 hours are no more than the daily limit |
| `Notifications.SentWithinRun` | src/macmarket_trader/notifications.py:127-378 | sent SMS of one user in one run are no more than the run limit |
| `ModelValidation.DrawdownIsDeepest` | scripts/run_model_validation.py:229-239 | the running value is the deepest fall: attained between two points of the equity curve, exceeded by none |
| `ModelValidation.MaxDrawdown` | scripts/run_model_validation.py:229-239 | the one-pass loop returns the maximum over i <= j of prefix sum i minus prefix sum j, the empty prefix included; null for no values |
| `ModelValidation.ZeroDrawdownIff` | scripts/run_model_validation.py:229-239 | a drawdown is never negative, and zero exactly when no value is a loss |
| `ModelValidation.BumpAll` | scripts/run_model_validation.py:304-306 | one pass over the seven dimensions increases one group in each |
| `ModelValidation.BuildAttribution` | scripts/run_model_validation.py:285-329 | the two loops tally all recommendations, then the closed trades under their recommendation's labels or as unlinked |
| `ModelValidation.AttributionConserves` | scripts/run_model_validation.py:242-329 | in each dimension the group sums of recommendations, closed trades, wins and net profit equal the number of recommendations and the totals of the trade summary |
| `ModelValidation.TallyPointwise` | scripts/run_model_validation.py:285-329 | a group exists exactly for the labels that occur, and holds exactly what carries its label |
| `ModelValidation.LabelsByField` | scripts/run_model_validation.py:289-297 | each of the seven dimensions reads its own field and no other |
| `ModelValidation.TradeLabels` | scripts/run_model_validation.py:311-316 | a trade is labelled as its recommendation or as unlinked |
| `ModelValidation.PnlPrecedence` | scripts/run_model_validation.py:209-214 | net before realized before gross profit, else zero |
| `ModelValidation.SummaryOfOneMore` | scripts/run_model_validation.py:242-256 | one more trade: an open one is only counted, a closed one adds its profit, and a win when that is positive |
| `ModelValidation.GroupsOfOneMore` | scripts/run_model_validation.py:308-324 | one more trade: an open one changes no group, a closed one only the group of its label |
| `ModelValidation.GroupsOfOneRecommendation` | scripts/run_model_validation.py:301-306 | one more recommendation adds one to the group of its label alone |
| `Ranking.SortIsSorted` | apps/web/lib/momentum-impact.ts:183-189 | the sort is a strictly ordered rearrangement of its keys |
| `Ranking.SortUnique` | apps/web/lib/momentum-impact.ts:183-189 | there is only one such arrangement, so any sort with that comparator agrees |
| `Ranking.FillRanks` | apps/web/lib/momentum-impact.ts:190-193 | the map holds, under the joined text of symbol, strategy and position of each entry, its place in the sorted list, and knows no other such key |
| `Ranking.BuildMomentumImpactRows` | apps/web/lib/momentum-impact.ts:163-228 | the three loops give every present candidate its published rank, the rank looked up for it, and the difference |
| `Ranking.RankIsPlace` | apps/web/lib/momentum-impact.ts:163-228 | without null candidates each row holds the place of its own key |
| `Ranking.RanksFollowOrder` | apps/web/lib/momentum-impact.ts:163-228 | without nulls estimated ranks lie in 1..n, differ pairwise, and follow estimated score, then published rank, then position |
| `Ranking.RanksOnto` | apps/web/lib/momentum-impact.ts:163-228 | every rank from 1 to n is given |
| `Ranking.SumRearranged` | apps/web/lib/momentum-impact.ts:163-228 | a sum does not depend on the order of its terms |
| `Ranking.EstimateWithoutShadow` | apps/web/lib/momentum-impact.ts:138-152 | without an applicable shadow contribution the estimate is the clamped score |
| `Ranking.EstimateWithShadow` | apps/web/lib/momentum-impact.ts:153-158 | with one the clamped score moves by a hundredth of the shadow points times the scale, 0.35 when none between 0 and 1 is given, and is clamped again |
| `Ranking.DeltasCancel` | apps/web/lib/momentum-impact.ts:163-228 | when the published ranks are 1..n in any order the rank deltas sum to zero |
| `Ranking.ZeroShadowIsUnmoved` | apps/web/lib/momentum-impact.ts:138-160 | a zero shadow contribution leaves the clamped score |
| `Ranking.UnmovedQueueStays` | apps/web/lib/momentum-impact.ts:163-228 | on a queue as the engine ranks it, without momentum movement, every row keeps its rank and has delta zero |
| `Ranking.NullBreaksRanks` | apps/web/lib/momentum-impact.ts:172-228 | a concrete list with a null in front in which the only candidate does not get its place |
| `Ranking.OwnPlaceIff` | apps/web/lib/momentum-impact.ts:172-228 | a candidate gets its own place exactly when no null stands before it, or its look-up finds nobody and its published rank happens to be that place |
| `RankingQueue.OrderIsStable` | src/macmarket_trader/ranking_engine.py:343-343 | the sort lists every position once, by falling score, equal scores in their old order |
| `RankingQueue.StableOrderUnique` | src/macmarket_trader/ranking_engine.py:343-343 | there is only one such order |
| `RankingQueue.RankCandidates` | src/macmarket_trader/ranking_engine.py:343-360 | the objects are numbered from 1 in sorted order, and the response lists the queue, its three parts, the first cut as Python slices it, and their counts |
| `RankingQueue.QueueIsRanked` | src/macmarket_trader/ranking_engine.py:343-345 | ranks count from 1 and scores never rise along the queue |
| `RankingQueue.BucketMeaning` | src/macmarket_trader/ranking_engine.py:347-349 | each part holds exactly the candidates of its status, best first |
| `RankingQueue.BucketsShareOut` | src/macmarket_trader/ranking_engine.py:347-349 | the three parts together are the queue |
| `RankingQueue.CutKeepsBest` | src/macmarket_trader/ranking_engine.py:347-347 | every top candidate shown ranks before and scores no less than every one cut off |
| `RankingQueue.CutMeaning` | src/macmarket_trader/ranking_engine.py:347-347 | the length of a Python slice for every bound, negative and too large ones included |
| `RankingQueue.EngineQueueStays` | apps/web/lib/momentum-impact.ts:163-228 | reviewing a queue the engine produced, with all shadow contributions zero, gives every candidate its rank back and delta zero |
| `OutcomeReview.MergeBuckets` | apps/web/lib/momentum-trial-outcomes.ts:258-274 | the nested loop over the views, with missing views and members skipped, keeps the first candidate of every key |
| `OutcomeReview.CandidateOutcomeDefaults` | apps/web/lib/momentum-trial-outcomes.ts:254-292 | one unclear, empty-noted row for every kept candidate, in sorted order; none without a snapshot |
| `OutcomeReview.DefaultsIff` | apps/web/lib/momentum-trial-outcomes.ts:254-292 | the default rows are the one list that holds exactly the first candidate listed under each key, by rank, then symbol, then first listing |
| `OutcomeReview.DefaultsMeaning` | apps/web/lib/momentum-trial-outcomes.ts:254-292 | the rows have distinct keys and cover exactly the keys of the three views |
| `OutcomeReview.KeyHasRowIff` | apps/web/lib/momentum-trial-outcomes.ts:260-274 | a key has a row exactly when one of the three views of the snapshot lists it |
| `OutcomeReview.RowIsFirstListed` | apps/web/lib/momentum-trial-outcomes.ts:260-274 | the row of a key is the candidate first listed under it, in the order top, trade warning, operational caveat |
| `OutcomeReview.RowsByRank` | apps/web/lib/momentum-trial-outcomes.ts:237-243 | an earlier row has the smaller rank, or the same rank and a symbol at most the other |
| `TextKeys.KeyEqualIff` | apps/web/lib/momentum-trial-outcomes.ts:229-235 | two keys are equal exactly when the ranks are and symbol, colons and strategy join to the same text |
| `TextKeys.DigitsSpell` | apps/web/lib/momentum-trial-outcomes.ts:229-235 | a number is spelled in decimal, without leading zeros |
| `TextKeys.KeyExample` | apps/web/lib/momentum-trial-outcomes.ts:229-235 | the key of SPY, Trend and 12, and with -3 |
| `OutcomeReview.KeyInjective` | apps/web/lib/momentum-trial-outcomes.ts:229-235 | for symbols without colons keys are equal exactly when symbol, strategy and rank are |
| `TextKeys.KeysCollideIff` | apps/web/lib/momentum-trial-outcomes.ts:229-235 | strategies that make two names share a key exist exactly when the symbols differ and one, with its two colons, starts the other with its own |
| `OutcomeReview.NothingLostIff` | apps/web/lib/momentum-trial-outcomes.ts:254-292 | every listed symbol, strategy and rank gets a row exactly when no two different ones of equal rank join to the same text |
| `OutcomeReview.KeysCanCollide` | apps/web/lib/momentum-trial-outcomes.ts:254-292 | a snapshot that lists A::B with C and A with B::C at rank 1: only the first gets a row |
| `OutcomeReview.IncomingNote` | apps/web/lib/momentum-trial-outcomes.ts:294-332 | a stored row is used exactly when it has a symbol and a strategy; its note comes back empty or clean, and unchanged exactly when it already was |
| `OutcomeReview.FillByKey` | apps/web/lib/momentum-trial-outcomes.ts:428-431 | the map by key keeps the later entry |
| `OutcomeReview.BuildOutcomeReview` | apps/web/lib/momentum-trial-outcomes.ts:417-445 | the review takes tag and note from the last usable stored row of the same key and everything else from the default row |
| `OutcomeReview.ReviewedRow` | apps/web/lib/momentum-trial-outcomes.ts:417-445 | each row is the default row with the tag and sanitised note of the last usable stored row of its key; without one, unclear and no note |
| `OutcomeReview.RefeedIff` | apps/web/lib/momentum-trial-outcomes.ts:417-445 | a review fed back is reproduced unchanged exactly when every row with symbol and strategy has an empty or clean note and every other row was never touched |
| `OutcomeReview.BuiltReviewsAreStable` | apps/web/lib/momentum-trial-outcomes.ts:417-445 | so a review of named candidates, built from anything, reproduces every tag and note when fed back |

## Left out

- Floating point: prices, scores and profits are reals; `toFixed`, `round` of money and the filtering of NaN and infinities are not modelled. A candle with a non-finite price makes the source return an empty model.
- SanitizedIsClean: ASCII case and white space only; a character counts as one unit, so UTF-16 surrogate pairs are not distinguished. The same holds of symbol entry.
- Regular expressions: each pattern of the source is a function of its own, not an engine.
- Time zones, daylight saving and market holidays: instants are wall-clock times; the code has no holidays. Splitting the run-time text into hour and minute is not modelled.
- NextRunAt: takes hour and minute as numbers and the present in the schedule's own zone; splitting the run-time text and converting the zone are not part of this model.
- The notification log: the provider, redacted recipient, payload and sent time of a record are left out. SQL queries are counts over the log, attempts happen one after another (two overlapping requests could both pass the check), and an exception that is not a runtime error, which records nothing, is not modelled. Providers, readiness and clock are inputs; addresses and phone numbers come trimmed; redaction, titles and payloads are left out.
- LimitsHold: asks that an SMS is not recorded before its own limit check was made; nothing is asked of the clock between events.
- ExportRoundTrip: header and cells are given as text or null; looking up the result fields and turning numbers and objects into text is left out, and so are the column names. The reader accepts both line breaks.
- RoundTripIff: the one table that does not read back has a last row of a single null; no caller prints one column.
- Heatmap requests: fetching, and the HACO normalisation of row ids before chunking; a row's timeframes are the five supported ones.
- Sorting: the built-in sorts are modelled by their result, unique for the rank sorts. `localeCompare` is any total preorder.
- BuildMomentumImpactRows: models ranks only; score, reason-code and explanation columns and non-numeric ranks and scores are left out.
- RankCandidates: starts from scored candidates; scoring, momentum contributions and reason texts are left out.
- BuildOutcomeReview: the summary counters, the global conclusion (the same sanitiser) and timestamps are left out.
- CandidateOutcomeDefaults: ranks are integers, so the replacement of a non-finite rank by zero is not modelled.
- IncomingNote: the reason codes and flags of a stored row, which the review never uses, are left out, and so is the replacement of a non-numeric rank by zero.
- BuildAttribution: the alphabetical order of labels and the rounded totals and win rates of the printed groups are left out; recommendation fields arrive as text.
- MaxDrawdown: states the value before the report rounds it to six decimals.
- AcceptedIff: the quotient of seconds by 60 is a binary double; its rounding is exact to the nearest thousandth except on ties, where an arbitrary function decides, for spans whose double still tells microseconds apart. The lemma states the decision; reason labels, the diagnostic fields beside it and the flags built from several points are left out.
- BuildDisplayModel: stops are exact, before the source rounds them to six decimals, and prices are finite.
- Flag partition, tallies and top-N views of the journal, symbol normalisation and chunking of scheduled reports, the plain exponential average, VWAP and Bollinger bands: they would only add easy members.
- Everything that is input and output: fetch helpers, components, email HTML, migrations, scripts, the agent scheduler and the risk engine.
