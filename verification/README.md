# Verification of the bond-panel pipeline

A Dafny model of the parts of this repository whose correctness the rest of the pipeline leans
on, with proofs. `dafny verify dfyconfig.toml` checks everything. Code that works step by step is
modelled step by step (classes, arrays, loops with invariants) and proved against a specification
function; the theorems are then about that function. The modules named `...Meaning`, `TraceFates` and
`PublishLive` state the main results once more without those functions, in the columns, positions and
numbers of the input alone.

| area | files | main result |
|---|---|---|
| TRACE cleaning engine | `TraceRows`, `TraceMatching`, `TraceStages`, `TraceFates`, `TraceEngine`, `TraceTheorems` | over any chunking each record meets the fate its own columns and the rest of the file give it, and every counter counts fates; the two stateful passes stay in lockstep; matching is exact per key |
| Bounce-back filter | `Ordering`, `BounceBack`, `BounceBackMeaning`, `BounceBackTheorems`, `BounceBackExact`, `Segments`, `SegmentsMeaning` | exactly which trades are dropped; lookahead and deletion are bounded, with the exact parameter condition; the streaming segmenter decides every row on its own bond's prices |
| Distressed filters | `Distressed`, `Spikes`, `DistressedMeaning` | each loop flags exactly the days that stand out by the stated distances and ratios; time reversal, locality, and which length gates matter |
| Panel and signals | `Panel`, `History`, `Exits`, `Momentum`, `MomentumMeaning`, `ValueAtRisk`, `BondVolatility`, `TrailingMeaning`, `Gamma`, `GammaTheorems`, `GammaMeaning`, `TotalReturn`, `Vwap`, `VwapMeaning` | array code with shifts, cumulative sums and rolling windows has its calendar meaning |
| Development/holdout seam | `Seam` | adding the holdout layer changes no value at a development key |
| Publication of the holdout run | `Publish`, `PublishLive` | no interleaving of runs and crashes overwrites or loses an artefact; no run is stuck or refused without cause, and of the runs that end exactly one publishes |
| Decision procedures | `Calibration`, `Trees` | the chosen bar is optimal; the tree comparison decides a preorder, and equality but for the order of keys |

Conventions. Numbers are exact reals and every threshold is a parameter. A missing value is an
`Option`; a division result is `Fin`, `NaN` or `Inf`. In the cleaning engine prices and volumes are
only compared, keyed and asked for finiteness, so they are kept as printed text. Row order that a
sort delivers is a precondition. The date parse, the profile screens, the natural logarithm, the
business-day count, the month of a date, accrued interest and coupons are given functions.

Where code and documentation differ, or the code does something a reader may not expect, the model
follows the code:

- The cleaning engine's notes speak of a record cancelled by a later one; the code drops it wherever
  in the file the cancelling record stands (`TraceTheorems.CancellationExact`).
- A trade without a price adds nothing to the notional while its volume still counts, which dilutes
  the daily and monthly price (`Vwap.MonthPriceIsMeanIff`).
- A keyless row before a keyed one would be merged into its segment; the sort order rules it out
  (`Segments.SegmentsAreRunsIff`, `Segments.SortedStreamIsCutByBond`).
- Deletion is bounded by the lookahead on exactly the parameters that pass a check
  (`BounceBackTheorems.DeletionIsBounded`, `BounceBackExact.DeletionBoundedIff`). A cooldown after par
  flags is sufficient at the par anchor and not necessary: it may be absent where the near-par run
  must be a majority of the window and band and tolerance together fit the threshold, as they do at
  the repository's values. Outside the check there are series that are dropped without bound.
- A day without volume, possible at a minimum volume of zero, leaves its whole bond-month without a
  price (`Vwap.MonthPriceIsTradeLevel`).
- A complete cleaning run can fail its closing row-count comparison on a file that an earlier run
  left at the path of a side without rows (`TraceEngine.RunPandas`).
- A bond-month that trades without any price is priced at zero, so the next priced month has an
  infinite return (`Vwap.UnpricedMonthIsZero`, `Vwap.ReturnOutOfUnpricedMonth`).
- Of the minimum-length gates of the distressed filters only the anomaly gate has an effect, on
  series of two days (`Spikes.AnomalyGateIff`).

## Model

| member | source | states |
|---|---|---|
| TraceEngine.Counter.Increment | scripts/preprocess_trace.py:407-407 | one more count of a key, every other count unchanged |
| TraceEngine.Counter.Consume | scripts/preprocess_trace.py:326-329 | a key is taken iff a count of it is left, and exactly that count goes |
| TraceEngine.DropMatched | scripts/preprocess_trace.py:310-333 | consuming the shared counter in file order removes exactly the matched rows and leaves exactly the unmatched counts |
| TraceEngine.ApplyReversalNetout | scripts/preprocess_trace.py:304-333 | the net-out is greedy matching of the finite rows, with its early exits on an empty pool or chunk changing nothing |
| TraceEngine.CollectKeys | scripts/preprocess_trace.py:370-412 | scan 1, chunk by chunk, collects the cancellation keys of the whole file and its multiset of finite, dated reversal keys (none without the prior-date column or for a profile that does not net) |
| TraceEngine.SurvivorsOfChunk | scripts/preprocess_trace.py:427-460 | scan 2's own copy of filters 1a to 3 and the net-out, early exits included, leaves the rows the specification nets and the counts it leaves |
| TraceEngine.CollectSells | scripts/preprocess_trace.py:420-483 | scan 2's sell pool is the multiset of the finite sells of the whole netted file, whatever the chunks |
| TraceEngine.FilterChunk | scripts/preprocess_trace.py:551-594 | filters 1a to 3 of scan 3 and five of its counters; early exits leave the same totals as running every filter |
| TraceEngine.MatchChunk | scripts/preprocess_trace.py:596-638 | the net-out and the dedup of scan 3 on two distinct counters, their drop counts, and what is left of both |
| TraceEngine.ScreenChunk | scripts/preprocess_trace.py:641-672 | the screens and the date parse, with the rows each removes counted |
| TraceEngine.ScanChunk | scripts/preprocess_trace.py:551-716 | one chunk: the pools move as specified; either a row is dated beyond the window, or the chunk's two outputs and all counters are the specified ones |
| TraceEngine.RunPandas | scripts/preprocess_trace.py:486-744 | the engine over any chunking writes, in file order and to the right side, exactly the surviving records of the whole file by their own columns, and every counter is the number of records with its fate; it stops early iff a survivor is dated beyond the window, with prefixes of the same two sequences written; a complete run fails its closing row-count comparison iff a side without rows finds a non-empty older file at its path |
| TraceEngine.CloseRun | scripts/preprocess_trace.py:732-745 | the comparison of the files at the two paths with the counters fails iff one of them is such a left-over |
| TraceMatching.TakenIffEarly | scripts/preprocess_trace.py:310-333 | a row is matched iff it is eligible and fewer eligible rows of its key precede it than the pool holds |
| TraceMatching.MatchedPerKey | scripts/preprocess_trace.py:310-333 | per key, min(eligible, pool) rows are matched and the others stay |
| TraceMatching.PoolLeft | scripts/preprocess_trace.py:326-329 | what is left of a key is the pool less its eligible rows, never below zero |
| TraceMatching.OnlyEligibleTaken | scripts/preprocess_trace.py:612-638 | matching never touches the count of a class of rows that is not eligible |
| TraceMatching.TakeConcat | scripts/preprocess_trace.py:420-460 | matching a file piece by piece while carrying the counter is matching it whole |
| TraceTheorems.CancellationExact | scripts/preprocess_trace.py:367-386 | a record survives filters 1a and 1b iff its status is kept and no record anywhere in the file, earlier or later, cancels it |
| TraceTheorems.SellPoolIsWhatScan3Sees | scripts/preprocess_trace.py:414-477 | lockstep: the count scan 2 holds for a key is the number of finite sells of that key scan 3 will see after its own net-out |
| TraceTheorems.NetoutExact | scripts/preprocess_trace.py:310-333 | in both passes a surviving row is netted iff it is finite and fewer such rows of its key precede it than the file has reversals of that key |
| TraceTheorems.NetoutPerKey | scripts/preprocess_trace.py:599-603 | per key the net-out leaves the survivors less the reversals |
| TraceTheorems.DedupExact | scripts/preprocess_trace.py:605-638 | the dedup drops exactly the first min(buys, sells) buys of a key, sells counted over the whole file and not over the part already read |
| TraceTheorems.DedupPerKey | scripts/preprocess_trace.py:605-638 | no finite sell is lost, max(buys, sells) trades of each key survive, and a key with a non-finite price or volume loses nothing |
| TraceTheorems.DedupDropsBuysOnly | scripts/preprocess_trace.py:612-638 | every row the dedup removes is a buy |
| TraceTheorems.LedgerBalances | scripts/preprocess_trace.py:522-731 | raw records equal the sum of all drop counters and the two outputs, no derived drop figure is negative, and the two CUSIP audit counters add up to the outputs |
| TraceTheorems.ChunkedIsWhole | scripts/preprocess_trace.py:551-716 | scan 3 carried over any list of chunks reaches the whole-file outputs, counters and pools |
| TraceTheorems.ChunkInvariance | scripts/preprocess_trace.py:551-716 | two chunkings of one file give the same outputs, counters and pools |
| TraceFates.OutputsByFate | scripts/preprocess_trace.py:551-716 | by columns and positions: the development output holds the records that survive every filter with a year before the holdout year, the holdout output those from it on, each once and in file order |
| TraceFates.CountersByFate | scripts/preprocess_trace.py:522-731 | every drop counter is the number of records whose first failed filter it belongs to; the side and CUSIP counters count survivors |
| TraceFates.BeyondMeaning | scripts/preprocess_trace.py:686-697 | the run stops early iff some record that survives every filter is dated after the last holdout year |
| TraceFates.SidesByDate | scripts/preprocess_trace.py:699-700 | a row of the development output is dated before the holdout year, one of the holdout output inside the window, and together they hold exactly the rows of the surviving records |
| TraceStages.StagesConcat | scripts/preprocess_trace.py:551-716 | every stage of a file is that stage of its first part followed by that stage of the rest, run with the pools the first part leaves |
| TraceStages.CountsConcat | scripts/preprocess_trace.py:522-716 | the counters add up over the two parts of a split file |
| Ordering.SortSorts | scripts/bounce_back_filter.py:165-165 | the sorted list behind the median is ordered and holds the same values |
| Ordering.MedianIgnoresOrder | scripts/bounce_back_filter.py:165-165 | the median depends on the values and not on their order |
| Ordering.MedianBounded | scripts/bounce_back_filter.py:165-165 | the median lies between the least and the greatest value |
| Ordering.MedianMeaning | scripts/bounce_back_filter.py:165-165 | by any sorted arrangement the median is the mean of the two middle entries, one and the same for an odd number |
| BounceBack.PushUnique | scripts/bounce_back_filter.py:122-124 | pushing a kept price keeps the deque equal to the last `window` of the kept prices with adjacent repeats collapsed |
| BounceBack.PushKeepsWindow | scripts/bounce_back_filter.py:122-124 | ring-buffer refinement of one push: skipping a repeat of the newest entry, or appending and evicting, is the window of the extended history, for every window size |
| BounceBack.ApplyBounceBackLoop | scripts/bounce_back_filter.py:133-186 | the imperative loop decides exactly as the filter whose anchor is a function of kept history only, and counts its drops |
| BounceBackTheorems.BoundedLookahead | scripts/bounce_back_filter.py:157-186 | series that agree on their first m trades get the same decision wherever the recovery test ends before m |
| BounceBackMeaning.DroppedIff | scripts/bounce_back_filter.py:133-186 | exactly which trades are dropped, by positions and prices: no trade of the last `par_cooldown` ones was dropped at par, two or more entries stand in the window, the price is further than the threshold from the anchor, and one of the next `lookahead` trades is within the tolerance of the window's median |
| BounceBackMeaning.NearParMeaning | scripts/bounce_back_filter.py:127-130 | the snap is on iff the window is long enough and its newest `par_min_run` entries, by position, are in the band; for run lengths of zero and below all but the oldest |
| BounceBackMeaning.WindowExists | scripts/bounce_back_filter.py:122-124 | the trades that stand in the window can be listed: the newest kept ones whose price differs from the one kept before |
| BounceBackTheorems.FirstTradeKept | scripts/bounce_back_filter.py:161-163 | the first trade is always kept |
| BounceBackTheorems.LastTradeKept | scripts/bounce_back_filter.py:173-184 | the last trade is always kept |
| BounceBackTheorems.DropIsFollowedByKeep | scripts/bounce_back_filter.py:165-184 | after a drop some trade within the lookahead is kept, under the exact parameter check |
| BounceBackTheorems.DropRunsBounded | scripts/bounce_back_filter.py:149-186 | no run of consecutive drops exceeds the lookahead, under the exact parameter check |
| BounceBackTheorems.DeletionBounded | scripts/bounce_back_filter.py:149-186 | at most `lookahead` drops per kept trade but one, on any non-empty series, under the exact parameter check |
| BounceBackTheorems.SnapMeansReachable | scripts/bounce_back_filter.py:127-130 | par snap comes on only where the run length fits the window and the band has room for two different prices |
| BounceBackTheorems.SnapHoldsMedian | scripts/bounce_back_filter.py:127-130 | where the near-par run must be a majority of the window, snapping holds the median within the band around par |
| BounceBackTheorems.RecoveryUnflagged | scripts/bounce_back_filter.py:165-176 | a trade that counts as recovery is not itself flagged, at whichever anchor |
| BounceBackExact.DeletionBoundedIff | scripts/bounce_back_filter.py:149-186 | for every parameter setting without exception: every series has drop runs within the lookahead iff a check on the parameters passes |
| BounceBackExact.DeletionBoundedOnPositivePricesIff | scripts/bounce_back_filter.py:149-186 | the same condition is exact when only series of positive prices are considered, for a positive par level |
| BounceBackExact.UnboundedWitness | scripts/bounce_back_filter.py:149-186 | outside the condition a series with a longer run of drops, of positive prices for a positive par level |
| BounceBackExact.MedianAnchorUnbounded | scripts/bounce_back_filter.py:165-176 | a tolerance above the threshold is enough for unbounded deletion, unless the snap is always on |
| BounceBackExact.ParAnchorUnbounded | scripts/bounce_back_filter.py:166-182 | without a cooldown, a reachable snap whose median can stand further from par than threshold less tolerance is enough |
| BounceBackExact.ShippedValuesBounded | docs/thresholds.yaml:260-282 | at the repository's thresholds no run of drops exceeds five, whatever the cooldown |
| BounceBackExact.StuckIsUnbounded | scripts/bounce_back_filter.py:165-184 | the whole failing family: from any history, a price that is flagged there, counts as its own recovery and arms no cooldown is dropped without bound |
| Segments.FilterSegment | scripts/bounce_back_filter.py:252-285 | what a flush writes to each file is the mask's selection, although each file is written only when its condition holds |
| Segments.Partition.FlushCurrentBond | scripts/bounce_back_filter.py:252-285 | a flush filters the open segments as one bond and adds them to the written state; nothing to flush changes nothing |
| Segments.Partition.AddRun | scripts/bounce_back_filter.py:312-320 | handling a run of equal keys at once is handling its rows one by one |
| Segments.RunStarts | scripts/bounce_back_filter.py:305-310 | the cut points of a batch are increasing, start at 0, end at its length, and delimit runs of one key |
| Segments.AddBatch | scripts/bounce_back_filter.py:286-320 | a batch advances the segmenter by its rows |
| Segments.ProcessPartition | scripts/bounce_back_filter.py:246-379 | the outcome depends on the rows alone and not on how they are batched; a non-finite price fails; "removed every row" is raised on an empty input and on no other |
| Segments.KeptAndDroppedInterleave | scripts/bounce_back_filter.py:370-379 | one mask over the input selects both files, so kept and dropped interleave back to the input and their counts add up to it |
| Segments.SegmentsCoverRows | scripts/bounce_back_filter.py:286-320 | the flushed segments laid end to end are the input |
| Segments.NothingLost | scripts/bounce_back_filter.py:351-354 | some row is kept iff there is a row |
| Segments.SegmentsAreRunsIff | scripts/bounce_back_filter.py:312-322 | the filtered segments cover the rows, are non-empty, hold one key each and change key at every cut, iff no keyless row directly precedes a keyed one |
| Segments.RunsAreMaximal | scripts/bounce_back_filter.py:305-310 | the runs, defined row by row, are the maximal stretches of one key, with nothing lost |
| Segments.KeysAreContiguous | scripts/bounce_back_filter.py:230-240 | on the sorted stream rows of one key have no other key between them |
| Segments.SortedStreamIsCutByBond | scripts/bounce_back_filter.py:230-240 | on a stream sorted by a strict total order of keys, missing keys last, the segments cover the stream, each holds one key, and no two hold the same: every bond is filtered once |
| SegmentsMeaning.FilesMeaning | scripts/bounce_back_filter.py:246-379 | on the sorted stream the kept file holds, in order, exactly the rows that the filter keeps on the prices of their own bond, and the dropped file the others |
| Distressed.ComputeRoundMask | scripts/apply_distressed_filters.py:159-173 | a price is round iff it lies within the tolerance of some listed number; a missing price never is |
| Distressed.FilterPlateau | scripts/apply_distressed_filters.py:255-289 | the skip loop terminates and flags a day iff its maximal exact-equal run is a candidate, long enough, and round or displaced on either side |
| Distressed.RunUnique | scripts/apply_distressed_filters.py:271-288 | a day lies in one maximal run only |
| Distressed.PlateauTimeReversal | scripts/apply_distressed_filters.py:255-289 | plateau flags commute with time reversal, although the loop reads left to right |
| Distressed.PlateauGateRedundant | scripts/apply_distressed_filters.py:336-337 | the minimum-length gate in front of the plateau filter changes nothing |
| Distressed.FilterAnomaly | scripts/apply_distressed_filters.py:185-214 | a day is flagged iff it is a candidate and the median of the higher neighbours in its window is far enough above it |
| Distressed.AnomalyTimeReversal | scripts/apply_distressed_filters.py:201-213 | anomaly flags commute with time reversal when the window is symmetric |
| DistressedMeaning.AnomalyMeaning | scripts/apply_distressed_filters.py:185-214 | in days and prices: the higher days from `lookback` before to `lookforward` after, and the ratio of their median to the day's price |
| DistressedMeaning.SpikeMeaning | scripts/apply_distressed_filters.py:217-252 | in days and prices: the lower days up to `lookback` before, the ratio to their median, and the fall back within `lookforward` days |
| DistressedMeaning.PlateauMeaning | scripts/apply_distressed_filters.py:255-289 | in days and prices: the longest stretch of one price around the day, its length, and the towering days next to it |
| DistressedMeaning.IntradayMeaning | scripts/apply_distressed_filters.py:292-314 | in prices: both ends there, one below the gate, a positive middle, and the range over the middle beyond the limit |
| Spikes.FilterSpike | scripts/apply_distressed_filters.py:217-252 | on any series whose medians do not cancel the division guard, a day is flagged iff it is a spike candidate, overshoots the median of the lower earlier prices in its window, and the price falls back within the lookahead |
| Spikes.FilterIntraday | scripts/apply_distressed_filters.py:292-314 | a day is flagged iff both ends are present, not both are above the gate, the middle is positive, and the range exceeds its share of the middle |
| Spikes.ApplyFilters | scripts/apply_distressed_filters.py:317-346 | a day is kept iff no filter flags it; of the three minimum-length gates only the anomaly one shows in the verdict |
| Spikes.AnomalyFlags | scripts/apply_distressed_filters.py:331-335 | the anomaly filter behind its three-day gate |
| Spikes.SpikeFlags | scripts/apply_distressed_filters.py:331-335 | the spike filter behind its three-day gate |
| Spikes.PlateauFlags | scripts/apply_distressed_filters.py:336-337 | the plateau filter behind its minimum-length gate |
| Spikes.GatesRedundant | scripts/apply_distressed_filters.py:331-337 | below three days nothing is a spike, below the plateau minimum nothing is a plateau |
| Spikes.SpikeGateRedundant | scripts/apply_distressed_filters.py:235-251 | a spike has a day before it and a day after it |
| Spikes.AnomalyGateIff | scripts/apply_distressed_filters.py:331-333 | exactly which flags the anomaly gate suppresses: a candidate on a two-day series whose higher neighbour lies in the window and reaches the ratio |
| Spikes.AnomalyGateMatters | scripts/apply_distressed_filters.py:331-333 | it does suppress one, at any positive ultra-low gate and any ratio: a rounded two-day series with a flagged day |
| Spikes.AnomalyGateShipped | docs/thresholds.yaml:304-330 | at the repository's thresholds, fifty cents followed by five |
| Spikes.SpikeIsLocal | scripts/apply_distressed_filters.py:235-251 | cutting the series anywhere outside a day's window leaves its spike flag alone |
| Spikes.AnomalyIsLocal | scripts/apply_distressed_filters.py:201-213 | and its anomaly flag |
| Spikes.RoundedGuards | scripts/apply_distressed_filters.py:322-325 | no price rounded to four decimals cancels the division guard |
| Spikes.MedianGuard | scripts/apply_distressed_filters.py:242-243 | nor does a median of such prices |
| Spikes.RoundedIsGuarded | scripts/apply_distressed_filters.py:322-325 | so on the rounded series the filters are given, no ratio divides by zero |
| Publish.StepInv | scripts/run_holdout_oos_descriptive.py:891-911 | every step of every run, crashes included, keeps the directory invariant: each run past its temp file owns its file under exactly the names its progress says |
| Publish.BehaveInv | scripts/run_holdout_oos_descriptive.py:797-911 | the invariant holds after every interleaving of any number of runs over a directory that may already hold anything |
| Publish.DestinationImmutable | scripts/run_holdout_oos_descriptive.py:897-900 | once the destination exists, its file and content never change again |
| Publish.AtMostOnePublished | scripts/run_holdout_oos_descriptive.py:897-900 | at most one run is ever published, and none over a destination that was there before |
| Publish.ArtefactNeverLost | scripts/run_holdout_oos_descriptive.py:891-911 | a run past its write, alive or crashed, has its complete artefact on disk under exactly the paths its progress says, at least one |
| Publish.EndedRunHasOnePath | scripts/run_holdout_oos_descriptive.py:905-911 | a run that ends leaves its artefact at exactly one path: the destination if published, its own conflict name otherwise |
| Publish.OthersNeverOverwrite | scripts/run_holdout_oos_descriptive.py:901-907 | no step of another run adds, removes or overwrites a path of a finished artefact |
| Publish.OthersUntouched | scripts/run_holdout_oos_descriptive.py:891-911 | a step of one run leaves another run's file alone, its content and its names |
| Publish.DestinationComesFromARun | scripts/run_holdout_oos_descriptive.py:897-900 | a destination that appears during the runs is the file of a published run |
| Publish.ConflictMeansPublished | scripts/run_holdout_oos_descriptive.py:900-909 | a run is turned away to a conflict name only by another run's publication, and never over a destination that was there before |
| Publish.GuardRefusesAll | scripts/run_holdout_oos_descriptive.py:797-802 | over a directory that already holds the destination no run of any interleaving gets past the pre-open check, so the holdout is not read |
| PublishLive.RefusedMeansDestination | scripts/run_holdout_oos_descriptive.py:797-802 | in every interleaving a run is refused only if the destination is in the directory |
| PublishLive.CanStep | scripts/run_holdout_oos_descriptive.py:797-911 | progress: in every reachable state a live run that has not ended can take its next step, some fresh name and file included, and the step brings it nearer to its end |
| PublishLive.StepsNeverAdded | scripts/run_holdout_oos_descriptive.py:797-911 | no step leads a run away from its end, and only its own steps move it |
| PublishLive.GetsToItsEnd | scripts/run_holdout_oos_descriptive.py:797-911 | from any reachable state a live run, stepped on its own, ends within seven steps |
| PublishLive.AloneItPublishes | scripts/run_holdout_oos_descriptive.py:891-900 | over a directory without the destination, a run stepped on its own to its end is published and the destination holds its artefact |
| PublishLive.ExactlyOnePublishes | scripts/run_holdout_oos_descriptive.py:797-911 | when all runs have ended over a directory without the destination, exactly one is published; every other one was refused or has its artefact at its own conflict name |
| Panel.GroupShift | scripts/build_monthly_panel.py:220-221 | the grouped shift, which looks up the last value seen of the bond wherever it stands, is the row above on the sorted panel |
| Panel.MaskedGrowth | scripts/build_monthly_panel.py:222-229 | growth over the lag with the gap mask written over it is the return of adjacent months |
| Panel.MonthlyPanel.AddFamilyReturns | scripts/build_monthly_panel.py:215-230 | the per-family loop body adds that family's returns and no other column |
| Panel.MonthlyPanel.AddReturns | scripts/build_monthly_panel.py:215-231 | the loop leaves both families' returns |
| Panel.GridReturnIsCalendarReturn | scripts/build_monthly_panel.py:204-229 | on any sorted grid that holds the family's months, whatever else it holds, the shifted-array return is this month's price over last calendar month's |
| Panel.ReturnPresentIff | scripts/build_monthly_panel.py:204-229 | a return is present iff this family by itself is priced in that month and the one before (a zero price after a zero price gives none) |
| Panel.ReturnMeaning | scripts/build_monthly_panel.py:220-229 | the return by the family's own two monthly prices: missing, infinite with the right sign, or the growth that takes one to the other |
| Panel.FamilyIndependence | scripts/build_profile_monthly_panel.py:58-72 | the joined raw/corr panel and the single-family panel give the same return at every common row |
| History.SamePredecessor | scripts/holdout_inventory.py:162-175 | rows added after the floor, interleaved by sort order, never come between a development row and its predecessor |
| History.HistoriesAgree | scripts/holdout_inventory.py:162-175 | a development row has the same bond history before and after the extension |
| Exits.ExitReasons | scripts/build_monthly_panel.py:141-154 | the three-way loop tags a month with a reason iff that exit is the bond's earliest, ties by the loop's order, and the month has reached it |
| Exits.TakeEarlier | scripts/build_monthly_panel.py:143-152 | one turn keeps the earliest exit among the kinds seen so far |
| Exits.EndedIff | scripts/build_monthly_panel.py:141-154 | a month has at most one reason, and has one iff some exit date has been reached |
| Exits.EndedForGood | scripts/build_monthly_panel.py:153-154 | once a bond has ended it stays ended, for the same reason |
| Exits.ReasonMeaning | scripts/build_monthly_panel.py:141-154 | each reason by the three dates of the bond and the date of the month, ties included |
| Momentum.NewRuns | scripts/build_mom6_signal.py:107-117 | the two slice-assigned comparison arrays mark exactly the rows that do not continue the bond's previous calendar month |
| Momentum.RunIds | scripts/build_mom6_signal.py:117-118 | the cumulative sum of the run starts numbers the runs |
| Momentum.RunIdMeansRun | scripts/build_mom6_signal.py:107-118 | two rows share a run id iff they lie in one unbroken run of months of one bond |
| Momentum.RollingWindow | scripts/build_mom6_signal.py:120-135 | a rolling window over one run id never reaches into an earlier run |
| Momentum.ComputeSignal | scripts/build_mom6_signal.py:84-137 | the argument checks in order, then the signal at every row |
| Momentum.SignalIsCausal | scripts/build_mom6_signal.py:107-135 | the signal at a row is the signal at the end of the row's own history |
| Momentum.PricedStretch | scripts/build_mom6_signal.py:107-135 | a stretch of d + 1 priced calendar months without a zero or a change of sign occupies consecutive rows of one run, with d valid returns that compound to the price ratio |
| Momentum.SignalIsPriceRelative | scripts/build_mom6_signal.py:107-135 | exact, on any prices: with every month required the signal exists iff the formation month and each of the F months before it are priced and neighbouring prices have one sign, none zero; then it is P(t) / P(t-F) - 1 |
| Momentum.SignalOnPositivePrices | scripts/build_mom6_signal.py:107-135 | where the prices of the stretch itself are positive, whatever the rest of the family, it exists iff they are all there |
| Momentum.FactorIff | scripts/build_mom6_signal.py:121-128 | a return passes the guard against values of -1 and below iff both months are priced with one sign |
| MomentumMeaning.SignalMeaning | scripts/build_mom6_signal.py:107-135 | for any number of required months and any prices: the product, less one, of the price relatives of the months among the last F that are on the grid without a gap and whose two prices have one sign, if there are enough of them |
| MomentumMeaning.RunMeaning | scripts/build_mom6_signal.py:107-118 | a run reaches back over exactly the months that are on the grid without a gap |
| ValueAtRisk.BlockStarts | scripts/build_var_5pct.py:110-114 | the cut points delimit the bonds' blocks |
| ValueAtRisk.RowSignal | scripts/build_var_5pct.py:119-127 | the sliced window inside a block is the row's own trailing history |
| ValueAtRisk.FillBlock | scripts/build_var_5pct.py:116-127 | a block's loop writes its own rows and no other |
| ValueAtRisk.ComputeSignal | scripts/build_var_5pct.py:75-133 | the argument checks in order, then the signal at every row |
| ValueAtRisk.SignalIsOrderStatistic | scripts/build_var_5pct.py:120-127 | with enough valid returns the value is the multiplier times a return of the window, possibly infinite, with fewer than `rank` valid returns below it and at least `rank` not above it; otherwise NaN |
| ValueAtRisk.SignalIsCausal | scripts/build_var_5pct.py:110-127 | the signal depends on the bond's rows up to the month only |
| ValueAtRisk.KthLowestIsOrderStatistic | scripts/build_var_5pct.py:122-126 | the rank-th lowest of the non-NaN returns, infinite ones ranked at the ends |
| TrailingMeaning.WindowMeaning | scripts/build_var_5pct.py:119-120 | the trailing window is exactly the bond's last `window` rows up to the month |
| TrailingMeaning.ValueAtRiskMeaning | scripts/build_var_5pct.py:110-127 | by rows: with enough returns that are not NaN in the window, the multiplier times the return of a row with fewer than `rank` of them below it and at least `rank` not above it; otherwise NaN |
| BondVolatility.SignalIsCausal | scripts/build_bond_vol.py:66-94 | the volatility at a row depends on the bond's rows up to the month only |
| TrailingMeaning.VolatilityMeaning | scripts/build_bond_vol.py:66-103 | by rows: with enough finite returns in months with a rate in the window, the root of the sample variance of return less rate |
| TrailingMeaning.VarianceMeaning | scripts/build_bond_vol.py:83-103 | n (n - 1) times the sample variance is n times the sum of squares less the squared sum |
| BondVolatility.ConstantRateIsIrrelevant | scripts/build_bond_vol.py:83-103 | a risk-free rate that is constant over the window does not change the variance |
| Ordering.KthIsOrderStatistic | scripts/build_var_5pct.py:125-127 | the rank-th entry of the sorted list is that order statistic of the unsorted one |
| Gamma.SameGroupMask | scripts/build_gamma_illiq.py:124-126 | the shifted mask marks the rows whose previous row is of the same bond and month |
| Gamma.Changes | scripts/build_gamma_illiq.py:128-142 | changes and their validity, blanked at group boundaries and beyond the gap limit |
| Gamma.PairMask | scripts/build_gamma_illiq.py:144-147 | the pair mask over two shifted masks, nothing at the last row |
| Gamma.Accumulate | scripts/build_gamma_illiq.py:149-158 | one pass of grouped sums holds the moments of exactly each bond-month's selected pairs |
| Gamma.ComputeGamma | scripts/build_gamma_illiq.py:83-188 | the failures in order (missing column, too small a minimum, empty layer), then a value for exactly the bond-months that have a pair, from exactly their pairs, blanked where the optional strict gate fails |
| GammaTheorems.OnePassIsCentred | scripts/build_gamma_illiq.py:159-161 | the one-pass sum is the sum of cross products about both means |
| GammaTheorems.GammaIsCovariance | scripts/build_gamma_illiq.py:159-163 | the signal is the sign times the centred sample covariance |
| GammaTheorems.PairsStayInBondMonth | scripts/build_gamma_illiq.py:124-147 | the pairs of a bond-month in the whole layer are the pairs of its own list of days, none across a month or a bond |
| GammaTheorems.PairMeansThreeDays | scripts/build_gamma_illiq.py:120-147 | a pair sits at exactly the middle of three priced days within the gap limit of each other |
| GammaTheorems.GroupSlice | scripts/build_gamma_illiq.py:111-119 | in the sorted layer a bond-month is one contiguous stretch |
| GammaMeaning.PairsMeaning | scripts/build_gamma_illiq.py:128-147 | the pairs of a bond-month's list of days: at each middle day of three priced days within the gap limit, ln p(i) - ln p(i-1) with ln p(i+1) - ln p(i), and no other |
| GammaMeaning.SignalMeaning | scripts/build_gamma_illiq.py:120-188 | from the bond-month's own list of days: the sign times the sample covariance of each log-price change with the next, missing with too few or behind the gate, absent without any |
| GammaTheorems.GammaSeam | scripts/holdout_inventory.py:204-213 | before the floor month every bond-month keeps its pairs, its traded days and its signal when later days are added |
| TotalReturn.TotalReturnOneFamily | scripts/build_total_return_panel.py:63-82 | the shifted-array kernel is defined on exactly the adjacent months with a positive earlier dirty price and known accrual and coupon |
| TotalReturn.KernelMeaning | scripts/build_total_return_panel.py:63-82 | in columns: a total return exists iff both months are there and known with a positive earlier P + AI, and it takes that P + AI to this month's P + AI plus the coupon |
| TotalReturn.FlatKernelIsCleanReturn | scripts/build_total_return_panel.py:137-147 | on a row where accrual and coupon are zero, whatever the other rows and bonds carry, the kernel is the clean return if the earlier price is positive and missing otherwise |
| TotalReturn.InvarianceCheckPasses | scripts/build_total_return_panel.py:137-147 | on any panel, coupon bonds included, the zero-coupon comparison passes if the accrual engine reports zero on the zero-coupon bonds |
| TotalReturn.HolderStaysBalanced | scripts/build_total_return_panel.py:63-82 | at every month of a chain the reinvesting holder's wealth is the opening price times the compounded return |
| TotalReturn.CompoundingIsWealthRatio | scripts/build_total_return_panel.py:63-82 | self-financing: compounding the kernel over a chain is the wealth ratio of holding the bond and reinvesting each coupon at P + AI |
| Vwap.AggregateIsDailyLayer | scripts/build_daily_panel.py:132-156 | filter, group and aggregate deliver one row for each day with a kept trade, aggregating exactly that day's kept trades: price, volume, priced trades, extremes |
| VwapMeaning.DaysMeaning | scripts/build_daily_panel.py:132-156 | the layer has one row for each bond and day with a trade that has a CUSIP, volume enough and an admitted product, and no other |
| VwapMeaning.DayRowMeaning | scripts/build_daily_panel.py:136-151 | a row sums volume and price times volume over exactly those trades, counts the priced ones, and has a price iff there is volume |
| VwapMeaning.MonthPriceMeaning | scripts/build_monthly_panel.py:171-189 | a bond-month has a price iff some such trade falls in it, and price times volume is price times volume of exactly those trades |
| Vwap.DayPriceWithinExtremes | scripts/build_daily_panel.py:136-151 | a day whose trades are all priced has its price between its own minimum and maximum, both prices that were paid |
| Vwap.RowsCarryTradeSums | scripts/build_daily_panel.py:132-156 | the day rows together carry the trades' whole volume, and their whole notional unless a day has no volume |
| Vwap.MonthPriceIsTradeLevel | scripts/build_monthly_panel.py:171-189 | days to months: the monthly price built from the daily layer is the notional over the volume of the month's kept trades, and missing iff there is no volume or a day without volume |
| Vwap.MonthPriceBounded | scripts/build_monthly_panel.py:171-189 | the monthly price lies between any bounds of the priced trades, scaled by the priced fraction of the volume; that fraction is one iff every kept trade is priced |
| Vwap.MonthPriceIsMeanIff | scripts/build_daily_panel.py:139-155 | on every month it is the volume-weighted mean of the priced trades, or missing with it, iff every kept trade is priced or that mean is zero |
| Vwap.MonthPriceWithinIff | scripts/build_monthly_panel.py:171-189 | exactly when the monthly price lies within given bounds, unpriced trades included |
| Vwap.UnpricedMonthIsZero | scripts/build_daily_panel.py:139-155 | a bond-month that trades without any price is priced at zero and not missing |
| Vwap.ReturnIntoUnpricedMonth | scripts/build_monthly_panel.py:220-229 | the return into such a month is a total loss |
| Vwap.ReturnOutOfUnpricedMonth | scripts/build_monthly_panel.py:220-229 | the return out of it is infinite |
| Vwap.NullPriceHalves | scripts/build_daily_panel.py:139-155 | a concrete case: two equal trades at 100 and at no price give 50 |
| Seam.ConcatSucceedsIff | scripts/holdout_inventory.py:337-364 | the two side checks pass iff the floor date separates the layers, and then the result is the row union |
| Seam.PricesBeforeFloor | scripts/holdout_inventory.py:155-164 | adding later days leaves every earlier month's price, and its absence, as it was |
| Seam.ReturnRowsExtend | scripts/holdout_inventory.py:162-175 | the seeded panel's return rows before the floor are exactly the development panel's |
| Seam.GridsExtend | scripts/holdout_inventory.py:162-164 | the joined development grid is the part of the joined seeded grid before the floor |
| Seam.SeamCausality | scripts/holdout_inventory.py:193-217 | one family: every development key is in the seeded build with the same return history, and so the same return, momentum, value-at-risk and volatility |
| Seam.SeededBuildKeepsDevelopment | scripts/holdout_inventory.py:155-258 | from the daily layers of any number of families (raw and corrected, or the profiles) through both builds: with the side checks passed, on the joined grids, every development key keeps its whole return history in every family, and with it its return, momentum, value-at-risk and volatility |
| Seam.SeededGammaKeepsDevelopment | scripts/holdout_inventory.py:204-213 | every development bond-month keeps its illiquidity signal |
| Seam.TotalReturnKeepsDevelopment | scripts/holdout_inventory.py:286-306 | from the daily layers through both builds: every development key keeps its total return in every family |
| Calibration.Sweep | scripts/calibrate_relocator.py:386-397 | one table row per grid bar, each counted over all negatives and all usable positives |
| Calibration.CountAt | scripts/calibrate_relocator.py:388-397 | the counting loops of one bar: false accepts, and hits and totals of each tier |
| Calibration.RaisingTheBar | scripts/calibrate_relocator.py:387-397 | raising the bar lowers false accepts and both recalls |
| Calibration.ZeroFaIffAboveCeiling | scripts/calibrate_relocator.py:388-410 | with negatives present a bar has no false accept iff it lies above the reported ceiling |
| Calibration.ChoiceMeaning | scripts/calibrate_relocator.py:306-321 | on any table: the greatest feasible bar, else the least bar without a false accept, else none |
| Calibration.ChoiceFromScores | scripts/calibrate_relocator.py:306-397 | from the scores and the grid alone: the greatest bar that no negative reaches and at which both tiers' recalls reach their floors, else the least bar that no negative reaches, else none |
| Calibration.FeasibleBarsAreAnInterval | scripts/calibrate_relocator.py:306-321 | on a swept table the feasible bars are exactly the zero-false-accept bars up to the chosen one |
| Calibration.UnmetBarHasGreatestRecall | scripts/calibrate_relocator.py:315-321 | when the floors are unmet the returned bar has the greatest recall of both tiers among the bars without a false accept |
| Trees.NoMismatchIffExtends | scripts/run_e2e_traversal.py:299-325 | no mismatch is reported iff the fresh tree extends the recorded one: keys may be added at any depth, list lengths match, leaves are equal |
| Trees.NothingReportedIffSame | scripts/run_e2e_traversal.py:299-325 | neither a mismatch nor an additive key is reported iff the trees hold the same data |
| Trees.LeafMeaning | scripts/run_e2e_traversal.py:137-142 | two leaves: nothing is reported iff both are NaN, or they are numbers of one value with True as one and False as zero, or the same string, infinity or null; otherwise one mismatch with both values |
| Trees.KindsDiffer | scripts/run_e2e_traversal.py:299-325 | a container against a leaf or against the other kind of container is always a mismatch |
| Trees.PlainLeaf | scripts/run_e2e_traversal.py:137-142 | without booleans and integers leaves hold the same value iff they are equal |
| Trees.ReportMeaning | scripts/run_e2e_traversal.py:299-325 | whole trees: no mismatch iff the fresh tree holds the recorded one, keys added; nothing at all iff they are equal but for the order of keys and the notation of numbers |
| Trees.ExtendsReflexive | scripts/run_e2e_traversal.py:137-142 | a tree extends itself, NaN leaves included |
| Trees.ExtendsTransitive | scripts/run_e2e_traversal.py:299-325 | extension composes, so a chain of clean comparisons is a clean comparison |
| Trees.MutualExtensionIsSame | scripts/run_e2e_traversal.py:299-325 | two trees extend each other iff they hold the same data |

## Left out

- Seam.SeededBuildKeepsDevelopment: the risk-free rate is a function of the month and the square root of the volatility is given; ratings and size are not part of it.
- Seam.TotalReturnKeepsDevelopment: accrued interest and coupon are functions of bond and month; the accrual engine is not part of this model.
- Momentum.SignalIsPriceRelative: exact reals, so `log1p` and `expm1` around a rolling sum become a product of growth factors; `MomentumMeaning.SignalMeaning` drops the requirement of every month.
- Vwap.AggregateIsDailyLayer: a negative minimum volume, with which a day of no volume could have an infinite price, and infinite trade prices are not modelled. Vwap.MonthPriceIsMeanIff and the other bounds on monthly prices are stated for a positive minimum volume.
- Gamma.ComputeGamma: the number of business days of a month is given.
- Distressed.FilterPlateau: prices must not cancel the 1e-10 division guard; `Spikes.RoundedGuards` shows that prices rounded to four decimals never do. The same holds for Distressed.FilterAnomaly.
- Publish.StepInv: any failure other than an existing destination counts as a crash; inode numbers are not reused; temp and conflict names come from an allocator that returns a name nothing else holds.
- TraceEngine.RunPandas: hash collisions are excluded by keying on the hashed tuples, a counter entry of zero and an absent one are not told apart, `-0.0` and `0.0` are distinct keys as printed, and whether a CUSIP cell is blank is a given test of the row.
- Parquet, CSV, JSON and YAML reading and writing, DuckDB and Polars execution, schema checks, temporary files of the batch stages, progress output, reports and command lines.
- Floating-point rounding and the tolerance-based self-checks, the sign of zero in a quotient, Newey-West and normal-quantile statistics.
- The block loop and tallies of the distressed filters' `process_partition`, which splits a sorted layer by bond as the other block loops do.
- The gate, pin and capability guards of the real run before it opens the holdout, and its self-verification of development means.
- FISD reference data: static fields, as-of ratings and time to maturity beyond the exit reason.
- The merge of the risk-free rate and the dual-family merges of the signals.
- Recall by class and the near-accept listing of the calibration report; building its positives and negatives.
- The paths of a tree mismatch are structured steps and not formatted strings.
- Decimal-shift correction, strictness frontier, factor construction, portfolio statistics, extraction, masking and language-model code.
