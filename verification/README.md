# IncVisage back end: a verified model

IncVisage answers a visualisation query by sampling a table and showing, step by step, a finer and
finer approximation of a trend line or a heat map. This project models the C++ back end that does
it (`needletail-code-base/`) and proves what each part is for.

* **Choosing blocks** (`SeekCost`, `ForwardOptimal`, `TwoProng`, `LinearPass`, `Densities`,
  `ThresholdScan`, `ThresholdClaims`, `BaseDensity`, `DensityMaps`, `GreedyPasses`). A density map estimates how
  many matching rows each disk block holds. Four searches pick blocks to read: a dynamic program
  over seek costs, a two-pointer window, a greedy pass and a threshold algorithm over sorted lists.
  Each search is a loop proved against a declarative optimum; the class `DensityMap` adds the lists
  and sets that survive between calls.
* **Refining a picture** (`SquaredError`, `Totals`, `Samples`, `Segments`, `TrendLine`, `Grids`,
  `Quadrants`, `HeatSearch`, `HeatMap`, `HeatClaims`, `HeatGlobal`). The classes `Trend` and `Heat`
  refine a partition of a line or of a grid one split at a time.
* **Publishing it** (`Delta`, `TrendSession`, `HeatSession`). Only the regions made by a step are
  published; the client splices them into its view. Whole sessions of any length are proved.
* **The index** (`Records`, `Query`, `Results`, `Bitmaps`, `SwiftIndexes`, `Sampling`, `Ewah`,
  `Agreement`, `LazyBitmaps`, `LazyIndexes`, `LazyQueries`). Exact bitmaps, bitmaps by page, compressed bitmaps
  and lazily combined blocks from a recycled pool are compared with the plain predicate that scans
  use.
* **The record store** (`PagedStore`). The writer pads pages; the reader buffers one page and
  leaves out seeks.

`double`, `float` and the values they hold are `real`; counts, row and block numbers are `nat`.
A list, map or field the source updates in place is a field that a method reassigns; the interval
table of a trend is an `array2`. An exception or a dereferenced null pointer is an `Option`, a
`Found` or a `crashed` result. A step of a trend or heat map receives the sampled averages of all
groups as its `answers`; it uses those of the groups it queries.

A `requires` states what the source leaves to its callers: for example `wanted > 0` where a
wanted count of zero would wrap around or be divided by, and enough matching rows where a sampler
would otherwise read behind its list.

## Where code and intention differ

Each of these is proved, with the exact condition under which the intended property holds where
there is one.

* **OR threshold scan.** The aggregate of a new block starts at 1 for OR as well as for AND
  (`swift_map.cc:1350`), while the threshold of an OR starts at 0. Blocks then go out in the wrong
  order: emission by descending density holds for all OR maps with a given number of operands if
  and only if that number is one (`OrSoundIffOneOperand`); `LopsidedRun` is a scan that goes wrong
  for every larger number. In general the error is at most 1 (`OrBatchIsOffByOne`).
* **Threshold scan, completeness.** Blocks are emitted only at depths that show a new block, so a
  scan that ran through the lists can end with matching blocks undelivered; `CompleteIff` says
  when, from the lists alone, and `CrossedLists` is the smallest case.
* **Two-pointer window.** A window that ends at the last candidate is not shrunk. `ShortestIff`
  gives the condition on the candidates under which the chosen window is shortest of all,
  `MissesFinalWindow` a list on which it is not.
* **Greedy pass.** The working list is emptied for rank zero only, so a second pass works on blocks
  already delivered. It is bound to deliver one of them again, whatever it wants and however ties
  come out, if and only if all of the densest blocks have been delivered (`AlwaysRedeliversIff`);
  after a first call that is so if and only if there is one densest block or all but one of them
  fall short of what the first call wanted (`SecondPassRedeliversIff`, `CallTwice`).
* **Trend queries.** After every step that splits, the count of groups to query next is too large by
  the groups of the second new segment whenever it has several (`Trend.GenHisto`,
  `QueriesAreGroups`). The first step leaves the count at its initial 366, whatever the number of
  groups. `main.cc` has the intended count.
* **First means.** A group or cell without records counts as zero in the first mean
  (`Trend.FirstStep`, `FirstMean`).
* **Heat map, choice of quadrant.** Quadrants are compared by what their best cut explains and not
  by what it gains. The step is the best single cut for all cell values if and only if at most one
  quadrant can be split (`BestCutIffOneSplittable`).
* **Heat map, corner cut.** The search asks for no split if and only if the corner cell has not run
  out and no live point beats it: none in an earlier column, and none above it whose cut gains
  anything (`AsksForNoSplitIff`). With no cell run out that means one column of equal cells
  (`NoSplitIffFlatColumn`). The cut made instead is exact on a line if and only if the stored mean
  is up to date (`CornerCutIsExactIffMeanIsFresh`), and on a rectangle if and only if the stored
  mean is the sum of the four new means (`RectangleCutIsExactIff`), which for a flat region means
  zero (`RectangleCutBreaksFlatMean`).
* **Deltas.** A step that does not split publishes the last delta again, and the client's view
  grows beyond the server's partition. For a heat map the view is right if and only if the last step
  split or none ever did (`ViewIsPartitionIff`); if no cell runs out, if and only if there were
  fewer quadrants than cells before the last step (`ViewIsPartitionIffRoom`). For a trend it is
  right up to as many steps as there are groups (`TrendSession.Session`).
* **Compressed bitmaps.** When children are combined only the own bits of a child are read, so a
  nested operator counts as its neutral element (`RawAnswer`). What such a map delivers is right if
  and only if operators of both kinds meet below the root and every row has the answer this forces,
  or the nested operators add nothing to the root's constants (`DeliversMatchesIff`). Queries that
  do not nest are always right (`DepthOneIsRaw`).
* **Lazy bitmaps.** A query with an operator dereferences a null block if and only if some block of
  the table has no row with one of its constants (`RunTable`); `CrashingTable` is such a table.
* **Counts per group.** The count is kept under the key narrowed to a 32-bit integer. It is the
  population of the key's bitmap if and only if no row has another key that narrows to the same
  value (`CountIsPopulationIff`).
* **Constants without rows.** Every eager index throws if and only if a constant of the query
  occurs in no row (`RunAll`).
* **Record store.** The writer pads with whole 4-byte integers. Stores read back for all contents
  if and only if the unused part of a page is a multiple of four bytes
  (`ReadsBackIffWholePadding`, for records longer than three bytes).

## Model

| member | source | states |
|---|---|---|
| `SeekCost.CalcCost` | needletail-code-base/swift_map.cc:720-726 | the cost is constant from 512 columns on and the truncated value of the seek curve before |
| `SeekCost.CostIsSubadditive` | needletail-code-base/swift_map.cc:720-726 | stopping at a column in between never makes a seek cheaper, although the curve drops at the threshold |
| `SeekCost.CostIsNotMonotone` | needletail-code-base/swift_map.cc:720-726 | a seek of 511 columns costs more than one of 512, so the scan cannot stop at the first dearer column |
| `ForwardOptimal.FarColumnsAreBest` | needletail-code-base/swift_map.cc:903-930 | one prefix minimum stands for all columns more than 512 back: nothing is lost |
| `ForwardOptimal.BestPredecessor` | needletail-code-base/swift_map.cc:881-932 | scanning 512 columns and one prefix minimum finds the least extension over all earlier columns, with a parent that attains it |
| `ForwardOptimal.FillCell` | needletail-code-base/swift_map.cc:856-948 | one cell of both cost tables and both parent tables holds what the recurrences say |
| `ForwardOptimal.RecordIsLowerBound` | needletail-code-base/swift_map.cc:729-1001 | no chain of candidates that ends at a block and supplies j samples is cheaper than the table entry |
| `ForwardOptimal.RecordIsAttained` | needletail-code-base/swift_map.cc:729-1001 | every finite entry is the cost of such a chain |
| `ForwardOptimal.TablesAreLeastCosts` | needletail-code-base/swift_map.cc:729-1001 | both tables are least costs over chains: lower bounds that are attained |
| `ForwardOptimal.FeasibleIffTotal` | needletail-code-base/swift_map.cc:729-1001 | the target can be met if and only if all candidates together meet it |
| `ForwardOptimal.Backtrack` | needletail-code-base/swift_map.cc:956-989 | following the parents ends and collects an increasing chain that pays exactly the tabulated cost |
| `ForwardOptimal.SelectBlocks` | needletail-code-base/swift_map.cc:729-1001 | a feasible target gets a cheapest chain of all; an infeasible one gets the last candidate alone |
| `TwoProng.SmallestWindow` | needletail-code-base/swift_map.cc:1060-1130 | the debt carried between windows is always zero; the search ends with the window the next lemma describes |
| `TwoProng.ChosenWindowIsGood` | needletail-code-base/swift_map.cc:1083-1130 | the window reaches the target or is the whole list, and is no longer than any sufficient window that ends before the last candidate |
| `TwoProng.ShortestIff` | needletail-code-base/swift_map.cc:1083-1130 | from the candidates alone: it is the shortest of all exactly when the candidates behind the first start that needs the last one fall short, or some sufficient window before the end is no longer than any sufficient one at the end |
| `TwoProng.MissesFinalWindow` | needletail-code-base/swift_map.cc:1092-1130 | on 1, 1, 2 with target 2 the window has two blocks where one would do |
| `LinearPass.CountTaken` | needletail-code-base/swift_map.cc:1252-1262 | the pass stops at the first block with which the target is reached |
| `LinearPass.SelectionBelowPrefix` | needletail-code-base/swift_map.cc:1252-1262 | no selection is estimated to hold more than equally many of the densest blocks (exchange argument) |
| `LinearPass.TakeDensest` | needletail-code-base/swift_map.cc:1214-1266 | the blocks taken are the densest, reach the target or are all there is, and no smaller selection reaches it |
| `Densities.SortBy` | needletail-code-base/swift_map.cc:1252-1266 | sorting gives an ordered permutation |
| `Densities.EstimateMonotone` | needletail-code-base/swift_map.cc:1254-1258 | a denser block is estimated to hold at least as many samples, truncation included |
| `Densities.EstimateIsFloor` | needletail-code-base/swift_map.cc:1254-1258 | the estimate is density times block size, truncated |
| `ThresholdScan.UnseenBelowThreshold` | needletail-code-base/swift_map.cc:1320-1358 | a block that no list prefix has shown cannot beat the threshold, for AND and for OR |
| `ThresholdScan.ThresholdFalls` | needletail-code-base/swift_map.cc:1320-1341 | the threshold never rises with depth and is never negative |
| `ThresholdScan.AggregatesAre` | needletail-code-base/swift_map.cc:1320-1358 | from the base maps: the density of a block is the product or the sum of the operands' densities, the scan's aggregate of an OR is one more, and the threshold is the same over the densities at one rank of the lists |
| `ThresholdScan.PositiveIff` | needletail-code-base/swift_map.cc:1028-1049 | a product of densities is positive exactly when all are, a sum exactly when one is |
| `ThresholdScan.CappedIsFloor` | needletail-code-base/swift_map.cc:1387-1417 | the estimate the scan adds up is truncated, and a density above one counts as a full block |
| `ThresholdScan.ReadDepth` | needletail-code-base/swift_map.cc:1320-1341 | reading one depth of all lists gives its threshold and exactly the blocks first shown there |
| `ThresholdScan.EmitReady` | needletail-code-base/swift_map.cc:1387-1417 | all waiting blocks at or above the threshold go out, densest first, until the target is reached |
| `ThresholdScan.FirstBatch` | needletail-code-base/swift_map.cc:1309-1445 | the unbounded loop ends; every emitted block dominates all blocks not yet emitted, up to the aggregate's bias |
| `ThresholdClaims.AndBatchIsSound` | needletail-code-base/swift_map.cc:1319-1432 | for AND every block has, when emitted, at least the combined density of every block not yet emitted, though only list prefixes were read |
| `ThresholdClaims.OrBatchIsOffByOne` | needletail-code-base/swift_map.cc:1350-1358 | for OR the same holds up to 1 |
| `ThresholdClaims.OneOperandIsSound` | needletail-code-base/swift_map.cc:1319-1432 | with one operand an OR batch is sound |
| `ThresholdClaims.OneOperandInListOrder` | needletail-code-base/swift_map.cc:1319-1432 | and its blocks go out exactly in list order |
| `ThresholdClaims.OrSoundIffOneOperand` | needletail-code-base/swift_map.cc:1350-1358 | OR batches over n operands are sound for all lists if and only if n is one |
| `ThresholdClaims.LopsidedRun` | needletail-code-base/swift_map.cc:1350-1358 | for every number of operands above one, a scan that puts a sparser block out first, whatever is wanted |
| `ThresholdClaims.ExhaustedBatchIs` | needletail-code-base/swift_map.cc:1387-1432 | a batch that fell short holds exactly the blocks that reach the threshold of the last depth that shows a new block before the lists run out |
| `ThresholdClaims.CompleteIff` | needletail-code-base/swift_map.cc:1387-1432 | from the lists alone: it holds all matching blocks if and only if they all reach that threshold |
| `ThresholdClaims.CrossedLists` | needletail-code-base/swift_map.cc:1387-1432 | two crossed lists: both blocks match, none is delivered |
| `BaseDensity.BlockMap.Set` | needletail-code-base/swift_map.cc:1865-1872 | setting a row adds its share to the density of its block and to nothing else |
| `BaseDensity.BlockMap.PostSet` | needletail-code-base/swift_map.cc:1875-1885 | the list holds exactly the blocks with rows, densest first; the finished map is one the searches can use, and its densities times block size are the rows set |
| `BaseDensity.BuiltIsValid` | needletail-code-base/swift_map.cc:1865-1885 | density times block size is the exact number of rows set in the block, and a built map meets what the searches require |
| `DensityMaps.CandidatesAre` | needletail-code-base/swift_map.cc:1222-1247 | the candidates are exactly the blocks not sampled yet, in increasing order, each with the density its operands give it |
| `DensityMaps.DensityMap.Gather` | needletail-code-base/swift_map.cc:1018-1055 | of each unsampled block the product of the operands' densities for AND, and for OR their sum where it is at most one and one otherwise; it is positive exactly when all or some of theirs are |
| `DensityMaps.DensityMap.TwoProng` | needletail-code-base/swift_map.cc:1005-1200 | a call either serves what is there or adds the chosen window without its empty blocks; across calls no block is delivered twice |
| `DensityMaps.DensityMap.VanillaForwardOptimal` | needletail-code-base/swift_map.cc:729-1001 | a call adds the cheapest chain among the unsampled blocks; no block is delivered twice |
| `DensityMaps.DensityMap.LinearPassFixedBlocks` | needletail-code-base/swift_map.cc:1205-1275 | the whole new state of a call; the first call delivers the densest blocks, as few as can reach the target |
| `DensityMaps.DensityMap.OrderedGetFirst` | needletail-code-base/swift_map.cc:1282-1451 | the first call delivers the first batch sorted by block number and remembers the blocks it has seen |
| `GreedyPasses.AlwaysRedeliversIff` | needletail-code-base/swift_map.cc:1214-1266 | a pass is bound to deliver a block twice, for every target and tie-breaking, if and only if its list is not empty and all densest entries have been delivered |
| `GreedyPasses.SecondPassRedeliversIff` | needletail-code-base/swift_map.cc:1214-1266 | after a first call, from the densities alone: if and only if there is one densest block or all but one of them fall short of the first target |
| `GreedyPasses.CallTwice` | needletail-code-base/swift_map.cc:1205-1275 | two calls on any AND map that meets the condition deliver a block twice, whatever the second one wants |
| `SquaredError.MeanIsBestConstant` | needletail-code-base/trend.cc:565-592 | the mean is the constant with the least squared error |
| `SquaredError.SplitLowersError` | needletail-code-base/trend.cc:578-578 | splitting a list lowers the squared error by exactly the variance-reduction formula |
| `Samples.ResampleIsExactMean` | needletail-code-base/trend.cc:538-540 | the weighted update of a group's average is the exact mean of the old and the new values together |
| `Samples.AfterIsMeanOfDrawn` | needletail-code-base/trend.cc:531-540 | after any queries a group has run out exactly when one of them found no record, and its average and count are those of all values drawn before the first of these |
| `Segments.GroupHasOneSegment` | needletail-code-base/trend.cc:452-471 | in a partition each group lies in exactly one segment |
| `Segments.SomeSegmentSplits` | needletail-code-base/trend.cc:483-490 | fewer segments than groups leave a segment that can be split |
| `Segments.FullTilingIsSingles` | needletail-code-base/trend.cc:483-490 | as many segments as groups leave none |
| `Segments.LargestDropIsBest` | needletail-code-base/trend.cc:594-605 | the largest drop gives the least total error among all one-split refinements |
| `TrendLine.Trend.SampleAndTabulate` | needletail-code-base/trend.cc:493-553 | while no group ran out, the table holds the sums of all intervals of the segment; the column of a group that ran out keeps what an earlier step left |
| `TrendLine.Trend.FillColumn` | needletail-code-base/trend.cc:543-548 | one more column keeps the table right and touches no other column |
| `TrendLine.Trend.BestCut` | needletail-code-base/trend.cc:557-592 | the leftmost position with the largest gain and its two means; the segment's end is never chosen |
| `TrendLine.Trend.RefineSegment` | needletail-code-base/trend.cc:486-594 | the chosen cut has exact means and lowers the error of the segment most |
| `TrendLine.Trend.ChooseSplit` | needletail-code-base/trend.cc:483-610 | exactly the groups of splittable segments are resampled, and the chosen segment and cut are the first with the largest gain of all |
| `TrendLine.BestChoiceDropsMost` | needletail-code-base/trend.cc:544-605 | that choice minimises the total squared error among all one-split refinements |
| `TrendLine.Trend.Rewrite` | needletail-code-base/trend.cc:613-716 | the new partition, the published fields, the running bounds, and the count of groups to query next: the groups the next step resamples, and once more those of the second new segment if it has several |
| `TrendLine.QueriesAreGroups` | needletail-code-base/trend.cc:616-700 | the count kept of a partition is the number of groups the next step resamples |
| `TrendLine.Trend.FirstStep` | needletail-code-base/trend.cc:395-471 | one segment over all groups with the mean of their averages; a group without records counts as zero |
| `TrendLine.Trend.NextStep` | needletail-code-base/trend.cc:475-716 | a partition with a splittable segment is always split, at the best place; a partition into single groups stays as it is |
| `TrendLine.Trend.GenHisto` | needletail-code-base/trend.cc:350-726 | one step: what changes, what is kept for which iteration, and that every split keeps a partition of all groups |
| `Delta.Replay` | new-web-test/js/trendline/player.js:507-519 | splicing a delta puts all its regions in the place of one entry |
| `TrendSession.PackSegmentResult` | needletail-code-base/incvisage.cc:322-357 | the k-th of the segments made last: its place, the attribute values of its two ends and its mean |
| `TrendSession.Publish` | needletail-code-base/incvisage.cc:437-465 | the delta shows all segments made last, numbered from their place: one before any split, two after |
| `TrendSession.ReplayOfSplit` | needletail-code-base/incvisage.cc:322-357 | replaying the delta of a split turns the view of the old partition into that of the new one |
| `TrendSession.ViewCovers` | needletail-code-base/incvisage.cc:330-356 | over increasing attribute values the ranges of such a view follow one another and cover every value once |
| `TrendSession.Session` | needletail-code-base/incvisage.cc:428-465 | for sessions of any length: step i has exactly i segments up to the number of groups and the client's view gives the ends and the mean of each; beyond it the view outgrows every partition |
| `Quadrants.PartitionCoversOnce` | needletail-code-base/heat.cc:510-520 | in a partition every cell is covered and no two quadrants overlap |
| `Quadrants.AtMostArea` | needletail-code-base/heat.cc:555-556 | there are never more quadrants than cells, and equally many exactly when none can be split |
| `Quadrants.ReplaceKeepsPartition` | needletail-code-base/heat.cc:763-1216 | putting pieces that cover a quadrant in its place keeps a partition |
| `Quadrants.CoversFour` | needletail-code-base/heat.cc:763-900 | the four parts of a cut cover the quadrant exactly |
| `Quadrants.ScoreIsErrorLeft` | needletail-code-base/heat.cc:641-736 | the score of a point is the sum of squares minus the squared error its cut leaves |
| `HeatSearch.PartMean` | needletail-code-base/heat.cc:648-716 | the mean of a part and its size times squared mean; both are zero for an empty part |
| `HeatSearch.BestPoint` | needletail-code-base/heat.cc:636-736 | the first of the live points with the highest score, and the means of its parts |
| `HeatSearch.ChooseQuadrant` | needletail-code-base/heat.cc:615-757 | the first quadrant with the highest best score; none exactly when no splittable quadrant has a live cell |
| `HeatMap.PiecesCover` | needletail-code-base/heat.cc:763-1201 | every branch, fallbacks included, covers the quadrant exactly with two or four nonempty pieces |
| `HeatMap.Heat.SampleAll` | needletail-code-base/heat.cc:547-613 | exactly the cells of splittable quadrants are resampled, each once |
| `HeatMap.Heat.CornerMeans` | needletail-code-base/heat.cc:1049-1072 | the row and column averages the rectangle fallback uses |
| `HeatMap.Heat.CutCorner` | needletail-code-base/heat.cc:907-1145 | the fallback branches cut a corner cell off |
| `HeatMap.Heat.CutQuadrant` | needletail-code-base/heat.cc:763-1201 | the pieces of every branch, the published fields and the running bounds |
| `HeatMap.Heat.FirstStep` | needletail-code-base/heat.cc:470-535 | one quadrant over the whole grid with the mean of the cell averages |
| `HeatMap.AnswerSum` | needletail-code-base/heat.cc:480-512 | the sum over all cells of the grid |
| `HeatMap.FirstMean` | needletail-code-base/heat.cc:480-520 | the first mean is that of the cell averages; a cell without records counts as zero |
| `HeatMap.Heat.NextStep` | needletail-code-base/heat.cc:537-1216 | a step splits if and only if a splittable quadrant has a cell that has not run out; the cut goes through such a cell, and none of them scores higher; otherwise nothing but samples changes |
| `HeatMap.Heat.GenHeat` | needletail-code-base/heat.cc:403-1226 | one step keeps a partition of the grid through every branch and grows it by one or three |
| `HeatClaims.BestPointLeavesLeastError` | needletail-code-base/heat.cc:641-736 | the chosen point leaves the least squared error over all candidate points of the quadrant |
| `HeatClaims.HalvesAgreeIffFlat` | needletail-code-base/heat.cc:901-1145 | all pairs of halves of a column have equal means if and only if the column is constant |
| `HeatClaims.NoSplitIffFlatColumn` | needletail-code-base/heat.cc:901-1145 | with no cell run out, the search asks for no split if and only if the quadrant is one column of equal cells |
| `HeatGlobal.PieceMeansAreExact` | needletail-code-base/heat.cc:763-900 | a cut that is not at the corner gives every piece the exact mean of its cells |
| `HeatGlobal.CornerCutIsExactIffMeanIsFresh` | needletail-code-base/heat.cc:910-1046 | the corner cut of a line gives exact means if and only if the stored mean is that of the cells now |
| `HeatGlobal.RectangleCutIsExactIff` | needletail-code-base/heat.cc:1047-1145 | the corner cut of a rectangle gives three pieces exact means, and the fourth if and only if the stored mean is the sum of the four means |
| `HeatGlobal.RectangleCutBreaksFlatMean` | needletail-code-base/heat.cc:1047-1145 | on a flat rectangle it makes mean -2v out of v |
| `HeatGlobal.NothingBelowCorner` | needletail-code-base/heat.cc:641-736 | no point scores below the corner, and a point scores above it exactly when its cut lowers the error |
| `HeatGlobal.AsksForNoSplitIff` | needletail-code-base/heat.cc:641-736 | exhausted cells included: the search asks for no split if and only if the corner is live, no earlier column has a live cell and no live cell above the corner gains |
| `HeatGlobal.PiecesError` | needletail-code-base/heat.cc:763-1201 | after any cut the quadrant's error is that of the point the cut really goes through |
| `HeatGlobal.OneSplittableIsBest` | needletail-code-base/heat.cc:738-757 | with one splittable quadrant the step is the best single cut |
| `HeatGlobal.BestCutIffOneSplittable` | needletail-code-base/heat.cc:738-757 | the step is the best single cut for all cell values if and only if at most one quadrant can be split |
| `HeatSession.PackCellResult` | needletail-code-base/incvisage.cc:359-426 | the entry of each new quadrant: its place, the attribute values of its four sides and its mean |
| `HeatSession.Publish` | needletail-code-base/incvisage.cc:466-515 | the delta of a step: one, two or four regions |
| `HeatSession.ShowReplaced` | new-web-test/js/heatmap/player.js:617-629 | showing and replacing commute, so splicing follows the split |
| `HeatSession.ViewCovers` | needletail-code-base/incvisage.cc:359-426 | over increasing attribute values a partition as the client sees it has every pair of values in exactly one region |
| `HeatSession.StallStays` | needletail-code-base/heat.cc:537-613 | once a step does not split, no later step does |
| `HeatSession.EndOfSplitting` | needletail-code-base/heat.cc:555-556 | a session splits less often than the grid has cells; if no cell ran out it ends with one cell per quadrant |
| `HeatSession.ViewIsPartitionIff` | needletail-code-base/incvisage.cc:466-515 | the client's view gives the sides and the mean of every region of the server's partition if and only if the last step split or no step ever did |
| `HeatSession.ViewIsPartitionIffRoom` | needletail-code-base/incvisage.cc:466-515 | if no cell runs out: if and only if there were fewer quadrants than cells before the last step, or there is but one step or one cell |
| `HeatSession.LiveIffFewer` | needletail-code-base/heat.cc:555-566 | with no cell out, a step can split if and only if there are fewer quadrants than cells |
| `HeatSession.Session` | needletail-code-base/incvisage.cc:428-515 | sessions of any length: partition, bounds and view in step, which steps split, and when the view is right |
| `Records.ContinuousKeysAreMonotone` | needletail-code-base/binner.cc:32-46 | continuous keys are in range and follow the order of the values |
| `Records.ContinuousKeyIsBin` | needletail-code-base/binner.cc:32-46 | the key of a number is the bin of equal width it lies in: key 0 below the first bin, the last key from behind the start of the last bin on |
| `Records.DiscreteKeysAreExact` | needletail-code-base/binner.cc:8-30 | the discrete key of a value is the value, and anything but an unsigned integer has none |
| `Query.VerifyRecord` | needletail-code-base/swift_index.cc:939-961 | the early-exit recursion decides the meaning of the query |
| `Query.MatchesAre` | needletail-code-base/swift_index.cc:1206-1238 | the reference list: exactly the accepted rows in increasing order |
| `Results.RunningMeanStep` | needletail-code-base/query.h:100-104 | the incremental update is the exact mean |
| `Results.ResultSet.Update` | needletail-code-base/query.h:100-104 | the kept average is the exact mean of all values seen |
| `Bitmaps.FindFromIsNext` | needletail-code-base/swift_map.cc:74-82 | the search finds the next set position |
| `Bitmaps.FlatMap.SequentialSample` | needletail-code-base/swift_map.cc:38-46 | the samples of one round are the set positions in order; a page is reported by its first row |
| `SwiftIndexes.SwiftIndex.Read` | needletail-code-base/swift_index.cc:245-296 | after reading, every key has a bitmap of exactly the units that hold it, and its count |
| `SwiftIndexes.CountIsPopulationIff` | needletail-code-base/swift_index.cc:266-287 | the count kept under the narrowed key is the population of the key's bitmap if and only if no other key of a row narrows to the same value |
| `SwiftIndexes.NarrowedKey` | needletail-code-base/swift_index.cc:266-266 | the key is taken modulo 2^32 and read as signed; it is kept as it is if and only if it is below 2^31 |
| `SwiftIndexes.SmallKeysAreApart` | needletail-code-base/swift_index.cc:266-266 | keys below 2^31 are never confused |
| `SwiftIndexes.RowHasOneKey` | needletail-code-base/swift_index.cc:245-264 | the bitmaps of one attribute partition the rows |
| `SwiftIndexes.SwiftIndex.Lookup` | needletail-code-base/swift_index.cc:729-732 | a constant has a bitmap if and only if it occurs, and the bitmap says where |
| `SwiftIndexes.SwiftIndex.CombineMaps` | needletail-code-base/swift_index.cc:722-750 | combining a tree of any depth joins the meanings of its children; it fails if and only if a constant occurs in no row |
| `SwiftIndexes.SwiftIndex.BuildMap` | needletail-code-base/swift_index.cc:506-524 | the map of a query has exactly the units the query accepts |
| `SwiftIndexes.BitsDecide` | needletail-code-base/swift_index.cc:722-750 | no accepted row is missed, whatever the bins and pages; exact maps over discrete attributes accept exactly the rows the predicate accepts |
| `Sampling.SampleMean` | needletail-code-base/swift_index.cc:796-828 | samples the first rows of an exact map |
| `Sampling.FullScan` | needletail-code-base/swift_index.cc:1206-1238 | averages exactly the accepted rows |
| `Sampling.NothingBetween` | needletail-code-base/swift_index.cc:1060-1124 | unmarked pages add no match |
| `Sampling.ApproxSampleMean` | needletail-code-base/swift_index.cc:1060-1124 | page by page the first accepted rows are delivered in order, full last page or not |
| `Ewah.EwahMap.Combine` | needletail-code-base/swift_map.cc:333-360 | AND starts from the own bits, OR ignores them |
| `Ewah.EwahMap.SequentialSample` | needletail-code-base/swift_map.cc:333-374 | rows come out in order, none twice, across queries; an empty map reports that it is empty |
| `Ewah.DepthOneIsRaw` | needletail-code-base/swift_map.cc:342-346 | queries that do not nest mean what they say |
| `Ewah.RawAnswer` | needletail-code-base/swift_map.cc:342-346 | what the map of any nested query answers for a row: the forced answer when operators of both kinds meet, otherwise what the root's constants decide |
| `Ewah.DeliversMatchesIff` | needletail-code-base/swift_map.cc:342-346 | for every query and table: it delivers the matches of the query if and only if all rows have the forced answer, or the nested operators add nothing |
| `Ewah.BuildEwah` | needletail-code-base/swift_index.cc:722-750 | the map delivers the matches of the query whose operator children are replaced by neutral elements |
| `Ewah.RunQuery` | needletail-code-base/swift_index.cc:583-650 | one query on a cached map averages the next rows of the match list exactly, or finds none |
| `Ewah.Session` | needletail-code-base/swift_index.cc:583-650 | queries whose demand can be met deliver consecutive slices, and the group's average is the exact mean of all values delivered |
| `Agreement.ExactMapIsScan` | needletail-code-base/swift_index.cc:506-539 | the set rows of an exact map are the rows a scan accepts |
| `Agreement.PageMapCovers` | needletail-code-base/swift_map.cc:392-415 | a page map leaves no page with an accepted row out, however deep the query |
| `Agreement.RunExact` | needletail-code-base/swift_index.cc:506-539 | an exact index delivers the first accepted rows |
| `Agreement.RunLossy` | needletail-code-base/swift_index.cc:506-539 | so does an index by page with record verification |
| `Agreement.RunEwah` | needletail-code-base/swift_index.cc:583-650 | a compressed index delivers the first rows of the query it really evaluates |
| `Agreement.RunAll` | needletail-code-base/swift_index.cc:506-650 | all representations deliver the first rows the scan accepts and compute the same mean, the compressed ones when they are right on the table, or all fail alike |
| `LazyBitmaps.Arena.NewBitmap` | needletail-code-base/swift_map.h:872-889 | a block from the pool is set or cleared as a whole, whatever it held |
| `LazyBitmaps.Arena.EvalBitmap` | needletail-code-base/swift_map.h:845-870 | the combined block has the meaning of its children and is kept; there is none exactly when a needed block does not exist |
| `LazyBitmaps.Arena.AddMap` | needletail-code-base/swift_map.h:656-663 | a new map over existing ones changes none of them |
| `LazyBitmaps.Arena.Set` | needletail-code-base/swift_map.h:763-771 | setting a row makes its block if need be and changes one bit of one map; all other maps stay as they are |
| `LazyBitmaps.Arena.Destroy` | needletail-code-base/swift_map.h:665-673 | giving a map's blocks back to the pool changes no other map |
| `LazyBitmaps.Arena.FindFirst` | needletail-code-base/swift_map.h:720-730 | the first set row; fails exactly when a missing block comes first |
| `LazyBitmaps.Arena.FindNext` | needletail-code-base/swift_map.h:732-760 | the next set row across block boundaries and empty blocks |
| `LazyBitmaps.Arena.Enumerate` | needletail-code-base/swift_map.h:720-760 | find-first and repeated find-next meet exactly the set rows in strictly increasing order, and fail if and only if a block is missing |
| `LazyIndexes.SetLeaf` | needletail-code-base/swift_map.h:763-771 | a leaf that marks the rows with its key goes on doing so, and has a block exactly where one of them lies |
| `LazyIndexes.LazyIndex.ReadValue` | needletail-code-base/swift_index.cc:256-264 | one value makes the leaf of its key if need be and keeps every leaf of every attribute right |
| `LazyIndexes.LazyIndex.Read` | needletail-code-base/swift_index.cc:245-264 | after reading a table every key has a leaf that marks exactly its rows |
| `LazyQueries.BuildLazy` | needletail-code-base/swift_index.cc:722-750 | operators become maps whose meaning is that of the query, before any block is evaluated; a constant without rows is an error |
| `LazyQueries.RunQuery` | needletail-code-base/swift_map.h:698-870 | one query throws, crashes or meets exactly the accepted rows, each under its exact condition on the rows, and leaves the index usable |
| `LazyQueries.RunTable` | needletail-code-base/swift_map.h:698-870 | from the rows alone, for any sequence of queries over one index with whatever was combined before |
| `LazyQueries.CrashingTable` | needletail-code-base/swift_map.h:861-865 | a table and a query that accepts both of its rows and crashes |
| `PagedStore.Writer.Write` | needletail-code-base/scripts/data_utils.py:168-186 | where pages end depends on the records written so far and not on batches |
| `PagedStore.PageIsFilled` | needletail-code-base/scripts/data_utils.py:168-186 | a page takes as many records as fit; padding fills what is left up to less than four bytes |
| `PagedStore.RecordsAreLaidOut` | needletail-code-base/scripts/data_utils.py:168-186 | every record stands at its offset in the file |
| `PagedStore.Reader.Clear` | needletail-code-base/sdb.cc:31-41 | the buffered page is forgotten |
| `PagedStore.Reader.GetRecord` | needletail-code-base/sdb.cc:43-61 | the bytes at the record's slot, whatever was read before; leaving the seek out is sound because the file position follows the buffered page |
| `PagedStore.SlotIsOffset` | needletail-code-base/sdb.cc:43-61 | reader and writer differ by what the padding falls short of on the pages before |
| `PagedStore.FullPaddingReadsBack` | needletail-code-base/scripts/data_utils.py:180-185 | with padding that fills the page every record reads back |
| `PagedStore.ReadsBackIffWholePadding` | needletail-code-base/scripts/data_utils.py:180-185 | all stores read back if and only if the slack of a page is a multiple of four bytes |
| `PagedStore.RoundTrip` | needletail-code-base/sdb.cc:31-61 | whatever the batches written and the requests before, a request for record r returns the r-th record written |

## Left out

- DensityMaps.DensityMap.OrderedGetFirst: the first call only; later batches start from a threshold and a maximum that are not recomputed (`swift_map.cc:1387`).
- DensityMaps.DensityMap.TwoProng: the cached values `v`, `valid` and the set of blocks known to be nonzero are not modelled; the compiled block granularity is 1.
- DensityMaps.DensityMap.VanillaForwardOptimal: costs are unbounded, so the largest 64-bit value stands only for "no chain"; the caller of this search is compiled out.
- ThresholdScan.FirstBatch: the order in which the new blocks of one depth come up is left open, as the source iterates over an unordered set, and so is which of equally dense waiting blocks goes out first.
- TrendLine.Trend.GenHisto: exactness is claimed while no group of a splittable segment ran out, because the table column of such a group is stale (`SampleAndTabulate` says so).
- Ewah.EwahMap.SequentialSample: asking for more rows than there are is a precondition, because the source then reads behind its list.
- Ewah.RunQuery: queries over a cached map only; the query that clears its map afterwards, and so frees the bits of a one-constant map of the index, is not modelled.
- Sampling.ApproxSampleMean: the first phase only; the second phase reweights a random estimate.
- Sampling.SampleMean: one target attribute; the running averages of several targets do not interact.
- SwiftIndexes.SwiftIndex.BuildMap: a one-constant query gets its own copy of the index's map; the source hands out the map itself and sets its position back with `clear` after each query.
- LazyQueries.BuildLazy: maps are built children first; the source creates a parent and attaches its children before any block is evaluated.
- LazyBitmaps.Arena.Enumerate: the walk uses find-first and find-next; the sequential sampler of a lazy map always restarts and is left out.
- PagedStore.ReadsBackIffWholePadding: records of one to three bytes are left out of the equivalence; a shift smaller than four bytes may then skip whole records.
- PagedStore.RoundTrip: reader and writer use the same page size; direct I/O and the count of real disk reads are not modelled.
- Floating-point rounding, except where the code truncates to an unsigned integer.
- `ifocus` and its confidence intervals: compiled out, and probabilistic at heart.
- Random and pseudo-random sampling, `irefine` and the round-robin variants: probabilistic claims.
- Density maps over density maps, and the reading and writing of index files.
- The compression of EWAH bitmaps and the internals of bitset libraries: both are sequences of bits here.
- YAML queries and schemas, the V8 argument plumbing, the web server and the user interface except for the splice that applies a delta.
- Timers, cache dropping, dataset name tables and the benchmark drivers.
