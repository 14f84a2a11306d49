# Verification of the OpenQuake engine's task protocol, probability algebra and indexes

This project is a model of the parts of the OpenQuake engine on which the correctness of a
distributed calculation rests, with proofs. It has three parts.

**Tasks and work splitting.** `Starmap._loop` is a master loop with a counter of the tasks
to do and a queue; workers stream results, may spawn subtasks and end with exactly one end
message. `TaskProtocol` is the transition system (nondeterministic scheduler, first-in
first-out per task only, messages of other jobs at any time); `Starmap` is the same as a
class with the fields of the source, each method proved against the transition system;
`Reduce` relates the parallel reduction to a sequential one. `BlockSplitter`,
`SplitterTheorems`, `BlockCounts`, `SplitInBlocks`, `Slices`, `WorkSplit`, `Classical` and
`DisaggTasks` model the functions that cut the work; `Pipeline` puts both together: every
source is computed exactly once.

**Probabilities.** `Probability` and `Aggregates` are the algebra of 1 - (1-p1)...(1-pn)
over arrays and their axes, `Disaggregation`, `DisaggCells` and `DisaggStore` its use across tasks,
`GmfCurves` its use across batches of ground motion fields. `HazardMaps` is the log-log
interpolation of hazard curves. Probabilities and weights are real numbers; `exp(-n/s)`
is the n-th power of a number q between 0 and 1; logarithm and exponential are given as
increasing functions inverse of each other.

**Indexes, compilers and two-way sums.** `AggKeys` (aggregation keys and the losses
accumulated for them), `Ruptures`, `Indices`, `Events` and `RuptureGetters` (the tables of
ruptures, geometries and events and their links), `NodeCompiler` (a tree turned into a
straight-line program that rebuilds it), `XmlStream` (the streaming writer against the
stack parser), `Damage`, `DamageCells` and `DamageTotals` (damages added up by event and by asset).

`Folds`, `Sorting` and `Aggregates` hold the general lemmas. Each file is one module.
`dafny verify dfyconfig.toml` checks everything.

Where the comments of the source and its code disagree, the model follows the code:

- `openquake/baselib/parallel.py:828` says LIFO; tasks are taken from index 0 of the queue
  and appended at its end, so the order is FIFO.
- The docstring of `block_splitter` (`openquake/baselib/general.py:215-216`) says that items
  with weight zero are ignored; one is kept when it opens a block.
- `openquake/calculators/disaggregation.py:446-448` gives the shapes of the two kinds of
  results exchanged; kind 0 is (distance, epsilon), as line 94 makes it.
- `openquake/calculators/disaggregation.py:329-334` calls chunks of constant group essential;
  the slices are right for any order of the groups, which only changes their number.

Some properties hold under a condition that is made precise, with an input that fails it:

- `split_task` does all the work of elements that weigh if and only if the measured time is
  positive. With elements of any weight it does so if and only if all of them weigh, or all
  but one and each of the others is too long for the duration by itself
  (`WorkSplit.SplitTask`).
- Adding two dictionaries of lists in either order gives the same if and only if the lists of
  each common key can be exchanged (`Reduce.AddListsCommuteIff`,
  `Reduce.AddListsDoesNotCommute`). Up to order the lists are the same under every schedule
  (`Reduce.ListReductionUpToOrder`).
- The positions that `post_ebrisk` infers for a key have one entry per aggregated tag if and
  only if no other tag has a single value (`AggKeys.IdxLength`, `AggKeys.LonelyTag`).
- A node survives the conversion to elements and back if and only if no branch of it has a
  text (`NodeCompiler.RoundTripIff`, `NodeCompiler.BranchTextLost`).
- The events are saved if and only if no rupture has an event number twice
  (`Events.SaveEvents`).

## Model

| member | source | states |
|---|---|---|
| TaskProtocol.ReachableInvariant | openquake/baselib/parallel.py:825-870 | in every state that any interleaving reaches: no message is lost or duplicated; `todo` is submitted minus ended; the queue is nonempty only if at least `cores` tasks run; `todo` is at most the tasks submitted in advance plus the cores plus the spawned subtasks; submission is FIFO; the queue never grows |
| TaskProtocol.Progress | openquake/baselib/parallel.py:851-853 | while `todo` is not zero some task has a message to deliver, so the loop never waits in vain |
| TaskProtocol.ExitIffAllReceived | openquake/baselib/parallel.py:851-870 | every run is finite; the loop exits exactly when all messages of the forest were received, and then the queue is empty and no task is in flight |
| TaskProtocol.ExactlyOnce | openquake/baselib/parallel.py:834-870 | for every finite forest of tasks spawning tasks and every interleaving, the multiset of the values yielded is that of the whole forest |
| StarmapLoop.WireEndsOnce | openquake/baselib/parallel.py:484-499 | a worker sends exactly one end message, and sends it last |
| StarmapLoop.SafelyCall | openquake/baselib/parallel.py:484-499 | the worker loop sends every value and subtask of the generator in order and then the end message |
| StarmapLoop.YieldedAre | openquake/baselib/parallel.py:853-867 | every message of the run but the requests for subtasks is yielded, as often as it was received |
| StarmapLoop.YieldedValues | openquake/baselib/parallel.py:536-569 | of the messages that the loop yields, the consumer keeps the real outputs, all of them and in order |
| StarmapLoop.ReduceResults | openquake/baselib/parallel.py:585-590 | reducing the results is folding the real outputs in the order of arrival |
| StarmapLoop.Starmap.Submit | openquake/baselib/parallel.py:763-795 | one more task, numbered by its position among the submitted ones |
| StarmapLoop.Starmap.SubmitAll | openquake/baselib/parallel.py:797-807 | arguments of known number are queued, others are submitted at once |
| StarmapLoop.Starmap.SubmitMany | openquake/baselib/parallel.py:825-832 | the oldest queued tasks are submitted and counted, as in the protocol |
| StarmapLoop.Starmap.FillCores | openquake/baselib/parallel.py:835-850 | the first fill of the cores leads to the initial state of the protocol |
| StarmapLoop.Starmap.LogPercent | openquake/baselib/parallel.py:746-761 | the percentage is that of the tasks done among the submitted and queued ones when it grows; it never goes back and ends with 100 |
| StarmapLoop.Starmap.ReceiveFrom | openquake/baselib/parallel.py:853-867 | the reaction to one message is the step of the protocol |
| StarmapLoop.Starmap.Loop | openquake/baselib/parallel.py:834-870 | the loop terminates, its run is a run of the protocol up to the exit, with any foreign messages in between, and it yields what was received |
| StarmapLoop.Starmap.Reduce | openquake/baselib/parallel.py:816-820 | for an aggregation that does not depend on the order, the parallel reduction is the depth-first sequential one |
| Reduce.ReduceRefinesSequential | openquake/baselib/parallel.py:585-590 | under any schedule the fold of the outputs equals running the forest depth first in process |
| Reduce.AddDict | openquake/baselib/general.py:658-666 | key-wise addition: the keys of both sides, values added where both have the key |
| Reduce.AddDictLeftCommutes | openquake/baselib/general.py:658-666 | key-wise numeric addition does not depend on the order of the additions |
| Reduce.AddListsCommuteIff | openquake/baselib/general.py:658-665 | with list values two additions can be exchanged if and only if, for each key that both add to, the two lists give the same concatenated in either order |
| Reduce.AddListsDoesNotCommute | openquake/calculators/scenario_damage.py:162-169 | a dictionary with a `d_asset` list for which the order of two results matters |
| Reduce.ListReductionUpToOrder | openquake/calculators/scenario_damage.py:162-169 | under any schedule the reduced dictionary of lists has the keys of the sequential one, each list being a permutation |
| Reduce.ListReductionRefinesSequential | openquake/baselib/parallel.py:816-820 | and it is the sequential one when the lists of the results can be exchanged |
| Reduce.AccumDict.IAdd | openquake/baselib/general.py:658-667 | the loop of `+=` over the items computes the key-wise addition, for numbers as for lists |
| Reduce.AccumDict.IAddToAll | openquake/baselib/general.py:668-671 | an operand that is no dictionary is added to every value and no key appears or goes |
| Reduce.DictReductionRefinesSequential | openquake/baselib/parallel.py:816-820 | reducing dictionaries with `+=` gives the sequential sums under any schedule |
| BlockSplitter.WeightedSequence.Insert | openquake/baselib/general.py:149-155 | an item is inserted and its weight added to the total |
| BlockSplitter.Split | openquake/baselib/general.py:231-250 | the generator yields the blocks of the scan; it fails exactly for a maximum that is not positive or at the first negative weight, after having yielded what came before |
| BlockSplitter.ScanIsSplit | openquake/baselib/general.py:231-250 | the blocks of the scan are a greedy split: a block ends only where the next item has another key or does not fit |
| SplitterTheorems.SplitterPartition | openquake/baselib/general.py:231-250 | the blocks concatenated are the items, leaving out only weightless ones that open no block; blocks have one key, their weight is the sum of their items, and only single items exceed the maximum |
| SplitterTheorems.GreedySplitUnique | openquake/baselib/general.py:231-250 | there is only one greedy split, so the property above determines the result |
| BlockCounts.NeighboursExceed | openquake/baselib/general.py:241-245 | two consecutive blocks of the same key weigh together more than the maximum |
| BlockCounts.CountBound | openquake/baselib/general.py:241-250 | items of total weight at most h maxima give at most 2(h-1) blocks more than there are runs of keys |
| BlockCounts.ResplitGivesAtMostSeven | openquake/calculators/classical.py:85-86 | a block made at twice the maximum and split again at half of it gives at most seven blocks, over-heavy single items included |
| SplitInBlocks.GroupBy | openquake/baselib/general.py:875-887 | sorting and grouping is a partition with one group per distinct key |
| SplitInBlocks.RunsOfSorted | openquake/baselib/general.py:324 | sorted keys have as many runs as there are distinct keys |
| SplitInBlocks.SplitInBlocks | openquake/baselib/general.py:317-328 | the blocks partition the items by key; a hint of zero or one gives everything or the groups, a larger one the greedy split of the items in order of key and weight, a block of several items not being heavier than the total over the hint, rounded up; the blocks are at most 2(hint-1) plus the number of keys; the assertions fail exactly for a negative hint or no items |
| Slices.GenSlices | openquake/baselib/general.py:289-295 | the slices follow each other from start to stop, full except the last; an empty range gives one empty slice |
| Slices.SplitInSlices | openquake/baselib/general.py:268-279 | the slices cover the range and are at most as many as asked for, and exactly when that many are returned |
| WorkSplit.SplitTask | openquake/baselib/parallel.py:901-917 | the heaviest element is computed first and then, in blocks of the greedy split of the others by their expected time, the rest; together they are a permutation of the elements, if and only if the measured time is positive (for elements that weigh); for elements of any weight, exactly when it succeeds and exactly when it then covers all of them; with time zero there is no block and the last access fails |
| WorkSplit.CoverageIff | openquake/baselib/parallel.py:908-917 | the elements covered are all of them if and only if at most one is weightless and then each other one is too long by itself |
| WorkSplit.ShipBlocks | openquake/baselib/parallel.py:915-917 | the subtasks carry the blocks in order, the last block is computed, and together they are all the elements |
| WorkSplit.TimedSplit | openquake/baselib/parallel.py:908-914 | measured weights have the sign of the elapsed time, and with the first element the blocks hold every element once |
| WorkSplit.WeightlessLeftOut | openquake/baselib/general.py:241-247 | items without key and without weight are all left out |
| Classical.SplitFilter | openquake/calculators/classical.py:84-107 | heavy blocks become subtasks, the last block and the light ones are computed in place |
| Classical.SplitFilterShips | openquake/calculators/classical.py:90-107 | the subtasks are the blocks not lighter than the minimum, the last one excepted, and each of them once; without blocks there is one empty result |
| Classical.SplitFilterCovers | openquake/calculators/classical.py:84-107 | every source that weighs is computed exactly once, and a block cut by `submit_tasks` spawns at most six subtasks |
| Classical.CutGroup | openquake/calculators/classical.py:487-497 | the blocks of a group are its keys or the greedy split of its sources, the heaviest first, at twice the maximum weight; they send each of its sources exactly once |
| Classical.SubmitGroup | openquake/calculators/classical.py:483-497 | an atomic group is one submission with all its sources, not to be split further; the others are cut, and each source is sent exactly once |
| Classical.SubmitTasks | openquake/calculators/classical.py:456-497 | the submissions are those of the groups one after the other; every source of every group is sent exactly once; the calculation fails exactly when nothing weighs |
| Classical.WeightOfAll | openquake/calculators/classical.py:456-463 | the total from which the limit is taken is the weight of the sources of all groups |
| Classical.WeightLimit | openquake/calculators/classical.py:471-477 | the limit is the smallest number that is not below the minimum weight nor too small for as many tasks as asked for |
| Pipeline.EverySourceComputedOnce | openquake/calculators/classical.py:84-107 | submission, loop and splitting together: under any schedule every source is passed to the classical calculator exactly as often as it is given |
| Pipeline.RunClassical | openquake/calculators/classical.py:452-504 | the whole calculation as one method, with foreign messages arriving meanwhile |
| DisaggTasks.SlicesAreGood | openquake/calculators/disaggregation.py:335-353 | the slices from first to last index of the blocks are disjoint and in order, have ruptures of a single group, and cover every rupture with sites |
| DisaggTasks.ComputeSlices | openquake/calculators/disaggregation.py:310-353 | the loop of `compute` submits such slices, one for each block of the greedy split, for any groups and any numbers of sites |
| HazardMaps.ComputeHazardMaps | openquake/commonlib/calc.py:134-160 | every cell of the map is the interpolated value; a wrong number of levels is an error |
| HazardMaps.MapInRange | openquake/commonlib/calc.py:143-160 | a map value is zero or between the first and the last level |
| HazardMaps.MapFallsWithPoe | openquake/commonlib/calc.py:143-160 | the map does not increase with the probability of exceedance |
| HazardMaps.MapGrowsWithCurve | openquake/commonlib/calc.py:143-160 | a pointwise larger curve never gives a smaller value, through cutoff, clamps and flat segments |
| HazardMaps.MapInvertsCurve | openquake/commonlib/calc.py:143-160 | at a probability that the curve takes, and at least the cutoff, the value is the smallest level at which it takes it |
| HazardMaps.MapOnSegment | openquake/commonlib/calc.py:145-159 | between two values of the curve, the second one replaced by the cutoff if it is smaller, the logarithms of the probability and of the map value lie on the line through the two points |
| HazardMaps.MapZeroIff | openquake/commonlib/calc.py:147-155 | the value is zero if and only if the probability exceeds the largest one of the curve and the cutoff |
| HazardMaps.MapSaturates | openquake/commonlib/calc.py:156-159 | below the smallest probability of the curve the value is the largest level |
| Probability.AggProbs | openquake/baselib/general.py:1498-1505 | the loop computes one minus the product of the complements |
| Probability.AggregateAtLeast | openquake/baselib/general.py:1498-1505 | the aggregate of probabilities is a probability not less than any of them |
| Probability.MarginalKeepsTotal | openquake/baselib/general.py:1491-1495 | a probability product over any axes, followed by one over the others, is the product over all cells |
| Probability.MarginalWhere | openquake/baselib/general.py:1491-1495 | so do the cells of a marginal with any indices, and all the cells of the array that have these indices |
| Disaggregation.Accumulator.Collect | openquake/calculators/disaggregation.py:375-390 | one result of a task updates, for each site and measure type it has, both kinds of matrices in its region type and magnitude bin, and nothing else |
| Disaggregation.CellIsProduct | openquake/calculators/disaggregation.py:383-389 | a cell of the accumulator is one minus the product over all results with its key and bin, in any order and number |
| Disaggregation.BuildMatrix | openquake/calculators/disaggregation.py:53-59 | the dictionary of matrices becomes one array, zero where there was no matrix |
| Disaggregation.MatrixTotal | openquake/calculators/disaggregation.py:89-94 | the total of either kind of matrix is the product over all cells of all the matrices that the tasks computed, before they were reduced to marginals |
| Disaggregation.MatrixWhere | openquake/calculators/disaggregation.py:375-390 | the cells of either kind of matrix with any indices aggregate to the product over all cells, with these indices, that the tasks found |
| Disaggregation.FirstAxisKeepsTotal | openquake/calculators/disaggregation.py:473 | aggregating the region types with `agg_probs` keeps the total |
| Disaggregation.ExportKeepsTotal | openquake/calculators/disaggregation.py:473-491 | each of the eight exported marginals collapses to the total of its matrix |
| Disaggregation.FirstAxisThenMarginal | openquake/calculators/disaggregation.py:473-488 | a marginal taken after the region types were aggregated is the marginal of the whole array |
| Disaggregation.ExportCells | openquake/calculators/disaggregation.py:473-491 | each cell of an output is the product over all cells of the matrix that have its indices on the axes that the output is named after |
| DisaggCells.ExportIsFound | openquake/calculators/disaggregation.py:475-491 | a cell of the output `Mag`, `Dist`, `Lon_Lat` and so on is one minus the product over all results and over all cells of the four-axis matrices that have its indices on the axes so named |
| DisaggStore.Store.Save | openquake/calculators/disaggregation.py:455-493 | every output asked for is exported from its kind of matrix, and nothing is written under other names; the total, written once per kind, is that of the highest kind, and of both when they agree |
| DisaggStore.DisaggregationTotals | openquake/calculators/disaggregation.py:372-373 | under any schedule both kinds, and every export, collapse to the same number, so writing it twice is consistent |
| DisaggStore.RunIsConsistent | openquake/calculators/disaggregation.py:372-373 | under any schedule the matrices built from the results of a run agree on the total of each site and measure type, which is one minus the product over all that the tasks found |
| DisaggStore.SaveRun | openquake/calculators/disaggregation.py:455-493 | after a run, under any schedule, the total written for each site and measure type is that number, and every cell of every output asked for is the product over what the tasks found with its named indices |
| GmfCurves.GmvsToPoes | openquake/commonlib/calc.py:197-204 | the curves of all the measure types |
| GmfCurves.CurveShape | openquake/commonlib/calc.py:185-187 | a curve lies in [0, 1) and does not increase with the level |
| GmfCurves.CurveOfOne | openquake/commonlib/calc.py:185-187 | one ground motion value gives 1 - q for the levels that it reaches and 0 for the others |
| GmfCurves.ComputeCurves | openquake/calculators/getters.py:354-367 | the nested grouping by site and realization gives one curve for each of them that has ground motions, and no other |
| GmfCurves.CombineInPlace | openquake/calculators/event_based.py:200 | the array of probabilities is combined in place with new ones |
| GmfCurves.Accumulator.AggDicts | openquake/calculators/event_based.py:195-200 | the arrays of the keys of a result are combined, a missing one starting from zero, and the others are untouched |
| GmfCurves.BatchSurv | openquake/commonlib/calc.py:185-187 | for each key and level the curves of a batch give q to the number of its records of that site and realization that reach the level |
| GmfCurves.CurvesOfRecords | openquake/calculators/getters.py:354-367 | there is a curve exactly for the sites and realizations of the records, and one minus it is the product of a factor q for each of their records that reaches the level |
| GmfCurves.AnyBatchingAnyOrder | openquake/calculators/event_based.py:195-200 | accumulating batch by batch gives exactly the curves of all the ground motions together, for any batching and order |
| GmfCurves.CurvesUnderAnySchedule | openquake/calculators/event_based.py:195-200 | the same for the results of the tasks of a run, under any schedule |
| AggKeys.BuildAggkeys | openquake/calculators/post_risk.py:41-57 | the keys are the sorted product of the tags; it fails exactly when a name is unknown or the names are out of order |
| AggKeys.IndexOf | openquake/calculators/post_risk.py:41-42 | the position of a name, the last one if it is repeated; there is none exactly for an unknown name |
| AggKeys.KeysAre | openquake/calculators/post_risk.py:46-57 | a key has one value from 1 on for each tag aggregated by, and for each other tag the list of all values |
| AggKeys.KeysPartition | openquake/calculators/post_risk.py:46-57 | a combination of tag values belongs to exactly one key |
| AggKeys.KeysDistinct | openquake/calculators/post_risk.py:46-57 | no key and no combination occurs twice |
| AggKeys.KeySumsAddUp | openquake/calculators/post_risk.py:87-100 | summing anything over the combinations of each key and then over the keys is summing it over all combinations |
| AggKeys.IdxBijection | openquake/calculators/post_risk.py:87-89 | when no other tag has a single value, the inferred positions are different and are all the positions, from 0, in an array with one axis for each aggregated tag |
| AggKeys.IdxLength | openquake/calculators/post_risk.py:87-89 | and they have the right number of entries if and only if that is so |
| AggKeys.LonelyTag | openquake/calculators/post_risk.py:87-89 | one tag with a single value, not aggregated by, gives a position with a superfluous entry |
| AggKeys.PostEbrisk | openquake/calculators/post_risk.py:91-100 | each cell of the array is the sum of the losses of that type of the records of that event whose combination belongs to the key |
| AggKeys.OneRecord | openquake/calculators/post_risk.py:99-100 | a table with a single record gives its losses at its event and nothing elsewhere |
| AggKeys.PostEbriskAll | openquake/calculators/post_risk.py:185-197 | the arrays of all keys add up, cell by cell, to the losses of all records of the event |
| AggKeys.LossesAddUp | openquake/calculators/post_risk.py:92-100 | over all keys the accumulated losses of an event, of each type, are those of the whole event loss table |
| Ruptures.Datastore.Extend | openquake/calculators/event_based.py:139-154 | a batch is numbered after the ruptures stored so far and appended with its geometries; an empty one changes nothing |
| Ruptures.StoreAll | openquake/calculators/event_based.py:139-154 | any number of batches are stored in the order in which they come, each rupture with its geometry |
| Ruptures.LinksSurvive | openquake/commonlib/calc.py:271-282 | after sorting by serial and renumbering, numbers are 0..n-1 and each `geom_id` leads to the original geometry of its rupture |
| Ruptures.ImportRups | openquake/commonlib/calc.py:266-282 | the method that sorts by serial and renumbers keeps every rupture with its geometry |
| Ruptures.GetProxies | openquake/calculators/getters.py:503-515 | the proxies are the ruptures not below the minimum magnitude with the geometries that their links lead to |
| Ruptures.ProxiesAsSent | openquake/calculators/getters.py:503-515 | these are, up to order, the strong enough ruptures as the tasks sent them |
| Ruptures.StrongAre | openquake/calculators/getters.py:503-515 | those strong enough are the ones whose magnitude is not below the minimum, each as often as it occurs |
| Ruptures.ProxiesOfBlocks | openquake/calculators/getters.py:503-515 | however the ruptures are cut in blocks, the proxies of the blocks are together those of all ruptures |
| Indices.RunsTile | openquake/baselib/general.py:1234-1240 | the runs of equal integers follow each other and neighbours differ |
| Indices.GetIndices | openquake/baselib/general.py:1226-1240 | the dictionary has the integers of the list as keys, in the order of their first appearance, and for each its maximal stretches of positions, in order and complete |
| Indices.SortedIndex | openquake/baselib/general.py:1226-1240 | for sorted integers below n every key has one span, and there are n keys if and only if every integer occurs |
| Events.GetEidRlz | openquake/calculators/getters.py:429-440 | the associations of the ruptures of a task, in order; each number given for a rupture and a realization gives, as often as it is given, one event with that number after the first of the rupture, and with that realization |
| Events.GetEidsByRlz | openquake/hazardlib/source/rupture.py:721-735 | the numbers given for a rupture are those below its number of events, each once, as many for each realization as the histogram says, so that the sanity check passes |
| Events.TasksGiveAllEvents | openquake/commonlib/calc.py:303-313 | whatever the blocks and the order of the results, they are together the events of all ruptures |
| Events.FillEvents | openquake/commonlib/calc.py:292-314 | the fill loop writes every row of the table exactly once |
| Events.RunHoldsEvents | openquake/commonlib/calc.py:317-331 | after sorting, the run of a rupture holds exactly its events |
| Events.RunHoldsGiven | openquake/commonlib/calc.py:310-317 | before the events are numbered, the run of a rupture has the numbers given with each realization, as often as they are given |
| Events.RunSpans | openquake/commonlib/calc.py:331-334 | it starts after as many events as the earlier ruptures have and is as long as its own number |
| Events.SanityCheckIff | openquake/commonlib/calc.py:318-320 | the events have no number and rupture twice if and only if no rupture has an event number twice |
| Events.CountPairs | openquake/commonlib/calc.py:318-320 | counting the distinct pairs of numbers decides whether a pair occurs twice |
| Events.SaveEvents | openquake/commonlib/calc.py:284-334 | the sanity check fails exactly when a number is given twice for a rupture, and then nothing is saved; else the table has a row per occurrence, numbered; for each rupture `[e0, e1)` has `n_occ` rows, exactly those with its number, with as many rows of each realization as numbers are given with it, and the spans tile the table |
| Events.SpanForEachIff | openquake/commonlib/calc.py:331-334 | there is one span for each rupture if and only if each has an event |
| RuptureGetters.GenRuptureGetters | openquake/calculators/getters.py:382-401 | the blocks are the greedy split of the ruptures sorted by group, by numbers of events; they have ruptures of one group each and are together all the ruptures, if all occur; it fails without ruptures |
| RuptureGetters.StoreAndRead | openquake/calculators/getters.py:382-401 | from the batches that the tasks send, through storing, sorting, renumbering and cutting, to the proxies of each block: the ruptures not below the minimum magnitude come back as often as they were sent, each with its own geometry, and no others |
| RuptureGetters.AssociateEvents | openquake/commonlib/calc.py:303-309 | below 100,000 events the results come block by block, else from a Starmap under any schedule; they are the same up to order |
| RuptureGetters.ImportEvents | openquake/commonlib/calc.py:284-334 | cutting, associating in process or in tasks, filling, checking, sorting and indexing together |
| NodeCompiler.Output.GenerateElem | openquake/baselib/node.py:677-689 | the recursive generator appends the program of the node at its level |
| NodeCompiler.ProgramBuildsTree | openquake/baselib/node.py:673-696 | executing the program, with one variable per level reused for all nodes of that level, never fails and builds elements that read back as the node without the texts of its branches |
| NodeCompiler.NodeToElem | openquake/baselib/node.py:673-696 | the whole conversion |
| NodeCompiler.StrippedSameIff | openquake/baselib/node.py:656-669 | reading back always gives a node whose branches have no text, the same node if and only if that was so |
| NodeCompiler.RoundTripIff | openquake/baselib/node.py:656-696 | the round trip is the identity if and only if no branch has a text |
| NodeCompiler.BranchTextLost | openquake/baselib/node.py:686-688 | a text beside a child is lost |
| XmlStream.StreamingXMLWriter.Serialize | openquake/baselib/node.py:297-322 | the writer emits the stream of the node at its level and restores the indentation level |
| XmlStream.ValidatingXmlParser.StartElement | openquake/baselib/node.py:874-886 | an element is opened; at the element to stop at all open ones are closed, innermost first |
| XmlStream.ValidatingXmlParser.EndElement | openquake/baselib/node.py:888-894 | the last open element is closed and appended to its parent |
| XmlStream.ValidatingXmlParser.CharData | openquake/baselib/node.py:896-902 | text is appended to the last open element |
| XmlStream.ValidatingXmlParser.Parse | openquake/baselib/node.py:848-872 | the parser makes of a stream what its handlers make of the tokens one after another |
| XmlStream.FeedInner | openquake/baselib/node.py:874-902 | a written node is parsed as one node, whatever is open around it |
| XmlStream.RoundTrip | openquake/baselib/node.py:274-322 | parsing what was written gives the same tags, attributes, children and stripped texts and leaves the stack empty |
| XmlStream.StripIff | openquake/baselib/node.py:269 | stripping gives the one text that neither begins nor ends with a white space character of Python and is the given text but for such characters around it |
| XmlStream.TextsComeBack | openquake/baselib/node.py:297-322 | what is read has the tags, attributes and children written, and the same texts but for white space around them; texts that begin and end with printed characters come back character by character |
| XmlStream.StopGivesPrefix | openquake/baselib/node.py:883-886 | with an element to stop at, the result is the tree cut at the first such element, that element being empty |
| XmlStream.PrefixOfDocument | openquake/baselib/node.py:883-886 | the tags of that tree are the tags of the document up to and with the first one to stop at |
| Damage.ScenarioDamage.AddDamage | openquake/calculators/scenario_damage.py:109 | the damage of an event and loss type grows, starting from zero, and no other |
| Damage.ScenarioDamage.AddAsset | openquake/calculators/scenario_damage.py:104-113 | the distributions of an asset are added to their events, those without damage being skipped without effect, and their total is recorded with the events that have none |
| Damage.ScenarioDamage.Run | openquake/calculators/scenario_damage.py:88-113 | the nested loops accumulate for every event and loss type the damages of all assets, and the totals of all assets |
| DamageCells.DamageStates | openquake/calculators/scenario_damage.py:104-109 | the damage of an event has, for each loss type and damage state, the sum of the buildings that the distributions of that event put in that state |
| DamageCells.OutEntries | openquake/calculators/scenario_damage.py:110-113 | there is one entry for each loss type and asset, in order, with the sums of its distributions by damage state and the undamaged buildings of the events without one |
| DamageTotals.TotalSums | openquake/calculators/scenario_damage.py:110-112 | the total of an asset sums to its number times the number of events |
| DamageTotals.DamageByEvent | openquake/calculators/scenario_damage.py:212-221 | every row of the array is the accumulated damage with the rest of the portfolio undamaged |
| DamageTotals.NoNegativeNoDamage | openquake/calculators/scenario_damage.py:212-221 | each row sums to the portfolio and its first number is not negative, when every asset is seen once per realization |
| DamageTotals.TwoWaysAgree | openquake/calculators/scenario_damage.py:88-113 | for every damage state, summing the rows of a realization's events equals summing its asset totals |
| DamageTotals.DamagesAddUp | openquake/calculators/scenario_damage.py:162-169 | the damages of two tasks add up to those of their outputs together |
| DamageTotals.ReducedComputes | openquake/calculators/scenario_damage.py:162-169 | reducing the results of any number of tasks gives the damages and the asset totals of all their outputs together |
| DamageTotals.TwoWaysAgreeUnderAnySchedule | openquake/calculators/scenario_damage.py:88-113 | under any schedule the appended asset totals are those of all outputs up to order, and both sums agree in every damage state |

## Left out

- Transport and storage: sockets, process pools, pickling, the HDF5 files and the database log; messages and tables are sequences, maps and arrays.
- `OQ_TASK_NO`, worker exceptions, send failures, memory warnings, the performance data of the tasks and the log output: they alter or end a run outside of what is stated here.
- Rounding of floating point numbers and the width of integers, with the overflow checks of the numbers of events and sites.
- `WeightedSequence.__setitem__`, `__delitem__` and `merge`, which the splitters do not use.
- The sort of `block_splitter` by decreasing weight is done by its callers in the model; ties are in any order.
- The text form of the aggregation keys and its parsing; the order of the keys is any total order.
- WorkSplit.SplitTask: the elapsed time is a parameter; what it covers is stated for weights that are not negative.
- StarmapLoop.SafelyCall: a result that cannot be sent is replaced by an error in the source; sends never fail here.
- StarmapLoop.Starmap.Submit: the early return for tasks other than `OQ_TASK_NO`, a setting for debugging, is left out.
- Reduce.AccumDict.IAdd: lists are values, so that the sharing of a list between two dictionaries is not captured.
- Disaggregation.BuildMatrix: all operations act separately on the probability levels and realizations, which are left out of the arrays.
- Disaggregation.Accumulator.Collect: the matrix that a task disaggregates is a parameter, not computed from ruptures.
- The warnings about large or small probabilities and the hazard maps used for them in `save_disagg_results`, and the `_disagg_trt` table.
- GmfCurves.CurveShape: the number q stands for exp(-1 / ses_per_logic_tree_path); that the exponential of a multiple is a power is taken as its definition.
- GmfCurves.Accumulator.AggDicts: the text form of the keys of the results and the rows of ground motions saved beside them are left out.
- HazardMaps.ComputeHazardMaps: the reshaping of a single curve or probability is left out; for a curve that increases somewhere, the segment found is the last one whose abscissa is not above the point, and a binary search may find another.
- Events.SaveEvents: the overflow checks are left out; every rupture stored occurs at least once and `get_eids_by_rlz` gives it as many events as that; both are required here, as are the years and ses numbers left out.
- RuptureGetters.GenRuptureGetters: the realizations of the groups and the slices of the table of ruptures are left out.
- `RuptureGetter.get_rupdict`, which takes the geometry by the number of the rupture.
- NodeCompiler.NodeToElem: line numbers, lazy nodes, attribute names that clash with the parameter names of `Element`, and the text of the generated program are left out; the representation of a value is taken to evaluate to that value.
- XmlStream.RoundTrip: escaping, number formatting, namespaces, comments, the lexical form of tags and the normalisation of line ends, by which a parser reads a carriage return as a newline, are left out; `Expat` reports no character data outside of the root.
- XmlStream.ValidatingXmlParser.EndElement: the validators are empty, so texts and attributes are not converted.
- `node_to_dict`, `node_from_dict` and the other formats of nodes.
- Damage.ScenarioDamage.Run: the fractions and the random choices of `bin_ddd` enter as distributions that sum to the number of the asset; consequences and the `aed` table are left out.
- The averages over the events in `post_execute` and the statistics over realizations.
