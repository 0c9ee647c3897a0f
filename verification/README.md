# Profiler algorithms, modelled and proved

This project models the algorithms at the core of a profiler's conversion layer
and proves what they are for: duty-cycle tracking with an ordered set of active
spans, the replay of heap-simulator traces, the n-way merge and regrouping of
inference requests, the combination of many hosts' results, the grouping of DCN
messages into bursts, percentile sampling, the aggregation of op profiles, the
merging of memory breakdowns and the parallel read of an object in chunks.

Code that changes state is a class or a method with loops, proved against a
function that says what it computes; the theorems are about those functions and
about whole runs. `dafny verify dfyconfig.toml` checks everything.

## Layout

| files | content |
|---|---|
| `Collections` | sums, unions and concatenations |
| `Timespans`, `SpanSet` | spans, canonical form, merging, hints |
| `DutyCycleTracker`, `DutyCycleHistory`, `DutyCycleCombiner` | the tracker, its runs, chips |
| `HeapTrace`, `HeapSpec` | traces and the simulator as a function with all error paths |
| `HeapCycles` | when the recursion along canonical links ends |
| `HeapTheorems`, `HeapPeaks`, `HeapSpans`, `HeapDisplay`, `HeapErrors`, `HeapResults` | counts and live list, peak, lifetimes, shown buffers, failures, the whole report |
| `HeapSimulator` | the simulator in place, over linked buffers |
| `Heaps`, `NwayMerge` | the binary heap and the merge |
| `InferenceData`, `InferenceCombiner`, `InferenceStats`, `InferenceRegroup`, `InferencePipeline` | interning, databases, re-indexing, regrouping, end to end |
| `InferenceSampler` | percentile selection |
| `DcnEvents`, `DcnBursts`, `DcnTheorems`, `DcnBurstTheorems` | timelines, the burst state machine, its theorems |
| `DcnMessages`, `DcnBuckets`, `DcnProcessor` | validity and tensor cores, buckets, the processor from messages to bursts |
| `MemoryBreakdown` | both merges of memory accesses |
| `OpProfileTree`, `OpProfilePlaces`, `OpProfileBuilder`, `OpProfileTheorems` | where operations are accounted, the same read off the nodes, the builder, conservation |
| `ChunkedRead` | chunk arithmetic and the state machine of the tasks |

## Modelling decisions

- Integers are mathematical; 64-bit wrap-around is written out where the code
  relies on it (the negated size of an end event, the unsigned cast of a message
  count, the unsigned tensor-core number). Percentiles are exact reals.
- A span is a begin and a duration; the type itself is not part of the
  repository. Its widening yields the hull. A tracker has no total span until it
  includes one: the first span is taken over and later ones widen it, as the
  durations and idle times that the tests expect show
  (`xprof/convert/duty_cycle_tracker_test.cc:33-37` and `:80-83`). No test joins a
  tracker that was never used; here that changes nothing. What a default span, or
  an empty one that comes first, does to the total is up to the span type. Nothing
  about active spans depends on it.
- Cover is tracked at half points, so that empty spans, which the code would store
  too, are part of the statements about cover, order and canonical form; an empty
  span covers no time unit.
- Hash maps are iterated in an arbitrary order. The comparator of the merge is
  any strict weak order. Heap construction and the copy and two-way merge of the
  C++ library are written out as loops.
- The condition in `MergeOrInsert` accepts the end of the set as a hint for any
  span (`xprof/convert/duty_cycle_tracker.cc:33-35`). The set then puts the span in
  its order, but spans before the hint are not merged with it: `HintIsSound` says
  exactly which hints are right, and `EndHintCanFail` shows one that is not. Both
  callers only pass right ones, and all other accepted hints are right.
- A heap trace is well formed when each buffer is introduced at most once, a
  sharing names a buffer introduced before, and a buffer is freed at most once
  and after its introduction. Events on buffers the wrapper does not know are
  unrestricted. For all other traces the replay gives each error the code gives.
  The recursion along canonical links does not end on a cycle. `EndlessIffClosing`
  says when that happens: at the first sharing whose target's chain, read off the
  trace, comes to the sharer, unless an error has ended the run before.
- Requests are compared by their times only. What a request means is its model
  name, the names of its tensor patterns with their times, and its own times.
- DCN messages must be valid to become events, and valid ones have a duration. The
  theorems about bursts assume that each message ends after it starts, which
  `ValidMessagesLast` shows to hold unless a duration exceeds its timestamp. What
  start such a message gets is up to operand types that are not part of the
  repository (`xprof/convert/dcn_utils.cc:71-76` stores the difference in an unsigned
  64-bit field). That it wraps around is an assumption, spelled out as `StartWraps`;
  only the converse and the example rest on it. Events with equal timestamps stay in the
  order of their arrival, but the theorems about bursts hold for any order of them.
- Burst managers are kept by value in the maps of the processor, as in the source, and
  copied out and back when they run. A new one has no bursts and no latency; the state
  of its active burst is not initialised, and `UninitialisedIsUnread` shows that no run
  depends on it.
- The map that says which buffer is shown for a root is said to name the buffer that
  currently uses the memory (`xprof/convert/hlo_proto_to_memory_visualization_utils.cc:722-724`).
  It names the latest buffer that revived the memory, which uses it until it is freed;
  `ShownUsesMemory` gives the exact condition and `FreedBufferIsShown` traces that
  violate it.
- The library sort of a host's requests is any function that yields a sorted
  permutation; the order of equal durations is free.
- Nodes of an op profile are numbers in order of creation. A ghost key says which
  program, path, category, name or operation a node stands for. The root's time
  exceeds that of its children by the own time of all operations with children
  when nothing is grouped by program, and otherwise by that of the idle ones; a
  program's by that of its own.
- The map of program names holds them with the program's number, as the library
  function makes them of the two. A provenance string comes already split; an empty
  one is told apart from one that splits into nothing.
- The chunk tasks take atomic steps: checking the status, opening, receiving some
  bytes, finishing, reporting. A read that succeeds has delivered exactly the
  bytes of its chunk; one that fails may have left anything in its chunk.

## Model

| member | source | states |
|---|---|---|
| `Timespans.CanonicalIsUnique` | xprof/convert/duty_cycle_tracker.cc:31-63 | two lists of spans whose ends lie strictly below the next begin and that cover the same points are the same list |
| `Timespans.CanonicalMeasure` | xprof/convert/duty_cycle_tracker.cc:88-95 | the durations of such a list add up to the number of time units it covers |
| `SpanSet.MergeCovers` | xprof/convert/duty_cycle_tracker.cc:31-63 | merging a span covers exactly what was covered before and the span itself |
| `SpanSet.MergeIsCanonical` | xprof/convert/duty_cycle_tracker.cc:31-63 | merging keeps the spans ordered and strictly apart |
| `SpanSet.HintIsSound` | xprof/convert/duty_cycle_tracker.cc:31-40 | a merge that starts at a hint gives the result of a full scan if and only if no span before the hint meets the new one, other than the new one itself |
| `SpanSet.AcceptedHintsAreSound` | xprof/convert/duty_cycle_tracker.cc:33-40 | every hint the check accepts is right, but for the end of the set |
| `SpanSet.EndHintCanServe` | xprof/convert/duty_cycle_tracker.cc:59-62 | with the end as hint a span below all others still goes to its place in the ordered set |
| `SpanSet.EndHintCanFail` | xprof/convert/duty_cycle_tracker.cc:33-40 | with the end as hint a span inside a stored one is stored beside it |
| `SpanSet.MergeAllCovers` | xprof/convert/duty_cycle_tracker.cc:83-85 | merging many spans covers exactly the union |
| `SpanSet.MergeAgain` | xprof/convert/duty_cycle_tracker.cc:42-46 | a span that is already included changes nothing |
| `SpanSet.BeforeIsOrder` | xprof/convert/duty_cycle_tracker.h:41-51 | the order of the set is strict and total; a span comes before all that begin later and all that it includes |
| `SpanSet.LowerBound` | xprof/convert/duty_cycle_tracker.cc:72-82 | the first span that does not come before the new one in the order of the set |
| `DutyCycle.FirstHint` | xprof/convert/duty_cycle_tracker.cc:72-82 | one below the lower bound is a sound hint: the last span that comes before the new one, if there is any |
| `DutyCycle.MergeAt` | xprof/convert/duty_cycle_tracker.cc:48-62 | erasing the run between the two loop ends and inserting one joined span into the ordered set is what merging from the hint means |
| `DutyCycle.NextHint` | xprof/convert/duty_cycle_tracker.cc:83-85 | the position an interval was merged at is a sound hint for the next interval of the other tracker |
| `DutyCycle.DutyCycleTracker.MergeOrInsert` | xprof/convert/duty_cycle_tracker.cc:31-63 | for any hint, the in-place erase and ordered insert has the effect of the merge from the hint, and returns the position of a span that includes the new one |
| `DutyCycle.DutyCycleTracker.AddInterval` | xprof/convert/duty_cycle_tracker.cc:65-75 | the tracker keeps its invariant; an active span is merged as by a full scan, and every span, idle or not, is included in the total |
| `DutyCycle.DutyCycleTracker.Union` | xprof/convert/duty_cycle_tracker.cc:77-86 | the union with carried hints equals adding the other tracker's spans one by one from scratch, also when the other tracker is this one |
| `DutyCycle.DutyCycleTracker.GetActiveTimePs` | xprof/convert/duty_cycle_tracker.cc:88-95 | the loop returns the number of time units covered |
| `DutyCycle.DutyCycleTracker.GetIdleTimePs` | xprof/convert/duty_cycle_tracker.cc:97-99 | the number of units of the total span in which nothing is active; with the active ones they make up the duration, without underflow |
| `DutyCycle.ActiveFitsInTotal` | xprof/convert/duty_cycle_tracker.cc:65-99 | the active units lie in the total span, and with the idle ones make up its duration |
| `DutyCycleHistory.RunCovers` | xprof/convert/duty_cycle_tracker.cc:65-86 | after any calls the spans are canonical and cover exactly the active spans ever added |
| `DutyCycleHistory.TotalIsHull` | xprof/convert/duty_cycle_tracker.cc:67-78 | the total runs from the earliest begin to the latest end of all spans, active or idle, of all calls, and there is none before any |
| `DutyCycleHistory.IdleTimeCountsGaps` | xprof/convert/duty_cycle_tracker.cc:97-99 | idle time counts the units between that begin and that end in which no active span lies |
| `DutyCycleHistory.GapBetweenTwoSpans` | xprof/convert/duty_cycle_tracker_test.cc:33-37 | two spans with a gap give a total that starts at the first |
| `DutyCycleHistory.JoiningUnusedChangesNothing` | xprof/convert/duty_cycle_tracker.cc:77-86 | a union with a tracker that was never used changes nothing, and a union into one copies |
| `DutyCycleHistory.OrderDoesNotMatter` | xprof/convert/duty_cycle_tracker.cc:65-86 | two runs with the same calls, in any order and however often repeated, give the same tracker |
| `DutyCycleHistory.JoinReplays` | xprof/convert/duty_cycle_tracker.cc:77-86 | a union with a tracker equals replaying the calls that tracker has seen |
| `DutyCycleHistory.ActiveTimeCountsAddedUnits` | xprof/convert/duty_cycle_tracker.cc:88-95 | the active time of a run is the measure of the union of all active spans |
| `DutyCycleCombining.ChipIsARun` | xprof/convert/duty_cycle_combiner.h:33-35 | a chip has a tracker exactly when some core was combined into it, and that tracker is the run of those cores |
| `DutyCycleCombining.TotalIsSumOfUnions` | xprof/convert/duty_cycle_combiner.h:44-50 | the chips' active times add up, chip by chip, to the measure of the union of the chip's cores |
| `DutyCycleCombining.TotalIdleIsSumOfGaps` | xprof/convert/duty_cycle_combiner.h:53-59 | the chips' idle times add up to the gaps that all cores of a chip leave between the earliest begin and the latest end of their totals |
| `DutyCycleCombining.ChipOrderDoesNotMatter` | xprof/convert/duty_cycle_combiner.h:33-35 | the order of CombineCore calls does not matter |
| `DutyCycleCombining.DutyCycleCombiner.CombineCore` | xprof/convert/duty_cycle_combiner.h:33-35 | the chip's tracker, made on demand, becomes its union with the core; no other chip changes |
| `DutyCycleCombining.DutyCycleCombiner.CombineChip` | xprof/convert/duty_cycle_combiner.h:38-41 | active time grows by the units covered, idle time by those of the total span that are not; no tracker changes |
| `DutyCycleCombining.DutyCycleCombiner.GetTotalActiveTimePs` | xprof/convert/duty_cycle_combiner.h:44-50 | the loop over the trackers, in any order, adds up all active units |
| `DutyCycleCombining.DutyCycleCombiner.GetTotalIdleTimePs` | xprof/convert/duty_cycle_combiner.h:53-59 | likewise for idle time |
| `HeapTrace.RootsOf` | xprof/convert/hlo_proto_to_memory_visualization_utils.cc:226-232 | in a well-formed trace every buffer has a root that is its own root, and only introduced buffers are shared |
| `HeapTrace.UsersStep` | xprof/convert/hlo_proto_to_memory_visualization_utils.cc:763-810 | how one event changes the set of open buffers that use a root's memory |
| `HeapSpec.FollowIsUnique` | xprof/convert/hlo_proto_to_memory_visualization_utils.cc:218-232 | a canonical chain that ends at all ends at one root |
| `HeapCycles.LinkEndsUnlessClosing` | xprof/convert/hlo_proto_to_memory_visualization_utils.cc:226-232 | when all chains end, the target's chain runs forever after a link if and only if it already comes to the linked buffer; otherwise all chains still end |
| `HeapCycles.StepEndsUnlessClosing` | xprof/convert/hlo_proto_to_memory_visualization_utils.cc:763-810 | one event runs forever if and only if it is such a sharing |
| `HeapCycles.EndlessIffClosing` | xprof/convert/hlo_proto_to_memory_visualization_utils.cc:756-815 | a trace runs forever if and only if some sharing closes a cycle, by the links the trace has made, and no error comes before |
| `HeapCycles.TwoSharingsNeverEnd` | xprof/convert/hlo_proto_to_memory_visualization_utils.cc:787-794 | two buffers that come to share with each other |
| `HeapTheorems.LinkRoots` | xprof/convert/hlo_proto_to_memory_visualization_utils.cc:226-229 | linking a buffer nobody points at moves its own root and no other |
| `HeapTheorems.ReplayMatches` | xprof/convert/hlo_proto_to_memory_visualization_utils.cc:756-815 | at every step of a well-formed trace no event fails or runs forever, every chain ends at the root the trace names, every root counts its open users, the live list holds exactly the roots in use and the heap is their sum |
| `HeapPeaks.PeakIsMaximum` | xprof/convert/hlo_proto_to_memory_visualization_utils.cc:630-640 | a well-formed trace fails exactly when its known buffers do not come from one allocation; otherwise the peak is the maximum of the timeline, first reached just after the peak position, and the snapshot adds up to both recorded peaks |
| `HeapPeaks.ReplaySees` | xprof/convert/hlo_proto_to_memory_visualization_utils.cc:616-621 | the buffers and allocations seen are those of the known buffers the events name |
| `HeapSpans.ReplaySpans` | xprof/convert/hlo_proto_to_memory_visualization_utils.cc:642-665 | an allocated buffer lives from its ALLOC to the last event that emptied its sharing class, a reviving sharer from its SHARE_WITH to its own FREE, either to the last event if that never comes; other buffers get no span |
| `HeapSpans.ReplayGivesLifetimes` | xprof/convert/hlo_proto_to_memory_visualization_utils.cc:642-665 | in every span of a whole trace the start is not after the end and the end is before the number of events; memory never emptied, and a reviving sharer never freed, end at the last event, one less than that number |
| `HeapDisplay.ReplayDisplays` | xprof/convert/hlo_proto_to_memory_visualization_utils.cc:790-805 | the map of shown buffers leads from each root that was ever revived to its latest reviver, and its snapshot does so for the events up to the peak |
| `HeapDisplay.ShownUsesMemory` | xprof/convert/hlo_proto_to_memory_visualization_utils.cc:722-726 | the buffer shown for memory in use is one of its users if and only if it has not been freed |
| `HeapDisplay.FreedBufferIsShown` | xprof/convert/hlo_proto_to_memory_visualization_utils.cc:787-805 | memory given back and then shared twice: once the first sharer is freed it is still shown, though the second uses the memory |
| `HeapDisplay.FiveEventsShowFreed` | xprof/convert/hlo_proto_to_memory_visualization_utils.cc:787-805 | five events that end like that |
| `HeapErrors.FreeFailsIffUnused` | xprof/convert/hlo_proto_to_memory_visualization_utils.cc:769-786 | after any well-formed events, freeing a known buffer is the multiple-free error if and only if no open buffer uses its memory, and no error otherwise |
| `HeapErrors.UnknownKindFails` | xprof/convert/hlo_proto_to_memory_visualization_utils.cc:811-814 | an event of another kind on a known buffer is the unhandled-kind error |
| `HeapErrors.FailureStays` | xprof/convert/hlo_proto_to_memory_visualization_utils.cc:756-815 | an error ends the replay: whatever follows, the outcome is that error |
| `HeapErrors.SmallerAllocationGoesNegative` | xprof/convert/hlo_proto_to_memory_visualization_utils.cc:655-659 | sharing with a larger buffer, freeing, allocating and freeing the sharer is the negative-heap error |
| `HeapResults.ReplayReports` | xprof/convert/hlo_proto_to_memory_visualization_utils.cc:611-676 | both timelines record the memory of the roots in use after every prefix of the trace, and the peak snapshot lists the roots in use just after the peak position |
| `HeapResults.PeakShowsUsers` | xprof/convert/hlo_proto_to_memory_visualization_utils.cc:843-857 | the buffer that the peak snapshot shows for a root uses its memory at the peak if and only if it has not been freed by then |
| `HeapResults.WellFormedTraceIsReported` | xprof/convert/hlo_proto_to_memory_visualization_utils.cc:733-818 | all of these together for the whole trace, including the final entry |
| `HeapResults.ProcessWellFormedTrace` | xprof/convert/hlo_proto_to_memory_visualization_utils.cc:733-818 | the imperative simulator over linked buffers delivers that report, or the single-allocation error exactly when it is due |
| `HeapSimulator.LogicalBuffer.Inc` | xprof/convert/hlo_proto_to_memory_visualization_utils.cc:218-221 | the recursion counts one reference at the end of the chain and changes nothing else |
| `HeapSimulator.LogicalBuffer.Dec` | xprof/convert/hlo_proto_to_memory_visualization_utils.cc:222-225 | likewise drops one |
| `HeapSimulator.LogicalBuffer.GetCanonicalBuffer` | xprof/convert/hlo_proto_to_memory_visualization_utils.cc:230-232 | returns the buffer at the end of the chain |
| `HeapSimulator.HeapSimulatorStats.UpdateOnSimulatorEvent` | xprof/convert/hlo_proto_to_memory_visualization_utils.cc:611-621 | records heap sizes before the event and what a known buffer shows |
| `HeapSimulator.HeapSimulatorStats.IncreaseMemoryUsage` | xprof/convert/hlo_proto_to_memory_visualization_utils.cc:624-648 | the buffer joins the live list, a new peak is taken with its snapshot, and the span starts if asked for |
| `HeapSimulator.HeapSimulatorStats.DecreaseMemoryUsage` | xprof/convert/hlo_proto_to_memory_visualization_utils.cc:651-667 | the buffer leaves the live list and its span ends, or the heap would be negative |
| `HeapSimulator.HeapSimulatorStats.FinalizeMemoryUsage` | xprof/convert/hlo_proto_to_memory_visualization_utils.cc:670-684 | appends the final sizes and refuses any number of allocations but one |
| `HeapSimulator.HandleFree` | xprof/convert/hlo_proto_to_memory_visualization_utils.cc:769-786 | a FREE with its double-free and negative-heap errors |
| `HeapSimulator.HandleShareWith` | xprof/convert/hlo_proto_to_memory_visualization_utils.cc:787-810 | a SHARE_WITH, including the revival of freed memory |
| `HeapSimulator.ProcessHeapSimulatorTrace` | xprof/convert/hlo_proto_to_memory_visualization_utils.cc:755-817 | on any trace that closes no cycle of links before an error, the loop has the outcome of the replay, errors included |
| `Heaps.SiftDownPermutes` | xprof/convert/inference_stats_grouping.cc:46-63 | sifting down loses and duplicates nothing |
| `Heaps.SiftDownRestores` | xprof/convert/inference_stats_grouping.cc:46-63 | sifting down restores the heap order when only the hole violates it |
| `Heaps.TopIsAboveAll` | xprof/convert/inference_stats_grouping.cc:93-100 | the top of a heap is above every element |
| `Heaps.PushDownHeap` | xprof/convert/inference_stats_grouping.cc:46-63 | the in-place loop sifts down and leaves the rest of the array alone |
| `Heaps.PushRootHeap` | xprof/convert/inference_stats_grouping.cc:66-68 | pushing the root down makes a heap of what was one but for its root |
| `NwayMerge.InterleavingPermutes` | xprof/convert/inference_stats_grouping.cc:71-117 | an interleaving holds the same elements as its sources together |
| `NwayMerge.PopStep` | xprof/convert/inference_stats_grouping.cc:101-110 | popping the top keeps the output sorted and an interleaving, and the cursors those of the unfinished sources |
| `NwayMerge.PopUntilExhausted` | xprof/convert/inference_stats_grouping.cc:108-110 | the inner loop ends with the top exhausted and the rest of the heap intact |
| `NwayMerge.ReplaceTop` | xprof/convert/inference_stats_grouping.cc:111-112 | the last cursor takes the exhausted one's place and the heap is repaired |
| `NwayMerge.MergeTwo` | xprof/convert/inference_stats_grouping.cc:115-116 | the tail merge of the last two sources completes the interleaving and prefers the first among equals |
| `NwayMerge.Merge` | xprof/convert/inference_stats_grouping.cc:71-117 | for any number of sorted sources the output is sorted and an interleaving of the sources, each in its own order; of two sources, an element of the second comes before a later one of the first only if it is less |
| `InferenceRegroup.SelectKeepsOrder` | xprof/convert/inference_stats_grouping.cc:195-197 | what is selected for a model from a sorted list is sorted |
| `InferenceRegroup.GroupHost` | xprof/convert/inference_stats_grouping.cc:181-193 | one pass puts each request of a host under its model, drops index -1, and puts all under model zero when there are no model names |
| `InferenceRegroup.RegroupDataByModelId` | xprof/convert/inference_stats_grouping.cc:160-212 | each model gets a sorted interleaving of its requests of all hosts |
| `InferenceData.AssignIndexToModelId` | xprof/convert/inference_stats.cc:180-190 | ids and their map stay inverse, old indices stay, a new index names the model, and an empty name has index -1 |
| `InferenceData.PatternInterner.GetTensorPatternIndex` | xprof/convert/inference_stats.cc:1131-1140 | every index handed out names its pattern, now and later |
| `InferenceData.PatternInterner.GenerateDatabase` | xprof/convert/inference_stats.cc:1190-1201 | the database lists the interned patterns by index, all distinct |
| `InferenceCombiner.CombineModelIdDatabases` | xprof/convert/inference_stats_combiner.cc:32-61 | ids and map stay inverse, nothing moves, the names are the union, and an update is needed exactly when some name of the source was missing or had another index |
| `InferenceCombiner.CombineTensorPatternDatabase` | xprof/convert/inference_stats_combiner.cc:67-89 | patterns stay distinct, nothing moves, the patterns are the union, and an update is needed exactly when the destination was not empty and the source not a prefix of it |
| `InferenceCombiner.UpdatedTensor` | xprof/convert/inference_stats_combiner.cc:91-104 | a rewritten tensor event names the same pattern |
| `InferenceCombiner.KeptTensor` | xprof/convert/inference_stats_combiner.cc:67-89 | without need for an update the old index names the same pattern |
| `InferenceCombiner.KeptModel` | xprof/convert/inference_stats_combiner.cc:32-61 | without need for an update the old index names the same model |
| `InferenceStatistics.UpdatedRequest` | xprof/convert/inference_stats_combiner.cc:132-158 | a rewritten request says the same: model name, patterns, times |
| `InferenceStatistics.GrownRequest` | xprof/convert/inference_stats_combiner.cc:107-131 | growing the databases changes the meaning of no request combined earlier |
| `InferenceStatistics.BatchKeepsMeaning` | xprof/convert/inference_stats_combiner.cc:160-168 | a batch keeps its meaning if and only if it has a tensor event or no pattern update is needed; otherwise an event is made up for it |
| `InferenceStatistics.DuplicateHostKeepsModel` | xprof/convert/inference_stats_combiner.cc:127-158 | when a host id is combined twice, a request already there keeps its model if and only if model indices need no update or its own names the same model in the new source too |
| `InferenceStatistics.BatchEventIsMadeUp` | xprof/convert/inference_stats_combiner.cc:160-168 | a batch without a tensor event that comes out with one |
| `InferenceStatistics.BatchIsCombined` | xprof/convert/inference_stats_combiner.cc:160-168 | for every source: a batch keeps its id and the pattern its event names; without an event it gets one that names the source's first pattern exactly when patterns need an update |
| `InferenceStatistics.DuplicateHostKeepsPattern` | xprof/convert/inference_stats_combiner.cc:150-156 | likewise a tensor event already there keeps its pattern if and only if pattern indices need no update or its own names the same pattern in the new source too |
| `InferenceStatistics.DuplicateHostKeepsRequest` | xprof/convert/inference_stats_combiner.cc:127-158 | so the whole request keeps its meaning if and only if the new source agrees on all its indices that are rewritten; other indices may be anything |
| `InferenceStatistics.DuplicateHostKeepsRequests` | xprof/convert/inference_stats_combiner.cc:127-158 | all stored requests of the host still say what its first result said if and only if that holds for each of them |
| `InferenceStatistics.DuplicateHostRewritesBatch` | xprof/convert/inference_stats_combiner.cc:160-168 | a batch of a host that comes again is treated as a batch of the new source would be |
| `InferenceStatistics.DuplicateHostKeepsBatch` | xprof/convert/inference_stats_combiner.cc:160-168 | it still says what the first result made it say if and only if the new source names the same pattern at its index, or no update is needed |
| `InferenceStatistics.RewrittenIsRight` | xprof/convert/inference_stats_combiner.cc:127-168 | all requests and batches of such a host stay right if and only if the new source agrees on all of them |
| `InferenceStatistics.DuplicateHostCanMisplace` | xprof/convert/inference_stats_combiner.cc:127-158 | a request of one model that comes to belong to another, with another pattern |
| `InferenceStatistics.InferenceStats.CombineDatabases` | xprof/convert/inference_stats_combiner.cc:107-126 | databases are combined before any request is touched and every stored request keeps its meaning |
| `InferenceStatistics.InferenceStats.CombineInferenceStatsResult` | xprof/convert/inference_stats_combiner.cc:107-170 | every stored request of every host still says what its own host's result said, and its batches are those of the result, in order, with the same patterns, and with an event that names the source's first pattern where one had to be made up; for a host id that comes again this holds if and only if the new source agrees on all indices that are rewritten, and what becomes of its batches is stated; other hosts do not change |
| `InferencePipeline.SelectedByName` | xprof/convert/inference_stats_grouping.cc:183-190 | what is stored under a model are the requests whose own host named that model |
| `InferencePipeline.RegroupedHoldsContributions` | xprof/convert/inference_stats_grouping.cc:160-212 | one regrouped list holds, by meaning, the union of what the hosts contribute to the model |
| `InferencePipeline.RegroupInferenceStatsByModel` | xprof/convert/inference_stats_grouping.cc:417-473 | all models together; the fake model ALL appears exactly when there was none; the hosts are forgotten |
| `InferencePipeline.CombineHosts` | xprof/convert/inference_stats_combiner.cc:107-170 | folding hosts with distinct ids keeps all of that, and the model names are those of the hosts |
| `InferencePipeline.SortedContribution` | xprof/convert/inference_stats.cc:1347-1348 | sorting each host's requests changes nothing about what the hosts contribute to a model |
| `InferencePipeline.CombineAndRegroup` | xprof/convert/inference_stats_grouping.cc:417-473 | end to end, from unsorted requests and any sort: each model's list is sorted and holds exactly the requests of all hosts whose own model name is that model, with patterns and times; index -1 is dropped, and everything is one model when there are no names |
| `DcnEvents.SizesCancel` | xprof/convert/dcn_analysis.cc:138-144 | the sizes at both ends of a message cancel as 64-bit words |
| `DcnEvents.OpenIsNatural` | xprof/convert/dcn_analysis.cc:59-70 | along a timeline sorted by time, ties in any order, the number of open messages is never negative, and positive at a moment when one starts |
| `DcnEvents.OpenEndsAtZero` | xprof/convert/dcn_analysis.cc:89-95 | it is zero at the end |
| `DcnEvents.OpenMeansCovered` | xprof/convert/dcn_analysis.cc:66-95 | between two events messages are open exactly when some interval covers the moment |
| `DcnBursts.TrackStep` | xprof/convert/dcn_analysis.cc:61-96 | every step keeps: emitted bursts are the closed segments, the active one sums up the open part, the straggler ring holds its last ends |
| `DcnBursts.DcnBurstManager.CreateBursts` | xprof/convert/dcn_analysis.cc:59-97 | the loop has the effect of the run of the state machine |
| `DcnBursts.DcnBurstManager.ResetBurstState` | xprof/convert/dcn_analysis.cc:49-57 | resets everything but the stragglers |
| `DcnBursts.UninitialisedIsUnread` | xprof/convert/dcn_analysis.cc:59-60 | a run depends on nothing that a new manager leaves uninitialised, but for the straggler slots |
| `DcnBursts.NegativeCountShows` | xprof/convert/dcn_analysis.cc:84-86 | a negative number of open messages would show as a maximum of nearly 2^64 |
| `DcnBursts.ReadStragglers` | xprof/convert/dcn_analysis.cc:361-376 | an exporter reads the first slots, one for each message of the burst |
| `DcnTheorems.TimelineIsCutIntoBursts` | xprof/convert/dcn_analysis.cc:59-97 | the events of valid messages are cut into segments that are all closed, and each is a burst |
| `DcnTheorems.LatencyIsMeasure` | xprof/convert/dcn_analysis.cc:91-92 | the total latency is the measure of the union of the message intervals |
| `DcnTheorems.LatencyIsActiveTime` | xprof/convert/dcn_analysis.cc:91-92 | hence it is the active time a duty-cycle tracker reports for the same intervals |
| `DcnBurstTheorems.BurstsAreOrdered` | xprof/convert/dcn_analysis.cc:89-95 | bursts take time, follow each other and do not overlap |
| `DcnBurstTheorems.BurstsHoldAllMessages` | xprof/convert/dcn_analysis.cc:71-74 | message counts and bytes over all bursts are those of the messages |
| `DcnBurstTheorems.PeakIsTrueMaximum` | xprof/convert/dcn_analysis.cc:84-86 | the recorded maximum is the greatest number of messages open at any moment of the burst |
| `DcnBurstTheorems.StragglersAreLastEnds` | xprof/convert/dcn_analysis.cc:75-95 | the first min(4, n) slots of a burst of n messages are exactly the last that ended in it, and one ends with the burst |
| `DcnBurstTheorems.ExportStragglers` | xprof/convert/dcn_analysis.cc:361-376 | no slot an exporter reads is stale: each shows a message of the burst |
| `DcnMessages.ValidityIs` | xprof/convert/dcn_utils.cc:87-107 | each of the four kinds of message by its fields: one becomes events if and only if its collective has a name, both slices, both tensor cores and the size are set, its duration is not zero and its slices differ |
| `DcnMessages.ValidMessagesLast` | xprof/convert/dcn_utils.cc:71-107 | the messages that become events all end after they start when no valid one's duration exceeds its timestamp, and, if other starts wrap around, only then |
| `DcnMessages.ValidMessageLasts` | xprof/convert/dcn_utils.cc:71-76 | a valid message whose duration does not exceed its timestamp starts its duration before it ends; any other ends before it starts, if its start wraps around |
| `DcnMessages.FittingIsWellTimed` | xprof/convert/dcn_utils.cc:71-76 | a computed start that needs no wrap-around lies the duration, in nanoseconds, before the end, and only then |
| `DcnMessages.LongMessageWraps` | xprof/convert/dcn_utils.cc:71-76 | such a message, on the assumption that starts wrap around |
| `DcnMessages.FirstCores` | xprof/convert/dcn_analysis.cc:123-133 | messages for the first tensor cores go to those, or to every second one under megacore |
| `DcnMessages.CoresRepeat` | xprof/convert/dcn_analysis.cc:123-133 | and then the cores repeat |
| `DcnMessages.NegativeCores` | xprof/convert/dcn_analysis.cc:123-133 | a negative number goes where the unsigned number it wraps to goes |
| `DcnBuckets.BucketsPartition` | xprof/convert/dcn_analysis.cc:154-159 | the messages per tensor core and collective partition those of the host |
| `DcnBuckets.BucketHolds` | xprof/convert/dcn_analysis.cc:154-159 | a bucket holds exactly the messages with its collective's name whose destination maps to its tensor core |
| `DcnBuckets.InsertKeepsTimeline` | xprof/convert/dcn_analysis.cc:146-152 | inserting a message's two events leaves a timeline of the messages |
| `DcnBuckets.InsertKeepsArrival` | xprof/convert/dcn_analysis.cc:146-159 | it also leaves all events of one moment in the order in which their messages arrived, start before end |
| `DcnProcessor.DcnEventsProcessor.GenerateTimestampEvents` | xprof/convert/dcn_analysis.cc:135-160 | both events enter the host's timeline and that of the message's tensor core and collective |
| `DcnProcessor.DcnEventsProcessor.ProcessReceiveMessage` | xprof/convert/dcn_analysis.cc:258-266 | after any messages, the host's timeline holds exactly those that `DcnMessages.ValidityIs` calls valid, in order of time and then of arrival, and each tensor core and collective its own bucket |
| `DcnProcessor.DcnEventsProcessor.GenerateBursts` | xprof/convert/dcn_analysis.cc:241-252 | the host's manager runs over the host's timeline and every collective's manager, made on demand, over its own; no other manager changes |
| `DcnProcessor.DcnEventsProcessor.ProcessReceiveMessages` | xprof/convert/dcn_analysis.cc:254-270 | after a plane's messages and the first burst creation, the host's latency is the measure of the union of all valid messages, and its bursts hold all of them and their bytes; likewise each tensor core and collective for its own messages |
| `DcnProcessor.GeneratedDescribe` | xprof/convert/dcn_analysis.cc:241-252 | bursts created for the first time describe exactly the messages of the timelines |
| `DcnProcessor.CollectivesHoldHostTraffic` | xprof/convert/dcn_analysis.cc:241-252 | all tensor cores and collectives together hold as many messages and bytes as the host |
| `InferenceSampler.NothingBeyond` | xprof/convert/inference_stats_sampler.cc:236-242 | records from the first one beyond a range on add nothing to it |
| `InferenceSampler.SelectRange` | xprof/convert/inference_stats_sampler.cc:232-251 | a scan that starts late and breaks early selects the first ten of all records in the range, and the next one starts at the first record beyond it, or where this one did if there is none |
| `InferenceSampler.SelectByPercentile` | xprof/convert/inference_stats_sampler.cc:229-252 | resuming each scan where the last one broke off selects the same as filtering all records for each range |
| `InferenceSampler.SelectInternal` | xprof/convert/inference_stats_sampler.cc:213-254 | the records are returned in increasing order, the k-th of n with the number p such that p * n = 100 * k; all of up to sixty, and of more exactly those in one of the six ranges, with its bounds written out, that have fewer than ten records of the range before them |
| `InferenceSampler.MiddleIsSelected` | xprof/convert/inference_stats_sampler.cc:229-252 | of more than sixty records the one of index n / 2, rounded up, is selected |
| `InferenceSampler.ChosenAreSelected` | xprof/convert/inference_stats_sampler.cc:229-252 | the indices the scans choose are exactly those that the numbers select |
| `InferenceSampler.ChosenIncrease` | xprof/convert/inference_stats_sampler.cc:229-252 | the selected indices strictly increase across ranges, at most ten for each |
| `InferenceSampler.SelectionIsBounded` | xprof/convert/inference_stats_sampler.cc:181-190 | for the six wanted percentiles that makes at most sixty |
| `InferenceSampler.RangeIsARun` | xprof/convert/inference_stats_sampler.cc:200-211 | the records in one range are neighbours |
| `MemoryBreakdown.MergeAddsBytes` | xprof/convert/op_metrics_db_combiner.cc:106-132 | merging adds the bytes under every key, whichever entry grows |
| `MemoryBreakdown.MergeOrderDoesNotMatter` | xprof/convert/op_metrics_db_combiner.cc:106-132 | any order of folding, by either merge, gives the same bytes under every key |
| `MemoryBreakdown.MergeLayout` | xprof/convert/op_profile_builder.cc:319-342 | either merge grows entries in place and appends the same new entries in order of appearance |
| `MemoryBreakdown.HashMergeIsScanMerge` | xprof/convert/op_metrics_db_combiner.cc:106-132 | both merges give the same sequence if and only if every key the destination holds several times gains no bytes |
| `MemoryBreakdown.DistinctMergesAgree` | xprof/convert/op_profile_builder.cc:319-342 | so they agree when the destination's keys are distinct |
| `MemoryBreakdown.CombineMemoryAccessedBreakdown` | xprof/convert/op_metrics_db_combiner.cc:106-132 | the loop over the pointer map has the effect of the merge into the last entry of a key |
| `MemoryBreakdown.CombineMemoryAccessed` | xprof/convert/op_profile_builder.cc:319-342 | the nested scan has the effect of the merge into the first entry of a key |
| `OpProfileTree.NodeIsSumOfChildren` | xprof/convert/op_profile_builder.cc:690-731 | every quantity of a node is the sum over its children and of what stays with operations that have their place at the node |
| `OpProfileTree.QuantitiesAreConserved` | xprof/convert/op_profile_builder.cc:374-393 | flops, bytes, stalls and memory accesses are conserved at every node that is not a leaf, occurrences at every group |
| `OpProfileTree.TimeExceedsByParents` | xprof/convert/op_profile_builder.cc:374-379 | the time of a node exceeds that of its children by exactly the own time of the operations with children that end there |
| `OpProfileTree.TopNodesAccount` | xprof/convert/op_profile_builder.cc:690-698 | the root accounts for every operation; a program for its own that are not idle, if and only if operations are grouped by program or by provenance |
| `OpProfileTree.ProvenanceNodeAccounts` | xprof/convert/op_profile_builder.cc:611-633 | a provenance node accounts for exactly the childless operations of its program whose path begins with the node's |
| `OpProfileTree.CategoryAccounts` | xprof/convert/op_profile_builder.cc:537-563 | a category accounts for exactly the childless operations of that category at its place |
| `OpProfileTree.DeduplicatedAccounts` | xprof/convert/op_profile_builder.cc:494-507 | a group of duplicates accounts for exactly the childless operations of its category with its name |
| `OpProfilePlaces.PlaceIsRight` | xprof/convert/op_profile_builder.cc:690-731 | for every node, grouping and operation: the node is on the operation's path if and only if its key, read on its own, says so |
| `OpProfilePlaces.NodesAreCalledFor` | xprof/convert/op_profile_builder.cc:690-731 | the nodes are the root and those that some operation calls for |
| `OpProfilePlaces.DuplicatesShareGroup` | xprof/convert/op_profile_builder.cc:496-499 | operations of a category with one non-empty deduplicated name share a group of that name; one without goes by its own name |
| `OpProfilePlaces.TotalIsTakenIn` | xprof/convert/op_profile_builder.cc:374-393 | a node's total of each quantity is what its operations add to it, own time always, the rest only from childless ones |
| `OpProfileBuilding.UpdateNodeMetrics` | xprof/convert/op_profile_builder.cc:374-393 | own time always, everything else only from childless operations; the memory breakdown grows in place and gains new entries at its end |
| `OpProfileBuilding.CombineFlatOpMetricsToOpMetrics` | xprof/convert/op_profile_builder.cc:344-371 | a group adds every quantity of a childless operation, and merges its memory breakdown likewise |
| `OpProfileBuilding.TreeGrows` | xprof/convert/op_profile_builder.cc:494-507 | adding a child keeps every node below the node its key names, and only there |
| `OpProfileBuilding.NamesGrow` | xprof/convert/op_profile_builder.cc:558-561 | a new node with the name its key calls for leaves all nodes with the names of their keys |
| `OpProfileBuilding.OpProfileBuilder.constructor` | xprof/convert/op_profile_builder.cc:803-830 | a new builder has just the root, named after the grouping, and no operations |
| `OpProfileBuilding.OpProfileBuilder.LookupOrAdd` | xprof/convert/op_profile_builder.cc:494-507 | a node is found in its table or added to tree and table; the books stay right |
| `OpProfileBuilding.OpProfileBuilder.LookupOrAddProgramNode` | xprof/convert/op_profile_builder.cc:576-585 | likewise for programs, named as the map of programs says, or main |
| `OpProfileBuilding.OpProfileBuilder.LookupOrAddCategoryNode` | xprof/convert/op_profile_builder.cc:537-563 | the category node of an operation below program, provenance node or root |
| `OpProfileBuilding.OpProfileBuilder.LookupOrAddDeduplicatedNode` | xprof/convert/op_profile_builder.cc:494-507 | the group of duplicates of an operation, named after itself if it has no other name |
| `OpProfileBuilding.OpProfileBuilder.AddOpNode` | xprof/convert/op_profile_builder.cc:419-432 | a leaf of its own for every childless operation |
| `OpProfileBuilding.OpProfileBuilder.GetOrAddProvenanceParentNode` | xprof/convert/op_profile_builder.cc:611-633 | every node on the provenance path takes the operation in |
| `OpProfileBuilding.OpProfileBuilder.AddOp` | xprof/convert/op_profile_builder.cc:690-731 | after any operations, under any options, the tree has exactly the nodes they call for, each under the node its key names and with that key's name, and each node the total of what they add to it |
| `OpProfileTheorems.NodeHolds` | xprof/convert/op_profile_builder.cc:690-731 | in the tree itself: a node holds of every quantity the sum of what the operations it stands for add |
| `OpProfileTheorems.FieldsHold` | xprof/convert/op_profile_builder.cc:374-393 | the same for each field of the node's metrics, time being the sum of own times |
| `OpProfileTheorems.MemoryHolds` | xprof/convert/op_profile_builder.cc:319-342 | and for the bytes of its memory breakdown under each key |
| `OpProfileTheorems.ChildrenAre` | xprof/convert/op_profile_builder.cc:690-731 | in the tree itself: a node has a child of a given key if and only if some operation calls for it there |
| `OpProfileTheorems.RootChildren` | xprof/convert/op_profile_builder.cc:693-704 | below the root hang exactly the leaves of the idle operations without children, and the programs of the other operations or, grouped by category, the categories of the childless ones |
| `OpProfileTheorems.NodeConserves` | xprof/convert/op_profile_builder.cc:690-731 | in the tree itself: a node's flops, bytes, stalls and memory accesses are the sums over its children |
| `OpProfileTheorems.NodeTimeExceeds` | xprof/convert/op_profile_builder.cc:690-731 | in the tree itself: time exceeds the children's by the own time of operations with children |
| `OpProfileTheorems.OrderDoesNotMatter` | xprof/convert/op_profile_builder.cc:690-731 | a node that is not a leaf has the same total for every order of the operations |
| `ChunkedRead.FewChunks` | xprof/convert/file_utils_gcs.cc:89-92 | at most 32 chunks, none exactly when the range is empty, and one up to eight megabytes |
| `ChunkedRead.ChunksTile` | xprof/convert/file_utils_gcs.cc:113-115 | every chunk is non-empty, lies inside the range and ends where the next begins |
| `ChunkedRead.ChunksAreEven` | xprof/convert/file_utils_gcs.cc:90-92 | all chunks but the last are equally long: eight megabytes, or the least length that covers the range 32 times when that is more |
| `ChunkedRead.OneChunkForEachByte` | xprof/convert/file_utils_gcs.cc:113-115 | every byte of the range lies in exactly one chunk |
| `ChunkedRead.StepKeepsInv` | xprof/convert/file_utils_gcs.cc:102-135 | every step of every task, in any interleaving, keeps all chunks that have arrived, and no error is forgotten |
| `ChunkedRead.OkMeansComplete` | xprof/convert/file_utils_gcs.cc:136-137 | when all tasks have returned and the status is fine, the contents are exactly the bytes of the range |
| `ChunkedRead.StatusRemembersReports` | xprof/convert/file_utils_gcs.cc:119-132 | the status is bad exactly when some task reported a failure, and stays fine when no open and no read fails |
| `ChunkedRead.FirstReportDecides` | xprof/convert/file_utils_gcs.cc:119-133 | the error is that of the first report in time: internal if and only if the last step of that task was a failed open, lost data if it was a failed read |
| `ChunkedRead.ReportStopsTasks` | xprof/convert/file_utils_gcs.cc:109-112 | a task that looks at the status after a report takes no further step |
| `ChunkedRead.NeverStuck` | xprof/convert/file_utils_gcs.cc:102-135 | while some task has not returned, some step can be taken |
| `ChunkedRead.StepsRunOut` | xprof/convert/file_utils_gcs.cc:102-135 | every step but the arrival of bytes brings its task closer to its return and leaves the others |
| `ChunkedRead.ReadReturnsTheRange` | xprof/convert/file_utils_gcs.cc:81-138 | a read returns exactly the bytes from start to end, all of which then exist, or an error, and refuses exactly the ranges that end before they start |
| `ChunkedRead.ReadCanSucceed` | xprof/convert/file_utils_gcs.cc:81-138 | a range can be read in full if and only if it is empty or all its bytes exist |

## Left out

- DutyCycleTracker: what widening a used total by a default span does, the ratio of active to total time, and overflow of 64-bit picosecond sums.
- HeapSimulator: the choice of the trace to replay, the timeline of instruction names, overflow of byte counts, and everything made of the statistics afterwards (module view, sorted indices, rendering).
- InferenceStatistics: batching parameters, and fields of requests that no stage reads.
- CombineAndRegroup: batches are regrouped by the same template and not stated again; the library sort itself, throughput, latency averages and tensor aggregates are left out.
- NwayMerge.Merge: which of several equal elements of three or more sources comes first, which depends on the heap.
- InferenceData: building requests and batches from trace events.
- InferenceSampler: sorting by a percentile column other than latency, and copying the selected records.
- DcnBursts: bursts of messages that do not end after they start (`DcnMessages.LongMessageWraps`), the display flag, the choice of collectives to display, bandwidth levels and line building.
- MemoryBreakdown: 64-bit overflow of bytes.
- OpProfileBuilding: the nested path over op metrics with child databases, sparse-core and fusion children, symbol details, the minimum time and the eager and autotuned flags, and `Finalize` with its sorting, pruning and utilisation ratios.
- ChunkedRead: a client that reports success after it has delivered fewer bytes than asked for, ranges so close to 2^64 that the unsigned sums would wrap, object sizes, writing, and the client itself.
