/** What the simulator reports about a well-formed trace, in terms of the trace alone. */
module HeapResults {
  import opened Collections
  import opened HeapTrace
  import opened HeapSpec
  import opened HeapTheorems
  import opened HeapCycles
  import opened HeapPeaks
  import opened HeapDisplay
  import opened HeapSpans
  import opened HeapSimulator

  ghost function RootsInUse(infos: map<Id, Info>, trace: Trace): set<Id> {
    set r | r in infos && InUse(infos, trace, r)
  }

  /** The memory in use after the events: each root counts once, however often shared. */
  ghost function HeapIn(infos: map<Id, Info>, trace: Trace, sizes: Id -> int): int {
    SumOver(RootsInUse(infos, trace), sizes)
  }

  /** One entry before each event and one after the last. */
  ghost predicate IsTimeline(timeline: seq<int>, infos: map<Id, Info>, trace: Trace, sizes: Id -> int) {
    |timeline| == |trace| + 1 && forall k :: 0 <= k <= |trace| ==> timeline[k] == HeapIn(infos, trace[..k], sizes)
  }

  lemma {:induction false} SumOfList(s: seq<Id>, keys: set<Id>, f: Id -> int)
    requires NoRepeats(s) && forall x :: x in s <==> x in keys
    ensures SumBy(s, f) == SumOver(keys, f)
    decreases |s|
  {
    if s == [] {
      assert forall x :: x !in keys;
    } else {
      assert s == [s[0]] + s[1..] && s[0] in s && s[0] !in s[1..];
      SumOverPick(keys, s[0], f);
      SumOfList(s[1..], keys - {s[0]}, f);
    }
  }

  lemma HeapIsSumOfRoots(infos: map<Id, Info>, s: Stats, trace: Trace)
    requires LiveMatches(infos, s, trace)
    ensures s.heap == HeapIn(infos, trace, SizeOf(infos)) && s.unpaddedHeap == HeapIn(infos, trace, UnpaddedOf(infos))
    ensures forall r :: r in s.live <==> r in RootsInUse(infos, trace)
  {
    SumOfList(s.live, RootsInUse(infos, trace), SizeOf(infos));
    SumOfList(s.live, RootsInUse(infos, trace), UnpaddedOf(infos));
  }

  lemma TimelineGrows(timeline: seq<int>, infos: map<Id, Info>, front: Trace, e: Event, sizes: Id -> int)
    requires IsTimeline(timeline, infos, front, sizes)
    ensures IsTimeline(timeline + [HeapIn(infos, front + [e], sizes)], infos, front + [e], sizes)
  {
    var trace := front + [e];
    assert trace[..|trace|] == trace;
    forall k | 0 <= k <= |front| ensures trace[..k] == front[..k] {}
  }

  /** Both timelines, completed by the current heap, record the memory in use. */
  ghost predicate TimelinesMatch(infos: map<Id, Info>, s: Stats, trace: Trace) {
    && IsTimeline(s.timeline + [s.heap], infos, trace, SizeOf(infos))
    && IsTimeline(s.unpaddedTimeline + [s.unpaddedHeap], infos, trace, UnpaddedOf(infos))
  }

  lemma StepKeepsTimelines(infos: map<Id, Info>, size: nat, bufs: Buffers, stats: Stats, front: Trace, e: Event)
    requires bufs.Keys == infos.Keys && TimelinesMatch(infos, stats, front)
    requires Step(infos, size, bufs, stats, e).Running?
    requires LiveMatches(infos, Step(infos, size, bufs, stats, e).stats, front + [e])
    ensures TimelinesMatch(infos, Step(infos, size, bufs, stats, e).stats, front + [e])
  {
    StepShape(infos, size, bufs, stats, e);
    HeapIsSumOfRoots(infos, Step(infos, size, bufs, stats, e).stats, front + [e]);
    TimelineGrows(stats.timeline + [stats.heap], infos, front, e, SizeOf(infos));
    TimelineGrows(stats.unpaddedTimeline + [stats.unpaddedHeap], infos, front, e, UnpaddedOf(infos));
  }

  /** The snapshot taken at the peak lists the roots in use just after the peak position. */
  ghost predicate IsSnapshot(infos: map<Id, Info>, s: Stats, trace: Trace) {
    s.peakHeap > 0 ==>
      && 0 <= s.peakPosition < |trace|
      && forall r :: r in s.peakLive <==> r in RootsInUse(infos, trace[..s.peakPosition + 1])
  }

  lemma SnapshotStays(infos: map<Id, Info>, s: Stats, after: Stats, front: Trace, e: Event)
    requires IsSnapshot(infos, s, front)
    requires after.peakHeap == s.peakHeap && after.peakPosition == s.peakPosition && after.peakLive == s.peakLive
    ensures IsSnapshot(infos, after, front + [e])
  {
    if s.peakHeap > 0 { assert (front + [e])[..s.peakPosition + 1] == front[..s.peakPosition + 1]; }
  }

  lemma MoveKeepsSnapshot(infos: map<Id, Info>, s: Stats, after: Stats, front: Trace, e: Event)
    requires IsSnapshot(infos, s, front) && Moved(infos, s, after) && |s.timeline| == |front| + 1
    requires forall r :: r in after.live <==> r in RootsInUse(infos, front + [e])
    ensures IsSnapshot(infos, after, front + [e])
  {
    if after.peakHeap == s.peakHeap {
      SnapshotStays(infos, s, after, front, e);
    } else {
      assert (front + [e])[..|front| + 1] == front + [e];
    }
  }

  lemma RecordKeepsSnapshot(infos: map<Id, Info>, s: Stats, front: Trace, e: Event)
    requires IsSnapshot(infos, s, front)
    ensures IsSnapshot(infos, Record(infos, s, e), front) && |Record(infos, s, e).timeline| == |s.timeline| + 1
  {
  }

  lemma StepKeepsSnapshot(infos: map<Id, Info>, size: nat, bufs: Buffers, stats: Stats, front: Trace, e: Event)
    requires bufs.Keys == infos.Keys && IsSnapshot(infos, stats, front) && |stats.timeline| == |front|
    requires Step(infos, size, bufs, stats, e).Running?
    requires LiveMatches(infos, Step(infos, size, bufs, stats, e).stats, front + [e])
    ensures IsSnapshot(infos, Step(infos, size, bufs, stats, e).stats, front + [e])
  {
    var after := Step(infos, size, bufs, stats, e).stats;
    StepShape(infos, size, bufs, stats, e);
    HeapIsSumOfRoots(infos, after, front + [e]);
    RecordKeepsSnapshot(infos, stats, front, e);
    MoveKeepsSnapshot(infos, Record(infos, stats, e), after, front, e);
  }

  lemma StepReports(infos: map<Id, Info>, size: nat, bufs: Buffers, stats: Stats, front: Trace, e: Event)
    requires bufs.Keys == infos.Keys && TimelinesMatch(infos, stats, front) && IsSnapshot(infos, stats, front)
    requires |stats.timeline| == |front| && Step(infos, size, bufs, stats, e).Running?
    requires LiveMatches(infos, Step(infos, size, bufs, stats, e).stats, front + [e])
    ensures TimelinesMatch(infos, Step(infos, size, bufs, stats, e).stats, front + [e])
    ensures IsSnapshot(infos, Step(infos, size, bufs, stats, e).stats, front + [e])
  {
    StepKeepsTimelines(infos, size, bufs, stats, front, e);
    StepKeepsSnapshot(infos, size, bufs, stats, front, e);
  }

  lemma NothingReported(infos: map<Id, Info>)
    ensures TimelinesMatch(infos, NoStats, []) && IsSnapshot(infos, NoStats, [])
  {
    var none: Trace := [];
    HeapIsSumOfRoots(infos, NoStats, none);
    assert none[..0] == none;
  }

  /** After any well-formed events, timelines and snapshot describe the trace. */
  lemma {:induction false} ReplayReports(infos: map<Id, Info>, size: nat, trace: Trace)
    requires WellFormed(infos, trace)
    ensures Matches(infos, Replay(infos, size, Untouched(infos), trace), trace)
    ensures TimelinesMatch(infos, Replay(infos, size, Untouched(infos), trace).stats, trace)
    ensures IsSnapshot(infos, Replay(infos, size, Untouched(infos), trace).stats, trace)
    decreases |trace|
  {
    ReplayMatches(infos, size, trace);
    if trace == [] {
      NothingReported(infos);
    } else {
      var front, e := trace[..|trace| - 1], trace[|trace| - 1];
      assert trace == front + [e];
      WellFormedPrefix(infos, front, e);
      ReplayReports(infos, size, front);
      var o := Replay(infos, size, Untouched(infos), front);
      StepReports(infos, size, o.bufs, o.stats, front, e);
    }
  }

  /** Everything the simulator reports, judged by the trace. */
  ghost predicate IsReport(infos: map<Id, Info>, bufs: Buffers, s: Stats, trace: Trace) {
    && StoreMatches(infos, bufs, trace)
    && (forall r :: r in s.live <==> r in RootsInUse(infos, trace)) && NoRepeats(s.live)
    && IsTimeline(s.timeline, infos, trace, SizeOf(infos))
    && IsTimeline(s.unpaddedTimeline, infos, trace, UnpaddedOf(infos))
    && PeakIsFirstMaximum(infos, s) && IsSnapshot(infos, s, trace)
    && ShowsRevivers(infos, s.displayOf, trace) && PeakShows(infos, s, trace)
    && SpansAreLifetimes(infos, bufs, trace) && s.seenBuffers == BuffersIn(infos, trace)
  }

  lemma FinalTimelines(infos: map<Id, Info>, s: Stats, trace: Trace)
    requires LiveMatches(infos, s, trace) && TimelinesMatch(infos, s, trace)
    ensures IsTimeline(Finalized(s).timeline, infos, trace, SizeOf(infos))
    ensures IsTimeline(Finalized(s).unpaddedTimeline, infos, trace, UnpaddedOf(infos))
    ensures forall r :: r in Finalized(s).live <==> r in RootsInUse(infos, trace)
    ensures NoRepeats(Finalized(s).live)
  {
    HeapIsSumOfRoots(infos, s, trace);
  }

  lemma FinalSnapshot(infos: map<Id, Info>, s: Stats, trace: Trace)
    requires IsSnapshot(infos, s, trace)
    ensures IsSnapshot(infos, Finalized(s), trace)
    ensures ShowsRevivers(infos, s.displayOf, trace) ==> ShowsRevivers(infos, Finalized(s).displayOf, trace)
    ensures PeakShows(infos, s, trace) ==> PeakShows(infos, Finalized(s), trace)
  {
  }

  /** A well-formed trace fails only for naming buffers of no allocation or of
      several; otherwise the report is right. */
  lemma WellFormedTraceIsReported(infos: map<Id, Info>, trace: Trace)
    requires WellFormed(infos, trace)
    ensures var o := Finalize(Replay(infos, |trace|, Untouched(infos), trace));
      if |AllocationsIn(infos, trace)| == 1 then o.Running? && IsReport(infos, o.bufs, o.stats, trace)
      else o == Failed(NotOneAllocation)
  {
    PeakIsMaximum(infos, trace);
    if |AllocationsIn(infos, trace)| == 1 {
      ReplayReports(infos, |trace|, trace);
      ReplayGivesLifetimes(infos, trace);
      ReplaySees(infos, |trace|, Untouched(infos), trace);
      ReplayDisplays(infos, |trace|, trace);
      var o := Replay(infos, |trace|, Untouched(infos), trace);
      FinalTimelines(infos, o.stats, trace);
      FinalSnapshot(infos, o.stats, trace);
    }
  }

  /** The buffer that the report shows for a root in use at the peak is one that uses its
      memory at the peak, unless it has been freed by then. */
  lemma PeakShowsUsers(infos: map<Id, Info>, s: Stats, trace: Trace, root: Id)
    requires WellFormed(infos, trace) && IsSnapshot(infos, s, trace) && PeakShows(infos, s, trace)
    requires s.peakHeap > 0 && root in s.peakLive
    ensures s.peakPosition < |trace|
    ensures var peak, shown := trace[..s.peakPosition + 1], ShownFor(s.peakDisplayOf, root);
      shown in Users(infos, peak, root) <==> !Freed(peak, shown)
  {
    var peak := trace[..s.peakPosition + 1];
    PrefixIsWellFormed(infos, trace, s.peakPosition + 1);
    ShownUsesMemory(infos, peak, s.peakDisplayOf, root);
  }

  lemma PrefixIsWellFormed(infos: map<Id, Info>, trace: Trace, n: nat)
    requires WellFormed(infos, trace) && n <= |trace|
    ensures WellFormed(infos, trace[..n])
  {
    forall k | 0 <= k < n ensures Allowed(infos, trace[..n][..k], trace[..n][k]) {
      assert trace[..n][..k] == trace[..k] && Allowed(infos, trace[..k], trace[k]);
    }
  }

  /** Processing a well-formed trace over fresh buffers. */
  method ProcessWellFormedTrace(store: Store, trace: Trace, stats: HeapSimulatorStats) returns (fault: Option<Fault>)
    requires Wired(store) && stats.Value() == NoStats && BuffersOf(store) == Untouched(InfosOf(store))
    requires WellFormed(InfosOf(store), trace)
    modifies stats, store.Values
    ensures fault == if |AllocationsIn(InfosOf(store), trace)| == 1 then None else Some(NotOneAllocation)
    ensures fault.None? ==> Wired(store) && IsReport(InfosOf(store), BuffersOf(store), stats.Value(), trace)
  {
    ReplayMatches(InfosOf(store), |trace|, trace);
    UntouchedEnd(InfosOf(store));
    EndlessIffClosing(InfosOf(store), |trace|, Untouched(InfosOf(store)), trace);
    WellFormedTraceIsReported(InfosOf(store), trace);
    fault := ProcessHeapSimulatorTrace(store, trace, stats);
  }
}
