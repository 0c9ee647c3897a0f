/** The recorded peak of a replay, and its outcome. */
module HeapPeaks {
  import opened Collections
  import opened HeapTrace
  import opened HeapSpec
  import opened HeapTheorems

  /** The heap after the event at `k`. */
  function HeapAfter(s: Stats, k: nat): int
    requires k < |s.timeline|
  {
    if k + 1 < |s.timeline| then s.timeline[k + 1] else s.heap
  }

  /** The peak bounds the timeline; the entry after its position is the first to
      reach it, and the snapshot of live buffers adds up to it. */
  ghost predicate PeakMatches(infos: map<Id, Info>, s: Stats) {
    && 0 <= s.heap <= s.peakHeap
    && (forall k :: 0 <= k < |s.timeline| ==> 0 <= s.timeline[k] <= s.peakHeap)
    && s.peakHeap == SumBy(s.peakLive, SizeOf(infos)) && s.peakUnpadded == SumBy(s.peakLive, UnpaddedOf(infos))
    && (s.peakHeap > 0 ==>
      && 0 <= s.peakPosition < |s.timeline|
      && HeapAfter(s, s.peakPosition) == s.peakHeap
      && forall k :: 0 <= k <= s.peakPosition ==> s.timeline[k] < s.peakHeap)
  }

  lemma RecordKeepsPeak(infos: map<Id, Info>, s: Stats, e: Event)
    requires PeakMatches(infos, s)
    ensures PeakMatches(infos, Record(infos, s, e))
  {
  }

  lemma IncreaseKeepsPeak(infos: map<Id, Info>, s: Stats, b: Id)
    requires PeakMatches(infos, s) && b in infos && s.timeline != []
    requires Increase(infos, s, b).heap == SumBy(Increase(infos, s, b).live, SizeOf(infos))
    requires Increase(infos, s, b).unpaddedHeap == SumBy(Increase(infos, s, b).live, UnpaddedOf(infos))
    requires s.heap == s.timeline[|s.timeline| - 1]
    ensures PeakMatches(infos, Increase(infos, s, b))
  {
  }

  lemma DecreaseKeepsPeak(infos: map<Id, Info>, s: Stats, b: Id)
    requires PeakMatches(infos, s) && b in infos && s.timeline != []
    requires Decrease(infos, s, b).heap >= 0
    requires s.heap == s.timeline[|s.timeline| - 1]
    ensures PeakMatches(infos, Decrease(infos, s, b))
  {
  }

  /** Replaying one event records it and then grows, shrinks or keeps the heap. */
  lemma StepShape(infos: map<Id, Info>, size: nat, bufs: Buffers, stats: Stats, e: Event)
    requires bufs.Keys == infos.Keys && Step(infos, size, bufs, stats, e).Running?
    ensures Moved(infos, Record(infos, stats, e), Step(infos, size, bufs, stats, e).stats)
  {
    var s := Record(infos, stats, e);
    var after := Step(infos, size, bufs, stats, e).stats;
    if e.id in infos && e.Alloc? {
      assert s.(displayOf := s.displayOf) == s;
      assert after == Increase(infos, s.(displayOf := s.displayOf), e.id);
    }
  }

  ghost predicate Moved(infos: map<Id, Info>, s: Stats, after: Stats) {
    || after == s
    || (exists b :: b in infos && after == Decrease(infos, s, b) && after.heap >= 0)
    || (exists b, d :: b in infos && after == Increase(infos, s.(displayOf := d), b))
  }

  lemma MoveKeepsPeak(infos: map<Id, Info>, s: Stats, after: Stats)
    requires PeakMatches(infos, s) && s.timeline != [] && s.heap == s.timeline[|s.timeline| - 1]
    requires Moved(infos, s, after)
    requires after.heap == SumBy(after.live, SizeOf(infos))
    requires after.unpaddedHeap == SumBy(after.live, UnpaddedOf(infos))
    ensures PeakMatches(infos, after)
  {
    if after != s {
      if b :| b in infos && after == Decrease(infos, s, b) && after.heap >= 0 {
        DecreaseKeepsPeak(infos, s, b);
      } else {
        var b, d :| b in infos && after == Increase(infos, s.(displayOf := d), b);
        GrowthKeepsPeak(infos, s, after, b, d);
      }
    }
  }

  lemma GrowthKeepsPeak(infos: map<Id, Info>, s: Stats, after: Stats, b: Id, d: map<Id, Id>)
    requires PeakMatches(infos, s) && s.timeline != [] && s.heap == s.timeline[|s.timeline| - 1]
    requires b in infos && after == Increase(infos, s.(displayOf := d), b)
    requires after.heap == SumBy(after.live, SizeOf(infos))
    requires after.unpaddedHeap == SumBy(after.live, UnpaddedOf(infos))
    ensures PeakMatches(infos, after)
  {
    DisplayKeepsPeak(infos, s, d);
    IncreaseKeepsPeak(infos, s.(displayOf := d), b);
  }

  lemma DisplayKeepsPeak(infos: map<Id, Info>, s: Stats, d: map<Id, Id>)
    requires PeakMatches(infos, s)
    ensures PeakMatches(infos, s.(displayOf := d))
  {
  }

  lemma StepKeepsPeak(infos: map<Id, Info>, size: nat, bufs: Buffers, stats: Stats, e: Event, longer: Trace)
    requires bufs.Keys == infos.Keys && PeakMatches(infos, stats)
    requires Step(infos, size, bufs, stats, e).Running?
    requires LiveMatches(infos, Step(infos, size, bufs, stats, e).stats, longer)
    ensures PeakMatches(infos, Step(infos, size, bufs, stats, e).stats)
  {
    RecordKeepsPeak(infos, stats, e);
    StepShape(infos, size, bufs, stats, e);
    MoveKeepsPeak(infos, Record(infos, stats, e), Step(infos, size, bufs, stats, e).stats);
  }

  lemma {:induction false} ReplayPeaks(infos: map<Id, Info>, size: nat, trace: Trace)
    requires WellFormed(infos, trace)
    ensures Matches(infos, Replay(infos, size, Untouched(infos), trace), trace)
    ensures PeakMatches(infos, Replay(infos, size, Untouched(infos), trace).stats)
    decreases |trace|
  {
    ReplayMatches(infos, size, trace);
    if trace != [] {
      var front, e := trace[..|trace| - 1], trace[|trace| - 1];
      assert trace == front + [e];
      WellFormedPrefix(infos, front, e);
      ReplayPeaks(infos, size, front);
      var o := Replay(infos, size, Untouched(infos), front);
      StepKeepsPeak(infos, size, o.bufs, o.stats, e, trace);
    }
  }

  /** The allocations of the known buffers that the events name. */
  function AllocationsIn(infos: map<Id, Info>, trace: Trace): set<int> {
    set k | 0 <= k < |trace| && trace[k].id in infos :: infos[trace[k].id].allocation
  }

  lemma StepSees(infos: map<Id, Info>, size: nat, bufs: Buffers, stats: Stats, e: Event)
    requires bufs.Keys == infos.Keys && Step(infos, size, bufs, stats, e).Running?
    ensures var after := Step(infos, size, bufs, stats, e).stats;
      if e.id in infos then
        && after.seenAllocations == stats.seenAllocations + {infos[e.id].allocation}
        && after.seenBuffers == stats.seenBuffers + {e.id}
      else after.seenAllocations == stats.seenAllocations && after.seenBuffers == stats.seenBuffers
  {
    StepShape(infos, size, bufs, stats, e);
  }

  /** The known buffers that the events name. */
  function BuffersIn(infos: map<Id, Info>, trace: Trace): set<Id> {
    set k | 0 <= k < |trace| && trace[k].id in infos :: trace[k].id
  }

  lemma {:induction false} ReplaySees(infos: map<Id, Info>, size: nat, bufs: Buffers, trace: Trace)
    requires bufs.Keys == infos.Keys && Replay(infos, size, bufs, trace).Running?
    ensures Replay(infos, size, bufs, trace).stats.seenAllocations == AllocationsIn(infos, trace)
    ensures Replay(infos, size, bufs, trace).stats.seenBuffers == BuffersIn(infos, trace)
    decreases |trace|
  {
    if trace != [] {
      var front, e := trace[..|trace| - 1], trace[|trace| - 1];
      assert trace == front + [e];
      ReplaySees(infos, size, bufs, front);
      var o := Replay(infos, size, bufs, front);
      StepSees(infos, size, o.bufs, o.stats, e);
      AllocationsGrow(infos, front, e);
      BuffersGrow(infos, front, e);
    }
  }

  lemma BuffersGrow(infos: map<Id, Info>, front: Trace, e: Event)
    ensures BuffersIn(infos, front + [e])
         == if e.id in infos then BuffersIn(infos, front) + {e.id} else BuffersIn(infos, front)
  {
    var n, trace := |front|, front + [e];
    forall b ensures b in BuffersIn(infos, trace) <==> b in BuffersIn(infos, front) || (b == e.id && b in infos) {
      if b in BuffersIn(infos, trace) {
        var k :| 0 <= k < |trace| && trace[k].id in infos && trace[k].id == b;
        assert k < n ==> front[k] == trace[k];
      }
      if b in BuffersIn(infos, front) {
        var k :| 0 <= k < n && front[k].id in infos && front[k].id == b;
        assert trace[k] == front[k];
      }
      if b == e.id { assert trace[n] == e; }
    }
  }

  lemma AllocationsGrow(infos: map<Id, Info>, front: Trace, e: Event)
    ensures AllocationsIn(infos, front + [e])
         == if e.id in infos then AllocationsIn(infos, front) + {infos[e.id].allocation}
            else AllocationsIn(infos, front)
  {
    var n, trace := |front|, front + [e];
    var seen := if e.id in infos then {infos[e.id].allocation} else {};
    forall a ensures a in AllocationsIn(infos, trace) <==> a in AllocationsIn(infos, front) + seen {
      if a in AllocationsIn(infos, trace) {
        var k :| 0 <= k < |trace| && trace[k].id in infos && infos[trace[k].id].allocation == a;
        assert k < n ==> front[k] == trace[k];
      }
      if a in AllocationsIn(infos, front) {
        var k :| 0 <= k < n && front[k].id in infos && infos[front[k].id].allocation == a;
        assert trace[k] == front[k];
      }
      if a in seen { assert trace[n] == e; }
    }
  }

  /** A well-formed trace is processed without error exactly when its known buffers
      come from a single allocation; then the recorded peak is the maximum of the
      heap timeline, reached first just after the recorded position, and the
      snapshot of live buffers adds up to both recorded peaks. */
  lemma PeakIsMaximum(infos: map<Id, Info>, trace: Trace)
    requires WellFormed(infos, trace)
    ensures var o := Finalize(Replay(infos, |trace|, Untouched(infos), trace));
      && (o.Running? <==> |AllocationsIn(infos, trace)| == 1)
      && (!o.Running? ==> o == Failed(NotOneAllocation))
      && (o.Running? ==> PeakIsFirstMaximum(infos, o.stats) && |o.stats.timeline| == |trace| + 1)
  {
    ReplayPeaks(infos, |trace|, trace);
    ReplaySees(infos, |trace|, Untouched(infos), trace);
    FinalPeak(infos, Replay(infos, |trace|, Untouched(infos), trace).stats);
  }

  lemma FinalPeak(infos: map<Id, Info>, s: Stats)
    requires PeakMatches(infos, s)
    ensures PeakIsFirstMaximum(infos, Finalized(s))
  {
    var final := s.timeline + [s.heap];
    assert forall k :: 0 <= k < |s.timeline| ==> final[k] == s.timeline[k];
    if s.peakHeap == 0 {
      assert final[0] == 0;
    } else {
      assert final[s.peakPosition + 1] == s.peakHeap;
    }
  }

  ghost predicate PeakIsFirstMaximum(infos: map<Id, Info>, s: Stats) {
    && (forall k :: 0 <= k < |s.timeline| ==> s.timeline[k] <= s.peakHeap)
    && s.peakHeap in s.timeline
    && (s.peakHeap > 0 ==>
      && 0 <= s.peakPosition && s.peakPosition + 1 < |s.timeline|
      && s.timeline[s.peakPosition + 1] == s.peakHeap
      && forall k :: 0 <= k <= s.peakPosition ==> s.timeline[k] < s.peakHeap)
    && s.peakHeap == SumBy(s.peakLive, SizeOf(infos)) && s.peakUnpadded == SumBy(s.peakLive, UnpaddedOf(infos))
  }
}
