/** The heap simulator in place: logical buffers linked by canonical pointers, and
    the statistics gathered event by event. */
module HeapSimulator {
  import opened Collections
  import opened HeapTrace
  import opened HeapSpec
  import opened HeapCycles

  class LogicalBuffer {
    const id: Id
    const info: Info
    var refCount: int
    var canonicalBuffer: LogicalBuffer?
    var span: Option<(nat, nat)>

    constructor (id: Id, info: Info)
      ensures this.id == id && this.info == info && Value() == Buffer(0, None, None)
    {
      this.id, this.info := id, info;
      refCount, canonicalBuffer, span := 0, null, None;
    }

    ghost function Value(): Buffer
      reads this
    {
      Buffer(refCount, if canonicalBuffer == null then None else Some(canonicalBuffer.id), span)
    }

    /** Counts a reference at the end of the canonical chain. */
    method Inc(ghost store: Store, ghost fuel: nat) returns (count: int)
      requires Wired(store) && id in store && store[id] == this
      requires Follow(BuffersOf(store), id, fuel).Some?
      modifies RootObject(store, id, fuel)`refCount
      ensures Wired(store)
      ensures var root := Follow(old(BuffersOf(store)), id, fuel).value;
        BuffersOf(store) == AddRef(old(BuffersOf(store)), root, 1) && count == BuffersOf(store)[root].refCount
      decreases fuel
    {
      FollowFindsRoot(BuffersOf(store), id, fuel);
      if canonicalBuffer != null {
        count := canonicalBuffer.Inc(store, fuel - 1);
      } else {
        ghost var before := BuffersOf(store);
        refCount := refCount + 1;
        count := refCount;
        forall b | b in store && b != id ensures BuffersOf(store)[b] == before[b] {
          assert store[b] != this;
        }
        assert BuffersOf(store) == AddRef(before, id, 1);
      }
    }

    /** Drops a reference at the end of the canonical chain. */
    method Dec(ghost store: Store, ghost fuel: nat) returns (count: int)
      requires Wired(store) && id in store && store[id] == this
      requires Follow(BuffersOf(store), id, fuel).Some?
      modifies RootObject(store, id, fuel)`refCount
      ensures Wired(store)
      ensures var root := Follow(old(BuffersOf(store)), id, fuel).value;
        BuffersOf(store) == AddRef(old(BuffersOf(store)), root, -1) && count == BuffersOf(store)[root].refCount
      decreases fuel
    {
      FollowFindsRoot(BuffersOf(store), id, fuel);
      if canonicalBuffer != null {
        count := canonicalBuffer.Dec(store, fuel - 1);
      } else {
        ghost var before := BuffersOf(store);
        refCount := refCount - 1;
        count := refCount;
        forall b | b in store && b != id ensures BuffersOf(store)[b] == before[b] {
          assert store[b] != this;
        }
        assert BuffersOf(store) == AddRef(before, id, -1);
      }
    }

    /** The end of the canonical chain. */
    method GetCanonicalBuffer(ghost store: Store, ghost fuel: nat) returns (root: LogicalBuffer)
      requires Wired(store) && id in store && store[id] == this
      requires Follow(BuffersOf(store), id, fuel).Some?
      ensures root.id in store && store[root.id] == root
      ensures root.id == Follow(BuffersOf(store), id, fuel).value
      decreases fuel
    {
      if canonicalBuffer != null {
        root := canonicalBuffer.GetCanonicalBuffer(store, fuel - 1);
      } else {
        root := this;
      }
    }
  }

  type Store = map<Id, LogicalBuffer>

  /** Buffers are found under their own number, and links stay inside the store. */
  ghost predicate Wired(store: Store)
    reads store.Values
  {
    forall b :: b in store ==>
      && store[b].id == b
      && (store[b].canonicalBuffer != null ==>
            store[b].canonicalBuffer.id in store && store[store[b].canonicalBuffer.id] == store[b].canonicalBuffer)
  }

  ghost function BuffersOf(store: Store): Buffers
    reads store.Values
  {
    map b | b in store :: store[b].Value()
  }

  /** The buffer at the end of the canonical chain of `b`. */
  ghost function RootObject(store: Store, b: Id, fuel: nat): (r: LogicalBuffer)
    requires Wired(store) && b in store && Follow(BuffersOf(store), b, fuel).Some?
    reads store.Values
    ensures r.id == Follow(BuffersOf(store), b, fuel).value && r.id in store && store[r.id] == r
  {
    FollowFindsRoot(BuffersOf(store), b, fuel);
    store[Follow(BuffersOf(store), b, fuel).value]
  }

  ghost function InfosOf(store: Store): map<Id, Info> {
    map b | b in store :: store[b].info
  }

  /** The span of `b` ends at `now`, if it has one; no other buffer changes. */
  method EndSpanOf(ghost store: Store, b: LogicalBuffer, now: nat)
    requires Wired(store) && b.id in store && store[b.id] == b
    modifies b`span
    ensures Wired(store) && BuffersOf(store) == EndSpan(old(BuffersOf(store)), b.id, now)
  {
    if b.span.Some? {
      SetSpanOf(store, b, b.span.value.0, now);
    }
  }

  method SetSpanOf(ghost store: Store, b: LogicalBuffer, start: nat, end: nat)
    requires Wired(store) && b.id in store && store[b.id] == b
    modifies b`span
    ensures Wired(store) && BuffersOf(store) == SetSpan(old(BuffersOf(store)), b.id, (start, end))
  {
    ghost var before := BuffersOf(store);
    b.span := Some((start, end));
    forall x | x in store && x != b.id ensures BuffersOf(store)[x] == before[x] {
      assert store[x] != b;
    }
    assert BuffersOf(store) == SetSpan(before, b.id, (start, end));
  }

  method LinkTo(ghost store: Store, b: LogicalBuffer, target: LogicalBuffer)
    requires Wired(store) && b.id in store && store[b.id] == b && target.id in store && store[target.id] == target
    modifies b`canonicalBuffer
    ensures Wired(store)
    ensures BuffersOf(store)
         == old(BuffersOf(store))[b.id := old(BuffersOf(store))[b.id].(canonical := Some(target.id))]
  {
    ghost var before := BuffersOf(store);
    b.canonicalBuffer := target;
    forall x | x in store && x != b.id ensures BuffersOf(store)[x] == before[x] {
      assert store[x] != b;
    }
    assert BuffersOf(store) == before[b.id := before[b.id].(canonical := Some(target.id))];
  }

  class HeapSimulatorStats {
    var heapSizeBytes: int
    var unpaddedHeapSizeBytes: int
    var peakHeapSizeBytes: int
    var peakUnpaddedHeapSizeBytes: int
    var logicalBuffers: seq<Id>
    var peakLogicalBuffers: seq<Id>
    var heapSizeBytesTimeline: seq<int>
    var unpaddedHeapSizeBytesTimeline: seq<int>
    var peakHeapSizePosition: int
    var seenLogicalBuffers: set<Id>
    var seenBufferAllocations: set<int>
    var canonicalToDisplayId: map<Id, Id>
    var peakCanonicalToDisplayId: map<Id, Id>
    var simulatorTraceEventSize: nat

    function Value(): Stats
      reads this
    {
      Stats(heapSizeBytes, unpaddedHeapSizeBytes, peakHeapSizeBytes, peakUnpaddedHeapSizeBytes,
            logicalBuffers, peakLogicalBuffers, heapSizeBytesTimeline, unpaddedHeapSizeBytesTimeline,
            peakHeapSizePosition, seenLogicalBuffers, seenBufferAllocations,
            canonicalToDisplayId, peakCanonicalToDisplayId)
    }

    constructor ()
      ensures Value() == NoStats
    {
      heapSizeBytes, unpaddedHeapSizeBytes, peakHeapSizeBytes, peakUnpaddedHeapSizeBytes := 0, 0, 0, 0;
      logicalBuffers, peakLogicalBuffers := [], [];
      heapSizeBytesTimeline, unpaddedHeapSizeBytesTimeline, peakHeapSizePosition := [], [], 0;
      seenLogicalBuffers, seenBufferAllocations := {}, {};
      canonicalToDisplayId, peakCanonicalToDisplayId := map[], map[];
      simulatorTraceEventSize := 0;
    }

    method UpdateOnSimulatorEvent(store: Store, event: Event)
      modifies this
      ensures Value() == Record(InfosOf(store), old(Value()), event)
      ensures simulatorTraceEventSize == old(simulatorTraceEventSize)
    {
      heapSizeBytesTimeline := heapSizeBytesTimeline + [heapSizeBytes];
      unpaddedHeapSizeBytesTimeline := unpaddedHeapSizeBytesTimeline + [unpaddedHeapSizeBytes];
      if event.id !in store { return; }
      seenLogicalBuffers := seenLogicalBuffers + {event.id};
      seenBufferAllocations := seenBufferAllocations + {store[event.id].info.allocation};
    }

    /** The buffer joins the live list; a new peak is recorded with its snapshot. */
    method AddLive(ghost store: Store, buffer: LogicalBuffer)
      requires buffer.id in store && store[buffer.id] == buffer && heapSizeBytesTimeline != []
      modifies this
      ensures Value() == Increase(InfosOf(store), old(Value()), buffer.id)
      ensures simulatorTraceEventSize == old(simulatorTraceEventSize)
    {
      logicalBuffers := logicalBuffers + [buffer.id];
      heapSizeBytes := heapSizeBytes + buffer.info.size;
      unpaddedHeapSizeBytes := unpaddedHeapSizeBytes + buffer.info.unpaddedSize;
      RaisePeak();
    }

    /** Takes a snapshot when the heap has grown past the peak. */
    method RaisePeak()
      requires heapSizeBytesTimeline != []
      modifies this
      ensures simulatorTraceEventSize == old(simulatorTraceEventSize)
      ensures var s := old(Value());
        Value() == if s.heap <= s.peakHeap then s
                   else s.(peakHeap := s.heap, peakPosition := |s.timeline| - 1, peakUnpadded := s.unpaddedHeap,
                           peakLive := s.live, peakDisplayOf := s.displayOf)
    {
      var priorPeak := peakHeapSizeBytes;
      peakHeapSizeBytes := if peakHeapSizeBytes <= heapSizeBytes then heapSizeBytes else peakHeapSizeBytes;
      if priorPeak != peakHeapSizeBytes {
        peakHeapSizePosition := |heapSizeBytesTimeline| - 1;
        peakUnpaddedHeapSizeBytes := unpaddedHeapSizeBytes;
        peakLogicalBuffers := logicalBuffers;
        peakCanonicalToDisplayId := canonicalToDisplayId;
      }
    }

    method IncreaseMemoryUsage(ghost store: Store, buffer: LogicalBuffer, initBufferSpan: bool)
      requires Wired(store) && buffer.id in store && store[buffer.id] == buffer && heapSizeBytesTimeline != []
      modifies this, buffer`span
      ensures Wired(store) && Value() == Increase(InfosOf(store), old(Value()), buffer.id)
      ensures simulatorTraceEventSize == old(simulatorTraceEventSize)
      ensures BuffersOf(store)
           == if initBufferSpan then SetSpan(old(BuffersOf(store)), buffer.id,
                                             (|heapSizeBytesTimeline| - 1, LastEvent(simulatorTraceEventSize)))
              else old(BuffersOf(store))
    {
      AddLive(store, buffer);
      if initBufferSpan {
        SetSpanOf(store, buffer, |heapSizeBytesTimeline| - 1, LastEvent(simulatorTraceEventSize));
      }
    }

    /** The buffer leaves the live list. */
    method DropLive(ghost store: Store, buffer: LogicalBuffer) returns (fault: Option<Fault>)
      requires buffer.id in store && store[buffer.id] == buffer
      modifies this
      ensures simulatorTraceEventSize == old(simulatorTraceEventSize)
      ensures heapSizeBytesTimeline == old(heapSizeBytesTimeline)
      ensures fault == if old(heapSizeBytes) - buffer.info.size < 0 then Some(NegativeHeap) else None
      ensures fault.None? ==> Value() == Decrease(InfosOf(store), old(Value()), buffer.id)
    {
      logicalBuffers := RemoveAll(logicalBuffers, buffer.id);
      heapSizeBytes := heapSizeBytes - buffer.info.size;
      if heapSizeBytes < 0 {
        return Some(NegativeHeap);
      }
      unpaddedHeapSizeBytes := unpaddedHeapSizeBytes - buffer.info.unpaddedSize;
      fault := None;
    }

    /** The buffer leaves the live list and its span ends. */
    method DecreaseMemoryUsage(ghost store: Store, buffer: LogicalBuffer) returns (fault: Option<Fault>)
      requires Wired(store) && buffer.id in store && store[buffer.id] == buffer && heapSizeBytesTimeline != []
      modifies this, buffer`span
      ensures Wired(store) && simulatorTraceEventSize == old(simulatorTraceEventSize)
      ensures fault == if old(heapSizeBytes) - buffer.info.size < 0 then Some(NegativeHeap) else None
      ensures fault.None? ==> Value() == Decrease(InfosOf(store), old(Value()), buffer.id)
      ensures fault.None? ==> BuffersOf(store) == EndSpan(old(BuffersOf(store)), buffer.id, |heapSizeBytesTimeline| - 1)
    {
      fault := DropLive(store, buffer);
      if fault.None? {
        EndSpanOf(store, buffer, |heapSizeBytesTimeline| - 1);
      }
    }

    method FinalizeMemoryUsage() returns (fault: Option<Fault>)
      modifies this
      ensures fault == if |old(seenBufferAllocations)| != 1 then Some(NotOneAllocation) else None
      ensures Value() == Finalized(old(Value()))
    {
      heapSizeBytesTimeline := heapSizeBytesTimeline + [heapSizeBytes];
      unpaddedHeapSizeBytesTimeline := unpaddedHeapSizeBytesTimeline + [unpaddedHeapSizeBytes];
      if |seenBufferAllocations| != 1 {
        return Some(NotOneAllocation);
      }
      fault := None;
    }
  }

  /** The outcome of handling one event agrees with the specification. */
  ghost predicate Agrees(o: Outcome, fault: Option<Fault>, bufs: Buffers, stats: Stats) {
    match fault
    case Some(f) => o == Failed(f)
    case None => o == Running(bufs, stats)
  }

  ghost function FuelFor(bufs: Buffers, b: Id): (fuel: nat)
    requires Ends(bufs, b)
    ensures Follow(bufs, b, fuel) == Some(Root(bufs, b))
  {
    var fuel: nat :| Follow(bufs, b, fuel).Some?;
    fuel
  }

  /** An allocation: counts a reference and grows the heap. */
  method HandleAlloc(ghost store: Store, buffer: LogicalBuffer, stats: HeapSimulatorStats)
    requires Wired(store) && buffer.id in store && store[buffer.id] == buffer
    requires stats.heapSizeBytesTimeline != [] && Ends(BuffersOf(store), buffer.id)
    modifies stats, store.Values
    ensures Wired(store) && stats.Value() == Increase(InfosOf(store), old(stats.Value()), buffer.id)
    ensures BuffersOf(store)
         == SetSpan(AddRef(old(BuffersOf(store)), Root(old(BuffersOf(store)), buffer.id), 1), buffer.id,
                    (|old(stats.heapSizeBytesTimeline)| - 1, LastEvent(old(stats.simulatorTraceEventSize))))
    ensures stats.simulatorTraceEventSize == old(stats.simulatorTraceEventSize)
  {
    ghost var fuel := FuelFor(BuffersOf(store), buffer.id);
    var _ := buffer.Inc(store, fuel);
    stats.IncreaseMemoryUsage(store, buffer, true);
  }

  /** The memory at the end of the chain is given back. */
  method EmptyRoot(ghost store: Store, buffer: LogicalBuffer, stats: HeapSimulatorStats, ghost fuel: nat)
    returns (fault: Option<Fault>)
    requires Wired(store) && buffer.id in store && store[buffer.id] == buffer
    requires stats.heapSizeBytesTimeline != [] && Follow(BuffersOf(store), buffer.id, fuel).Some?
    modifies stats, store.Values
    ensures Wired(store) && stats.simulatorTraceEventSize == old(stats.simulatorTraceEventSize)
    ensures var infos, root := InfosOf(store), old(Follow(BuffersOf(store), buffer.id, fuel).value);
      && root in infos
      && fault == (if old(stats.Value()).heap - infos[root].size < 0 then Some(NegativeHeap) else None)
      && (fault.None? ==>
            && stats.Value() == Decrease(infos, old(stats.Value()), root)
            && root in old(BuffersOf(store))
            && BuffersOf(store) == EndSpan(old(BuffersOf(store)), root, |old(stats.heapSizeBytesTimeline)| - 1))
  {
    var canonical := buffer.GetCanonicalBuffer(store, fuel);
    fault := stats.DecreaseMemoryUsage(store, canonical);
  }

  /** How a free goes on, once its reference is dropped. */
  lemma FreeStepIs(infos: map<Id, Info>, bufs: Buffers, s: Stats, b: Id, now: nat, root: Id)
    requires bufs.Keys == infos.Keys && b in infos && Ends(bufs, b) && root == Root(bufs, b)
    ensures root in bufs
    ensures var freed := AddRef(bufs, root, -1);
      FreeStep(infos, bufs, s, b, now)
      == if freed[root].refCount < 0 then Failed(FreedMultipleTimes(b))
         else if freed[root].refCount > 0 then Running(FreeSharer(freed, b, now), s)
         else if s.heap - infos[root].size < 0 then Failed(NegativeHeap)
         else Running(FreeSharer(EndSpan(freed, root, now), b, now), Decrease(infos, s, root))
  {
  }

  /** The span of a sharer ends with its own free. */
  function FreeSharer(bufs: Buffers, b: Id, now: nat): Buffers
    requires b in bufs
  {
    if bufs[b].canonical.Some? then EndSpan(bufs, b, now) else bufs
  }

  method EndSharer(ghost store: Store, buffer: LogicalBuffer, now: nat)
    requires Wired(store) && buffer.id in store && store[buffer.id] == buffer
    modifies buffer`span
    ensures Wired(store) && BuffersOf(store) == FreeSharer(old(BuffersOf(store)), buffer.id, now)
  {
    if buffer.span.Some? && buffer.canonicalBuffer != null {
      EndSpanOf(store, buffer, now);
    }
  }

  /** A free: drops a reference and, with the last one, shrinks the heap. */
  method HandleFree(ghost store: Store, buffer: LogicalBuffer, stats: HeapSimulatorStats) returns (fault: Option<Fault>)
    requires Wired(store) && buffer.id in store && store[buffer.id] == buffer
    requires stats.heapSizeBytesTimeline != [] && Ends(BuffersOf(store), buffer.id)
    modifies stats, store.Values
    ensures Wired(store) && stats.simulatorTraceEventSize == old(stats.simulatorTraceEventSize)
    ensures Agrees(FreeStep(InfosOf(store), old(BuffersOf(store)), old(stats.Value()), buffer.id,
                            |old(stats.heapSizeBytesTimeline)| - 1),
                   fault, BuffersOf(store), stats.Value())
  {
    ghost var bufs, s, now := BuffersOf(store), stats.Value(), |stats.heapSizeBytesTimeline| - 1;
    ghost var fuel := FuelFor(bufs, buffer.id);
    FreeStepIs(InfosOf(store), bufs, s, buffer.id, now, Root(bufs, buffer.id));
    var refCount := buffer.Dec(store, fuel);
    if refCount < 0 {
      return Some(FreedMultipleTimes(buffer.id));
    }
    if refCount == 0 {
      SameFollow(bufs, BuffersOf(store), buffer.id, fuel);
      fault := EmptyRoot(store, buffer, stats, fuel);
      if fault.Some? { return; }
    }
    EndSharer(store, buffer, |stats.heapSizeBytesTimeline| - 1);
    fault := None;
  }

  /** How a sharing goes on, once the buffer is linked. */
  lemma ShareStepIs(infos: map<Id, Info>, size: nat, linked: Buffers, s: Stats, b: Id, t: Id, now: nat, root: Id)
    requires linked.Keys == infos.Keys && b in infos && t in infos && Ends(linked, t) && root == Root(linked, t)
    ensures root in linked
    ensures var shared := AddRef(linked, root, 1);
      ShareStep(infos, size, linked, s, b, t, now)
      == if shared[root].refCount != 1 then Running(shared, s)
         else Running(SetSpan(shared, b, (now, LastEvent(size))),
                      Increase(infos, s.(displayOf := s.displayOf[root := b]), root))
  {
  }

  /** A sharing: links the buffer and, if the memory was free, revives it. */
  method HandleShareWith(ghost store: Store, buffer: LogicalBuffer, target: LogicalBuffer, stats: HeapSimulatorStats)
    requires Wired(store) && buffer.id in store && store[buffer.id] == buffer
    requires target.id in store && store[target.id] == target && stats.heapSizeBytesTimeline != []
    requires Ends(Link(BuffersOf(store), buffer.id, target.id), target.id)
    modifies stats, store.Values
    ensures Wired(store) && stats.simulatorTraceEventSize == old(stats.simulatorTraceEventSize)
    ensures Running(BuffersOf(store), stats.Value())
         == ShareStep(InfosOf(store), old(stats.simulatorTraceEventSize),
                      Link(old(BuffersOf(store)), buffer.id, target.id),
                      old(stats.Value()), buffer.id, target.id, |old(stats.heapSizeBytesTimeline)| - 1)
  {
    LinkTo(store, buffer, target);
    ghost var linked := BuffersOf(store);
    ghost var fuel := FuelFor(linked, target.id);
    ShareStepIs(InfosOf(store), stats.simulatorTraceEventSize, linked, stats.Value(), buffer.id, target.id,
                |stats.heapSizeBytesTimeline| - 1, Root(linked, target.id));
    var refCount := target.Inc(store, fuel);
    if refCount == 1 {
      SameFollow(linked, BuffersOf(store), target.id, fuel);
      Revive(store, buffer, target, stats, fuel);
    }
  }

  /** Freed memory comes back to life under the name of its new user. */
  method Revive(ghost store: Store, buffer: LogicalBuffer, target: LogicalBuffer, stats: HeapSimulatorStats,
                ghost fuel: nat)
    requires Wired(store) && buffer.id in store && store[buffer.id] == buffer
    requires target.id in store && store[target.id] == target
    requires stats.heapSizeBytesTimeline != [] && Follow(BuffersOf(store), target.id, fuel).Some?
    modifies stats, store.Values
    ensures Wired(store) && stats.simulatorTraceEventSize == old(stats.simulatorTraceEventSize)
    ensures BuffersOf(store)
         == SetSpan(old(BuffersOf(store)), buffer.id,
                    (|old(stats.heapSizeBytesTimeline)| - 1, LastEvent(old(stats.simulatorTraceEventSize))))
    ensures var s, root := old(stats.Value()), old(Follow(BuffersOf(store), target.id, fuel).value);
      root in store
      && stats.Value() == Increase(InfosOf(store), s.(displayOf := s.displayOf[root := buffer.id]), root)
  {
    var root := target.GetCanonicalBuffer(store, fuel);
    stats.canonicalToDisplayId := stats.canonicalToDisplayId[root.id := buffer.id];
    SetSpanOf(store, buffer, |stats.heapSizeBytesTimeline| - 1, LastEvent(stats.simulatorTraceEventSize));
    stats.IncreaseMemoryUsage(store, root, false);
  }

  lemma {:induction false} FaultsStay(infos: map<Id, Info>, size: nat, bufs: Buffers, trace: Trace, k: nat)
    requires bufs.Keys == infos.Keys && k <= |trace| && !Replay(infos, size, bufs, trace[..k]).Running?
    ensures Replay(infos, size, bufs, trace) == Replay(infos, size, bufs, trace[..k])
    decreases |trace| - k
  {
    if k == |trace| {
      assert trace[..k] == trace;
    } else {
      assert trace[..k + 1][..k] == trace[..k];
      FaultsStay(infos, size, bufs, trace, k + 1);
    }
  }

  lemma NextOutcome(infos: map<Id, Info>, size: nat, bufs: Buffers, trace: Trace, i: nat)
    requires bufs.Keys == infos.Keys && i < |trace| && Replay(infos, size, bufs, trace[..i]).Running?
    ensures var o, next := Replay(infos, size, bufs, trace[..i]), Replay(infos, size, bufs, trace[..i + 1]);
      && next == Step(infos, size, o.bufs, o.stats, trace[i])
      && (!next.Running? ==> Replay(infos, size, bufs, trace) == next)
  {
    assert trace[..i + 1][..i] == trace[..i];
    if !Replay(infos, size, bufs, trace[..i + 1]).Running? { FaultsStay(infos, size, bufs, trace, i + 1); }
  }

  /** Handles one event, the body of the loop over the trace, as long as no chain runs
      in a cycle and the event closes none. */
  method HandleEvent(store: Store, event: Event, stats: HeapSimulatorStats) returns (fault: Option<Fault>)
    requires Wired(store) && AllEnd(BuffersOf(store))
    requires !ClosesCycle(InfosOf(store), BuffersOf(store), event)
    modifies stats, store.Values
    ensures Wired(store) && stats.simulatorTraceEventSize == old(stats.simulatorTraceEventSize)
    ensures fault.None? ==> AllEnd(BuffersOf(store))
    ensures Agrees(old(Step(InfosOf(store), stats.simulatorTraceEventSize, BuffersOf(store), stats.Value(), event)),
                   fault, BuffersOf(store), stats.Value())
  {
    StepEndsUnlessClosing(InfosOf(store), stats.simulatorTraceEventSize, BuffersOf(store), stats.Value(), event);
    stats.UpdateOnSimulatorEvent(store, event);
    fault := None;
    if event.id !in store { return; }
    var buffer := store[event.id];
    match event {
      case Alloc(_) =>
        HandleAlloc(store, buffer, stats);
      case Free(_) =>
        fault := HandleFree(store, buffer, stats);
      case ShareWith(_, target) =>
        if target !in store { return; }
        HandleShareWith(store, buffer, store[target], stats);
      case Other(_) =>
        fault := Some(UnhandledKind);
    }
  }

  /** Runs through all events of a trace, which must not close a cycle of links before
      an error ends the run. */
  method ProcessHeapSimulatorTrace(store: Store, trace: Trace, stats: HeapSimulatorStats) returns (fault: Option<Fault>)
    requires Wired(store) && stats.Value() == NoStats && AllEnd(BuffersOf(store))
    requires !ClosesBeforeError(InfosOf(store), |trace|, BuffersOf(store), trace)
    modifies stats, store.Values
    ensures Wired(store)
    ensures Agrees(Finalize(old(Replay(InfosOf(store), |trace|, BuffersOf(store), trace))),
                   fault, BuffersOf(store), stats.Value())
  {
    ghost var infos, bufs := InfosOf(store), BuffersOf(store);
    stats.simulatorTraceEventSize := |trace|;
    for i := 0 to |trace|
      invariant Wired(store) && stats.simulatorTraceEventSize == |trace| && AllEnd(BuffersOf(store))
      invariant Replay(infos, |trace|, bufs, trace[..i]) == Running(BuffersOf(store), stats.Value())
    {
      NotClosingNow(infos, |trace|, bufs, trace, i);
      NextOutcome(infos, |trace|, bufs, trace, i);
      fault := HandleEvent(store, trace[i], stats);
      if fault.Some? { return; }
    }
    assert trace[..|trace|] == trace;
    fault := stats.FinalizeMemoryUsage();
  }
}
