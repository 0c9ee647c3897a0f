/** When a replay fails: the first event that a well-formed trace does not allow. */
module HeapErrors {
  import opened Collections
  import opened HeapTrace
  import opened HeapSpec
  import opened HeapTheorems

  lemma NextOutcome(infos: map<Id, Info>, size: nat, trace: Trace, e: Event)
    requires WellFormed(infos, trace)
    ensures Matches(infos, Replay(infos, size, Untouched(infos), trace), trace)
    ensures var o := Replay(infos, size, Untouched(infos), trace);
      Replay(infos, size, Untouched(infos), trace + [e]) == Step(infos, size, o.bufs, o.stats, e)
  {
    ReplayMatches(infos, size, trace);
    ReplayStep(infos, size, Untouched(infos), trace, e);
  }

  /** The root of a buffer, and how many use its memory. */
  lemma CountAtRoot(infos: map<Id, Info>, bufs: Buffers, trace: Trace, b: Id)
    requires RootsAreSound(infos, trace) && StoreMatches(infos, bufs, trace) && b in infos
    ensures RootIn(trace, b) in infos && RootIn(trace, b) in bufs
    ensures Ends(bufs, b) && Root(bufs, b) == RootIn(trace, b)
    ensures bufs[RootIn(trace, b)].refCount == |Users(infos, trace, RootIn(trace, b))|
  {
    assert IsRoot(infos, trace, RootIn(trace, b));
  }

  lemma InUseFits(infos: map<Id, Info>, s: Stats, trace: Trace, r: Id)
    requires LiveMatches(infos, s, trace) && InUse(infos, trace, r)
    ensures r in infos && s.heap >= infos[r].size
  {
    RemoveOnce(s.live, r, SizeOf(infos));
    SumIsNatural(infos, RemoveAll(s.live, r));
  }

  /** After well-formed events, freeing a known buffer is refused exactly when nobody
      uses its memory any more, whether it was freed before or never introduced. */
  lemma FreeFailsIffUnused(infos: map<Id, Info>, size: nat, trace: Trace, b: Id)
    requires WellFormed(infos, trace) && b in infos
    ensures var o := Replay(infos, size, Untouched(infos), trace + [Free(b)]);
      if Users(infos, trace, RootIn(trace, b)) == {} then o == Failed(FreedMultipleTimes(b)) else o.Running?
  {
    var users := Users(infos, trace, RootIn(trace, b));
    NextOutcome(infos, size, trace, Free(b));
    RootsOf(infos, trace);
    var o := Replay(infos, size, Untouched(infos), trace);
    CountAtRoot(infos, o.bufs, trace, b);
    if users != {} {
      InUseFits(infos, o.stats, trace, RootIn(trace, b));
      NotEmpty(users);
    }
  }

  lemma NotEmpty(s: set<Id>)
    requires s != {}
    ensures |s| > 0
  {
  }

  /** An event of a kind the simulator does not know is refused for a known buffer. */
  lemma UnknownKindFails(infos: map<Id, Info>, size: nat, trace: Trace, b: Id)
    requires WellFormed(infos, trace) && b in infos
    ensures Replay(infos, size, Untouched(infos), trace + [Other(b)]) == Failed(UnhandledKind)
  {
    NextOutcome(infos, size, trace, Other(b));
  }

  /** A failed replay stays failed, whatever events follow. */
  lemma {:induction false} FailureStays(infos: map<Id, Info>, size: nat, bufs: Buffers, trace: Trace, more: Trace)
    requires bufs.Keys == infos.Keys && Replay(infos, size, bufs, trace).Failed?
    ensures Replay(infos, size, bufs, trace + more) == Replay(infos, size, bufs, trace)
    decreases |more|
  {
    if more == [] {
      assert trace + more == trace;
    } else {
      var front := more[..|more| - 1];
      FailureStays(infos, size, bufs, trace, front);
      assert (trace + more)[..|trace + more| - 1] == trace + front;
    }
  }

  /** `b` shares the memory of `t`, which has so many users, and the heap is this large. */
  ghost predicate Sharing(infos: map<Id, Info>, o: Outcome, b: Id, t: Id, users: int, heap: int) {
    && o.Running? && o.bufs.Keys == infos.Keys && b in infos && t in infos && b != t
    && o.bufs[b].canonical == Some(t) && o.bufs[t].canonical.None? && o.bufs[t].refCount == users
    && o.stats.heap == heap
  }

  lemma SharerEnds(infos: map<Id, Info>, o: Outcome, b: Id, t: Id, users: int, heap: int)
    requires Sharing(infos, o, b, t, users, heap)
    ensures Ends(o.bufs, b) && Root(o.bufs, b) == t
  {
    RootOfLink(o.bufs, t);
    RootOfLink(o.bufs, b);
  }

  lemma SharesFirst(infos: map<Id, Info>, size: nat, b: Id, t: Id)
    requires b in infos && t in infos && b != t
    ensures Sharing(infos, Step(infos, size, Untouched(infos), NoStats, ShareWith(b, t)), b, t, 1, infos[t].size)
  {
    var linked := Untouched(infos)[b := Untouched(infos)[b].(canonical := Some(t))];
    RootOfLink(linked, t);
  }

  lemma FreesShared(infos: map<Id, Info>, size: nat, o: Outcome, b: Id, t: Id, heap: int)
    requires Sharing(infos, o, b, t, 1, heap)
    ensures var next := Step(infos, size, o.bufs, o.stats, Free(b));
      if heap < infos[t].size then next == Failed(NegativeHeap)
      else Sharing(infos, next, b, t, 0, heap - infos[t].size)
  {
    SharerEnds(infos, o, b, t, 1, heap);
  }

  lemma AllocatesSharer(infos: map<Id, Info>, size: nat, o: Outcome, b: Id, t: Id, heap: int)
    requires Sharing(infos, o, b, t, 0, heap)
    ensures Sharing(infos, Step(infos, size, o.bufs, o.stats, Alloc(b)), b, t, 1, heap + infos[b].size)
  {
    SharerEnds(infos, o, b, t, 0, heap);
  }

  /** Allocating a smaller sharer and freeing it again takes more than was added. */
  lemma SmallerAllocationGoesNegative(infos: map<Id, Info>, size: nat, b: Id, t: Id)
    requires b in infos && t in infos && infos[b].size < infos[t].size
    ensures Replay(infos, size, Untouched(infos), [ShareWith(b, t)] + [Free(b)] + [Alloc(b)] + [Free(b)])
         == Failed(NegativeHeap)
  {
    var bufs := Untouched(infos);
    SharesFirst(infos, size, b, t);
    ReplayStep(infos, size, bufs, [], ShareWith(b, t));
    assert [] + [ShareWith(b, t)] == [ShareWith(b, t)];
    var shared := Replay(infos, size, bufs, [ShareWith(b, t)]);
    FreesShared(infos, size, shared, b, t, infos[t].size);
    ReplayStep(infos, size, bufs, [ShareWith(b, t)], Free(b));
    var freed := Replay(infos, size, bufs, [ShareWith(b, t)] + [Free(b)]);
    AllocatesSharer(infos, size, freed, b, t, 0);
    ReplayStep(infos, size, bufs, [ShareWith(b, t)] + [Free(b)], Alloc(b));
    var born := Replay(infos, size, bufs, [ShareWith(b, t)] + [Free(b)] + [Alloc(b)]);
    FreesShared(infos, size, born, b, t, infos[b].size);
    ReplayStep(infos, size, bufs, [ShareWith(b, t)] + [Free(b)] + [Alloc(b)], Free(b));
  }

  lemma ReplayStep(infos: map<Id, Info>, size: nat, bufs: Buffers, trace: Trace, e: Event)
    requires bufs.Keys == infos.Keys && Replay(infos, size, bufs, trace).Running?
    ensures var o := Replay(infos, size, bufs, trace);
      Replay(infos, size, bufs, trace + [e]) == Step(infos, size, o.bufs, o.stats, e)
  {
    assert (trace + [e])[..|trace|] == trace;
  }
}
