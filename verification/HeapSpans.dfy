/** The lifetime spans a replay leaves on the buffers. */
module HeapSpans {
  import opened Collections
  import opened HeapTrace
  import opened HeapSpec
  import opened HeapTheorems

  /** Every buffer has the span its trace describes. */
  ghost predicate SpansMatch(infos: map<Id, Info>, bufs: Buffers, trace: Trace, lastEvent: nat) {
    bufs.Keys == infos.Keys && forall b :: b in infos ==> bufs[b].span == SpanIn(infos, trace, b, lastEvent)
  }

  /** A buffer that was not introduced has left no mark in the trace. */
  lemma {:induction false} NoMarks(infos: map<Id, Info>, trace: Trace, b: Id)
    requires WellFormed(infos, trace) && b in infos && !Introduced(trace, b)
    ensures AllocAt(trace, b).None? && RevivedAt(infos, trace, b).None? && FreedAt(trace, b).None?
    ensures EmptiedAt(infos, trace, b).None? && Users(infos, trace, b) == {}
    decreases |trace|
  {
    RootsOf(infos, trace);
    assert IsRoot(infos, trace, b);
    assert Users(infos, trace, b) == {};
    if trace != [] {
      var front, e := trace[..|trace| - 1], trace[|trace| - 1];
      assert trace == front + [e];
      Append(front, e);
      WellFormedPrefix(infos, front, e);
      NoMarks(infos, front, b);
    }
  }

  /** A sharer is not the root of its own memory, and an allocated buffer is. */
  lemma {:induction false} SharersAreNotRoots(infos: map<Id, Info>, trace: Trace, b: Id)
    requires WellFormed(infos, trace) && b in infos
    ensures RevivedAt(infos, trace, b).Some? ==> RootIn(trace, b) != b
    ensures AllocAt(trace, b).Some? ==> RootIn(trace, b) == b && Introduced(trace, b)
    ensures RevivedAt(infos, trace, b).Some? ==> Introduced(trace, b)
    decreases |trace|
  {
    if trace != [] {
      var front, e := trace[..|trace| - 1], trace[|trace| - 1];
      assert trace == front + [e];
      Append(front, e);
      WellFormedPrefix(infos, front, e);
      RootsOf(infos, front);
      SharersAreNotRoots(infos, front, b);
      RootStep(infos, front, e, b);
      if e == Alloc(b) { AllocTrace(infos, front, b); }
      if e.ShareWith? && e.id == b { ShareTrace(infos, front, b, e.target); }
    }
  }

  /** How the marks of `b` grow with one event. */
  lemma MarkStep(infos: map<Id, Info>, trace: Trace, e: Event, b: Id)
    ensures AllocAt(trace + [e], b) == if e == Alloc(b) then Some(|trace|) else AllocAt(trace, b)
    ensures FreedAt(trace + [e], b) == if e == Free(b) then Some(|trace|) else FreedAt(trace, b)
    ensures RevivedAt(infos, trace + [e], b)
         == if e.ShareWith? && e.id == b && Users(infos, trace, RootIn(trace, e.target)) == {} then Some(|trace|)
            else RevivedAt(infos, trace, b)
    ensures EmptiedAt(infos, trace + [e], b)
         == if Users(infos, trace, b) != {} && Users(infos, trace + [e], b) == {} then Some(|trace|)
            else EmptiedAt(infos, trace, b)
  {
    Append(trace, e);
  }

  lemma AllocSpan(infos: map<Id, Info>, trace: Trace, b: Id, x: Id, lastEvent: nat)
    requires WellFormed(infos, trace) && b in infos && x in infos && Allowed(infos, trace, Alloc(b))
    ensures SpanIn(infos, trace + [Alloc(b)], x, lastEvent)
         == if x == b then Some((|trace|, lastEvent)) else SpanIn(infos, trace, x, lastEvent)
  {
    RootsOf(infos, trace);
    MarkStep(infos, trace, Alloc(b), x);
    AllocTrace(infos, trace, b);
    NoMarks(infos, trace, b);
  }

  lemma FreeSpan(infos: map<Id, Info>, trace: Trace, b: Id, x: Id, lastEvent: nat)
    requires WellFormed(infos, trace) && b in infos && x in infos && Allowed(infos, trace, Free(b))
    ensures var root, span := RootIn(trace, b), SpanIn(infos, trace, x, lastEvent);
      SpanIn(infos, trace + [Free(b)], x, lastEvent)
      == if span.Some? && ((x == root && Users(infos, trace, root) == {b}) || (x == b && root != b))
         then Some((span.value.0, |trace|)) else span
  {
    RootsOf(infos, trace);
    MarkStep(infos, trace, Free(b), x);
    FreeTrace(infos, trace, b);
    SharersAreNotRoots(infos, trace, x);
    SharersAreNotRoots(infos, trace, b);
  }

  lemma ShareSpan(infos: map<Id, Info>, trace: Trace, b: Id, t: Id, x: Id, lastEvent: nat)
    requires WellFormed(infos, trace) && b in infos && x in infos && Allowed(infos, trace, ShareWith(b, t))
    ensures SpanIn(infos, trace + [ShareWith(b, t)], x, lastEvent)
         == if x == b && Users(infos, trace, RootIn(trace, t)) == {} then Some((|trace|, lastEvent))
            else SpanIn(infos, trace, x, lastEvent)
  {
    RootsOf(infos, trace);
    MarkStep(infos, trace, ShareWith(b, t), x);
    ShareTrace(infos, trace, b, t);
    NoMarks(infos, trace, b);
  }

  lemma UnknownSpan(infos: map<Id, Info>, trace: Trace, e: Event, x: Id, lastEvent: nat)
    requires WellFormed(infos, trace) && e.id !in infos && x in infos
    ensures SpanIn(infos, trace + [e], x, lastEvent) == SpanIn(infos, trace, x, lastEvent)
  {
    RootsOf(infos, trace);
    MarkStep(infos, trace, e, x);
    UsersStep(infos, trace, e, x);
  }

  lemma AllocatedSpan(infos: map<Id, Info>, size: nat, bufs: Buffers, stats: Stats, trace: Trace, b: Id, x: Id)
    requires WellFormed(infos, trace) && b in infos && x in infos && Allowed(infos, trace, Alloc(b))
    requires Matches(infos, Running(bufs, stats), trace)
    requires bufs[x].span == SpanIn(infos, trace, x, LastEvent(size))
    ensures Step(infos, size, bufs, stats, Alloc(b)).Running?
    ensures Step(infos, size, bufs, stats, Alloc(b)).bufs[x].span
         == SpanIn(infos, trace + [Alloc(b)], x, LastEvent(size))
  {
    RootsOf(infos, trace);
    AllocSpan(infos, trace, b, x, LastEvent(size));
    AllocStore(infos, bufs, trace, b, (|trace|, LastEvent(size)));
  }

  lemma SharedSpan(infos: map<Id, Info>, size: nat, bufs: Buffers, stats: Stats, trace: Trace, b: Id, t: Id, x: Id)
    requires WellFormed(infos, trace) && b in infos && x in infos && Allowed(infos, trace, ShareWith(b, t))
    requires Matches(infos, Running(bufs, stats), trace)
    requires bufs[x].span == SpanIn(infos, trace, x, LastEvent(size))
    ensures Step(infos, size, bufs, stats, ShareWith(b, t)).Running?
    ensures Step(infos, size, bufs, stats, ShareWith(b, t)).bufs[x].span
         == SpanIn(infos, trace + [ShareWith(b, t)], x, LastEvent(size))
  {
    RootsOf(infos, trace);
    ShareSpan(infos, trace, b, t, x, LastEvent(size));
    ShareOutcome(infos, size, bufs, stats, trace, b, t);
    ShareRootOf(infos, bufs, trace, b, t);
  }

  lemma StepFreeBuffers(infos: map<Id, Info>, size: nat, bufs: Buffers, stats: Stats, b: Id)
    requires bufs.Keys == infos.Keys && b in infos && Ends(bufs, b)
    requires Step(infos, size, bufs, stats, Free(b)).Running?
    ensures Step(infos, size, bufs, stats, Free(b)).bufs == AfterFree(bufs, b, Root(bufs, b), |stats.timeline|)
  {
  }

  lemma AfterFreeSpan(bufs: Buffers, b: Id, root: Id, now: nat, x: Id)
    requires b in bufs && root in bufs && x in bufs
    ensures AfterFree(bufs, b, root, now)[x].span
         == if bufs[x].span.Some?
               && ((x == root && bufs[root].refCount == 1) || (x == b && bufs[b].canonical.Some?))
            then Some((bufs[x].span.value.0, now)) else bufs[x].span
  {
  }

  lemma FreedSpan(infos: map<Id, Info>, size: nat, bufs: Buffers, stats: Stats, trace: Trace, b: Id, x: Id)
    requires WellFormed(infos, trace) && b in infos && x in infos && Allowed(infos, trace, Free(b))
    requires Matches(infos, Running(bufs, stats), trace)
    requires bufs[x].span == SpanIn(infos, trace, x, LastEvent(size))
    ensures Step(infos, size, bufs, stats, Free(b)).Running?
    ensures Step(infos, size, bufs, stats, Free(b)).bufs[x].span
         == SpanIn(infos, trace + [Free(b)], x, LastEvent(size))
  {
    RootsOf(infos, trace);
    FreeMatches(infos, size, bufs, stats, trace, b);
    FreeSpan(infos, trace, b, x, LastEvent(size));
    FreeCount(infos, bufs, trace, b);
    StepFreeBuffers(infos, size, bufs, stats, b);
    AfterFreeSpan(bufs, b, RootIn(trace, b), |trace|, x);
    RootOfLink(bufs, b);
  }

  lemma StepSpans(infos: map<Id, Info>, size: nat, bufs: Buffers, stats: Stats, trace: Trace, e: Event)
    requires WellFormed(infos, trace) && Allowed(infos, trace, e)
    requires Matches(infos, Running(bufs, stats), trace) && SpansMatch(infos, bufs, trace, LastEvent(size))
    requires Step(infos, size, bufs, stats, e).Running?
    ensures SpansMatch(infos, Step(infos, size, bufs, stats, e).bufs, trace + [e], LastEvent(size))
  {
    forall x | x in infos
      ensures Step(infos, size, bufs, stats, e).bufs[x].span == SpanIn(infos, trace + [e], x, LastEvent(size))
    {
      if e.id !in infos {
        UnknownSpan(infos, trace, e, x, LastEvent(size));
      } else {
        match e
        case Alloc(b) => AllocatedSpan(infos, size, bufs, stats, trace, b, x);
        case Free(b) => FreedSpan(infos, size, bufs, stats, trace, b, x);
        case ShareWith(b, t) => SharedSpan(infos, size, bufs, stats, trace, b, t, x);
        case Other(_) =>
      }
    }
  }

  lemma {:induction false} ReplaySpans(infos: map<Id, Info>, size: nat, trace: Trace)
    requires WellFormed(infos, trace)
    ensures Matches(infos, Replay(infos, size, Untouched(infos), trace), trace)
    ensures SpansMatch(infos, Replay(infos, size, Untouched(infos), trace).bufs, trace, LastEvent(size))
    decreases |trace|
  {
    ReplayMatches(infos, size, trace);
    if trace != [] {
      var front, e := trace[..|trace| - 1], trace[|trace| - 1];
      assert trace == front + [e];
      WellFormedPrefix(infos, front, e);
      ReplaySpans(infos, size, front);
      var o := Replay(infos, size, Untouched(infos), front);
      StepSpans(infos, size, o.bufs, o.stats, front, e);
    }
  }

  // What a span says, with the last event written out.

  /** Marks come in order: memory is emptied after its allocation, a sharer freed
      after its sharing. */
  ghost predicate InOrder(infos: map<Id, Info>, trace: Trace, b: Id) {
    var born, revived := AllocAt(trace, b), RevivedAt(infos, trace, b);
    var emptied, freed := EmptiedAt(infos, trace, b), FreedAt(trace, b);
    && (born.Some? ==> born.value < |trace|)
    && (born.Some? && emptied.Some? ==> born.value < emptied.value < |trace|)
    && (revived.Some? ==> revived.value < |trace|)
    && (revived.Some? && freed.Some? ==> revived.value < freed.value < |trace|)
  }

  lemma InOrderStep(infos: map<Id, Info>, front: Trace, e: Event, b: Id)
    requires WellFormed(infos, front) && Allowed(infos, front, e) && b in infos && InOrder(infos, front, b)
    ensures InOrder(infos, front + [e], b)
  {
    MarkStep(infos, front, e, b);
    if !Introduced(front, b) {
      NoMarks(infos, front, b);
      RootsOf(infos, front);
      if e == Alloc(b) { AllocTrace(infos, front, b); }
    }
  }

  lemma {:induction false} MarksInOrder(infos: map<Id, Info>, trace: Trace, b: Id)
    requires WellFormed(infos, trace) && b in infos
    ensures InOrder(infos, trace, b)
    decreases |trace|
  {
    if trace != [] {
      var front, e := trace[..|trace| - 1], trace[|trace| - 1];
      assert trace == front + [e];
      WellFormedPrefix(infos, front, e);
      MarksInOrder(infos, front, b);
      InOrderStep(infos, front, e, b);
    }
  }

  /** The span is the lifetime of `b`. An allocated buffer lives from its allocation to
      the last event that emptied its sharing class, a reviving sharer from its sharing
      to its own free; what never comes is the last event of the trace. */
  ghost predicate IsLifetime(infos: map<Id, Info>, span: Option<(nat, nat)>, trace: Trace, b: Id) {
    var born, revived := AllocAt(trace, b), RevivedAt(infos, trace, b);
    var emptied, freed := EmptiedAt(infos, trace, b), FreedAt(trace, b);
    && (span.Some? <==> born.Some? || revived.Some?)
    && (span.Some? ==> span.value.0 <= span.value.1 < |trace|)
    && (born.Some? ==>
          && span.value.0 == born.value
          && span.value.1 == (if emptied.Some? then emptied.value else |trace| - 1))
    && (born.None? && revived.Some? ==>
          && span.value.0 == revived.value
          && span.value.1 == (if freed.Some? then freed.value else |trace| - 1))
  }

  ghost predicate SpansAreLifetimes(infos: map<Id, Info>, bufs: Buffers, trace: Trace) {
    bufs.Keys == infos.Keys && forall b :: b in infos ==> IsLifetime(infos, bufs[b].span, trace, b)
  }

  /** After a whole well-formed trace every span is a lifetime. */
  lemma ReplayGivesLifetimes(infos: map<Id, Info>, trace: Trace)
    requires WellFormed(infos, trace)
    ensures Matches(infos, Replay(infos, |trace|, Untouched(infos), trace), trace)
    ensures SpansAreLifetimes(infos, Replay(infos, |trace|, Untouched(infos), trace).bufs, trace)
  {
    ReplaySpans(infos, |trace|, trace);
    var bufs := Replay(infos, |trace|, Untouched(infos), trace).bufs;
    forall b | b in infos ensures IsLifetime(infos, bufs[b].span, trace, b) { MarksInOrder(infos, trace, b); }
  }
}
