/** The heap simulator as a function of its events, with every error path. */
module HeapSpec {
  import opened Collections
  import opened HeapTrace

  /** The mutable part of a logical buffer. */
  datatype Buffer = Buffer(refCount: int, canonical: Option<Id>, span: Option<(nat, nat)>)

  type Buffers = map<Id, Buffer>

  /** A fresh set of buffers: no references, no links and no spans. */
  function Untouched(infos: map<Id, Info>): Buffers {
    map b | b in infos :: Buffer(0, None, None)
  }

  /** Following canonical links from `b`, at most `fuel` of them. */
  function Follow(bufs: Buffers, b: Id, fuel: nat): Option<Id>
    decreases fuel
  {
    if b !in bufs then None
    else
      match bufs[b].canonical
      case None => Some(b)
      case Some(c) => if fuel == 0 then None else Follow(bufs, c, fuel - 1)
  }

  ghost predicate Ends(bufs: Buffers, b: Id) {
    exists fuel: nat :: Follow(bufs, b, fuel).Some?
  }

  lemma {:induction false} MoreFuel(bufs: Buffers, b: Id, fuel: nat, more: nat)
    requires Follow(bufs, b, fuel).Some? && fuel <= more
    ensures Follow(bufs, b, more) == Follow(bufs, b, fuel)
    decreases fuel
  {
    if bufs[b].canonical.Some? {
      MoreFuel(bufs, bufs[b].canonical.value, fuel - 1, more - 1);
    }
  }

  /** The root of the canonical chain of `b`. */
  ghost function Root(bufs: Buffers, b: Id): (r: Id)
    requires Ends(bufs, b)
    ensures forall fuel: nat :: Follow(bufs, b, fuel).Some? ==> Follow(bufs, b, fuel).value == r
    ensures r in bufs && bufs[r].canonical.None?
  {
    var fuel: nat :| Follow(bufs, b, fuel).Some?;
    FollowIsUnique(bufs, b, fuel);
    FollowFindsRoot(bufs, b, fuel);
    Follow(bufs, b, fuel).value
  }

  lemma FollowIsUnique(bufs: Buffers, b: Id, fuel: nat)
    requires Follow(bufs, b, fuel).Some?
    ensures forall other: nat :: Follow(bufs, b, other).Some? ==> Follow(bufs, b, other) == Follow(bufs, b, fuel)
  {
    forall other: nat | Follow(bufs, b, other).Some? ensures Follow(bufs, b, other) == Follow(bufs, b, fuel) {
      if fuel <= other { MoreFuel(bufs, b, fuel, other); } else { MoreFuel(bufs, b, other, fuel); }
    }
  }

  lemma {:induction false} FollowFindsRoot(bufs: Buffers, b: Id, fuel: nat)
    requires Follow(bufs, b, fuel).Some?
    ensures var r := Follow(bufs, b, fuel).value; r in bufs && bufs[r].canonical.None?
    decreases fuel
  {
    if bufs[b].canonical.Some? {
      FollowFindsRoot(bufs, bufs[b].canonical.value, fuel - 1);
    }
  }

  lemma RootOfLink(bufs: Buffers, b: Id)
    requires b in bufs
    ensures bufs[b].canonical.None? ==> Ends(bufs, b) && Root(bufs, b) == b
    ensures bufs[b].canonical.Some? ==> (Ends(bufs, b) <==> Ends(bufs, bufs[b].canonical.value))
    ensures bufs[b].canonical.Some? && Ends(bufs, b) ==> Root(bufs, b) == Root(bufs, bufs[b].canonical.value)
  {
    if bufs[b].canonical.None? {
      assert Follow(bufs, b, 0) == Some(b);
    } else {
      var c := bufs[b].canonical.value;
      if Ends(bufs, c) {
        var fuel: nat :| Follow(bufs, c, fuel).Some?;
        assert Follow(bufs, b, fuel + 1) == Follow(bufs, c, fuel);
      }
      if Ends(bufs, b) {
        var fuel: nat :| Follow(bufs, b, fuel).Some?;
        assert Follow(bufs, b, fuel) == Follow(bufs, c, fuel - 1);
      }
    }
  }

  ghost predicate SameLinks(bufs: Buffers, other: Buffers) {
    bufs.Keys == other.Keys && forall b :: b in bufs ==> bufs[b].canonical == other[b].canonical
  }

  lemma {:induction false} SameFollow(bufs: Buffers, other: Buffers, b: Id, fuel: nat)
    requires SameLinks(bufs, other)
    ensures Follow(bufs, b, fuel) == Follow(other, b, fuel)
    decreases fuel
  {
    if b in bufs && bufs[b].canonical.Some? && fuel > 0 {
      SameFollow(bufs, other, bufs[b].canonical.value, fuel - 1);
    }
  }

  lemma SameRoots(bufs: Buffers, other: Buffers, b: Id)
    requires SameLinks(bufs, other) && Ends(bufs, b)
    ensures Ends(other, b) && Root(other, b) == Root(bufs, b)
  {
    var fuel: nat :| Follow(bufs, b, fuel).Some?;
    SameFollow(bufs, other, b, fuel);
  }

  function AddRef(bufs: Buffers, root: Id, change: int): Buffers
    requires root in bufs
  {
    bufs[root := bufs[root].(refCount := bufs[root].refCount + change)]
  }

  function SetSpan(bufs: Buffers, b: Id, span: (nat, nat)): Buffers
    requires b in bufs
  {
    bufs[b := bufs[b].(span := Some(span))]
  }

  /** Ends the span of `b` at event `now`, if it has one. */
  function EndSpan(bufs: Buffers, b: Id, now: nat): Buffers
    requires b in bufs
  {
    if bufs[b].span.Some? then SetSpan(bufs, b, (bufs[b].span.value.0, now)) else bufs
  }

  datatype Stats = Stats(heap: int, unpaddedHeap: int, peakHeap: int, peakUnpadded: int,
                         live: seq<Id>, peakLive: seq<Id>, timeline: seq<int>, unpaddedTimeline: seq<int>,
                         peakPosition: int, seenBuffers: set<Id>, seenAllocations: set<int>,
                         displayOf: map<Id, Id>, peakDisplayOf: map<Id, Id>)

  const NoStats := Stats(0, 0, 0, 0, [], [], [], [], 0, {}, {}, map[], map[])

  /** Every event first records the heap as it was before. */
  function Record(infos: map<Id, Info>, s: Stats, e: Event): (r: Stats)
    ensures r.timeline == s.timeline + [s.heap] && r.unpaddedTimeline == s.unpaddedTimeline + [s.unpaddedHeap]
    ensures r.live == s.live && r.heap == s.heap && r.unpaddedHeap == s.unpaddedHeap
  {
    var noted := s.(timeline := s.timeline + [s.heap], unpaddedTimeline := s.unpaddedTimeline + [s.unpaddedHeap]);
    if e.id !in infos then noted
    else noted.(seenBuffers := s.seenBuffers + {e.id},
                seenAllocations := s.seenAllocations + {infos[e.id].allocation})
  }

  function Increase(infos: map<Id, Info>, s: Stats, b: Id): (r: Stats)
    requires b in infos
    ensures r.timeline == s.timeline && r.unpaddedTimeline == s.unpaddedTimeline
  {
    var grown := s.(live := s.live + [b], heap := s.heap + infos[b].size,
                    unpaddedHeap := s.unpaddedHeap + infos[b].unpaddedSize);
    if grown.heap <= s.peakHeap then grown
    else grown.(peakHeap := grown.heap, peakPosition := |s.timeline| - 1, peakUnpadded := grown.unpaddedHeap,
                peakLive := grown.live, peakDisplayOf := s.displayOf)
  }

  function RemoveAll(s: seq<Id>, x: Id): seq<Id> {
    if s == [] then []
    else if s[0] == x then RemoveAll(s[1..], x) else [s[0]] + RemoveAll(s[1..], x)
  }

  function Decrease(infos: map<Id, Info>, s: Stats, b: Id): (r: Stats)
    requires b in infos
    ensures r.timeline == s.timeline && r.unpaddedTimeline == s.unpaddedTimeline
  {
    s.(live := RemoveAll(s.live, b), heap := s.heap - infos[b].size,
       unpaddedHeap := s.unpaddedHeap - infos[b].unpaddedSize)
  }

  datatype Fault = FreedMultipleTimes(id: Id) | NegativeHeap | UnhandledKind | NotOneAllocation

  /** `Endless` stands for following a cycle of canonical links forever. */
  datatype Outcome = Running(bufs: Buffers, stats: Stats) | Failed(fault: Fault) | Endless

  /** The number of the last event of a trace of `size` events. */
  function LastEvent(size: nat): nat { if size == 0 then 0 else size - 1 }

  /** One event of a trace of `size` events. */
  ghost function Step(infos: map<Id, Info>, size: nat, bufs: Buffers, stats: Stats, e: Event): (o: Outcome)
    requires bufs.Keys == infos.Keys
    ensures o.Running? ==> o.bufs.Keys == infos.Keys
  {
    var s := Record(infos, stats, e);
    var now := |stats.timeline|;
    if e.id !in infos then Running(bufs, s)
    else
      match e
      case Alloc(b) =>
        if !Ends(bufs, b) then Endless
        else Running(SetSpan(AddRef(bufs, Root(bufs, b), 1), b, (now, LastEvent(size))),
                     Increase(infos, s, b))
      case Free(b) => FreeStep(infos, bufs, s, b, now)
      case ShareWith(b, t) =>
        if t !in infos then Running(bufs, s)
        else ShareStep(infos, size, bufs[b := bufs[b].(canonical := Some(t))], s, b, t, now)
      case Other(_) => Failed(UnhandledKind)
  }

  ghost function FreeStep(infos: map<Id, Info>, bufs: Buffers, s: Stats, b: Id, now: nat): Outcome
    requires bufs.Keys == infos.Keys && b in infos
  {
    if !Ends(bufs, b) then Endless
    else
      var root := Root(bufs, b);
      var freed := AddRef(bufs, root, -1);
      if freed[root].refCount < 0 then Failed(FreedMultipleTimes(b))
      else if freed[root].refCount == 0 && s.heap - infos[root].size < 0 then Failed(NegativeHeap)
      else
        var emptied := if freed[root].refCount == 0 then EndSpan(freed, root, now) else freed;
        Running(if bufs[b].canonical.Some? then EndSpan(emptied, b, now) else emptied,
                if freed[root].refCount == 0 then Decrease(infos, s, root) else s)
  }

  /** `linked` is the state in which `b` already points at `t`. */
  ghost function ShareStep(infos: map<Id, Info>, size: nat, linked: Buffers, s: Stats, b: Id, t: Id, now: nat): Outcome
    requires linked.Keys == infos.Keys && b in infos && t in infos
  {
    if !Ends(linked, t) then Endless
    else
      var root := Root(linked, t);
      var shared := AddRef(linked, root, 1);
      if shared[root].refCount != 1 then Running(shared, s)
      else Running(SetSpan(shared, b, (now, LastEvent(size))),
                   Increase(infos, s.(displayOf := s.displayOf[root := b]), root))
  }

  /** The state after the events, as long as none fails. */
  ghost function Replay(infos: map<Id, Info>, size: nat, bufs: Buffers, trace: Trace): (o: Outcome)
    requires bufs.Keys == infos.Keys
    ensures o.Running? ==> o.bufs.Keys == infos.Keys
  {
    if trace == [] then Running(bufs, NoStats)
    else
      var before := Replay(infos, size, bufs, trace[..|trace| - 1]);
      if before.Running? then Step(infos, size, before.bufs, before.stats, trace[|trace| - 1]) else before
  }

  /** The final heap size is recorded too. */
  function Finalized(s: Stats): (r: Stats)
    ensures r.timeline == s.timeline + [s.heap] && r.unpaddedTimeline == s.unpaddedTimeline + [s.unpaddedHeap]
    ensures r.live == s.live && r.peakLive == s.peakLive
    ensures r.peakHeap == s.peakHeap && r.peakPosition == s.peakPosition
  {
    s.(timeline := s.timeline + [s.heap], unpaddedTimeline := s.unpaddedTimeline + [s.unpaddedHeap])
  }

  /** All buffers of a trace must come from one allocation. */
  function Finalize(o: Outcome): Outcome {
    if !o.Running? then o
    else if |o.stats.seenAllocations| != 1 then Failed(NotOneAllocation)
    else Running(o.bufs, Finalized(o.stats))
  }
}
