/** The replay of a well-formed trace: reference counts, live list and heap size. */
module HeapTheorems {
  import opened Collections
  import opened HeapTrace
  import opened HeapSpec

  lemma {:induction false} FollowAround(bufs: Buffers, linked: Buffers, b: Id, x: Id, fuel: nat)
    requires bufs.Keys == linked.Keys && x != b
    requires forall y :: y in bufs && y != b ==> bufs[y].canonical == linked[y].canonical
    requires forall y :: y in bufs ==> bufs[y].canonical != Some(b)
    ensures Follow(linked, x, fuel) == Follow(bufs, x, fuel)
    decreases fuel
  {
    if x in bufs && bufs[x].canonical.Some? && fuel > 0 {
      FollowAround(bufs, linked, b, bufs[x].canonical.value, fuel - 1);
    }
  }

  /** Linking a buffer nobody points at moves its own root and no other. */
  lemma LinkRoots(bufs: Buffers, b: Id, t: Id, x: Id)
    requires b in bufs && x in bufs && b != t && Ends(bufs, x) && Ends(bufs, t)
    requires forall y :: y in bufs ==> bufs[y].canonical != Some(b)
    ensures var linked := bufs[b := bufs[b].(canonical := Some(t))];
      && Ends(linked, x)
      && Root(linked, x) == if x == b then Root(bufs, t) else Root(bufs, x)
  {
    var linked := bufs[b := bufs[b].(canonical := Some(t))];
    var fuel: nat :| Follow(bufs, t, fuel).Some?;
    FollowAround(bufs, linked, b, t, fuel);
    if x == b {
      RootOfLink(linked, b);
    } else {
      var fuelX: nat :| Follow(bufs, x, fuelX).Some?;
      FollowAround(bufs, linked, b, x, fuelX);
    }
  }

  /** Every chain ends at the root the trace names, and every root counts the open
      buffers that use its memory. */
  ghost predicate StoreMatches(infos: map<Id, Info>, bufs: Buffers, trace: Trace) {
    && bufs.Keys == infos.Keys
    && (forall b :: b in infos ==> Ends(bufs, b) && Root(bufs, b) == RootIn(trace, b))
    && (forall r :: IsRoot(infos, trace, r) ==> bufs[r].refCount == |Users(infos, trace, r)|)
  }

  function SizeOf(infos: map<Id, Info>): Id -> int { (b: Id) => if b in infos then infos[b].size else 0 }

  function UnpaddedOf(infos: map<Id, Info>): Id -> int { (b: Id) => if b in infos then infos[b].unpaddedSize else 0 }

  ghost predicate NoRepeats(s: seq<Id>) {
    forall i, j :: 0 <= i < j < |s| ==> s[i] != s[j]
  }

  ghost predicate InUse(infos: map<Id, Info>, trace: Trace, r: Id) {
    IsRoot(infos, trace, r) && Users(infos, trace, r) != {}
  }

  /** The live list holds exactly the roots in use, and the heap is their sum. */
  ghost predicate LiveMatches(infos: map<Id, Info>, s: Stats, trace: Trace) {
    && NoRepeats(s.live)
    && (forall r :: r in s.live <==> InUse(infos, trace, r))
    && s.heap == SumBy(s.live, SizeOf(infos)) && s.unpaddedHeap == SumBy(s.live, UnpaddedOf(infos))
  }

  lemma {:induction false} SumIsNatural(infos: map<Id, Info>, s: seq<Id>)
    ensures SumBy(s, SizeOf(infos)) >= 0 && SumBy(s, UnpaddedOf(infos)) >= 0
  {
    if s != [] {
      SumIsNatural(infos, s[1..]);
      assert s[0] in infos ==> infos[s[0]].size >= 0 && infos[s[0]].unpaddedSize >= 0;
    }
  }

  lemma {:induction false} RemoveOnce(s: seq<Id>, x: Id, f: Id -> int)
    requires NoRepeats(s)
    ensures NoRepeats(RemoveAll(s, x))
    ensures forall y :: y in RemoveAll(s, x) <==> y in s && y != x
    ensures SumBy(RemoveAll(s, x), f) == SumBy(s, f) - if x in s then f(x) else 0
  {
    if s != [] {
      var rest := RemoveAll(s[1..], x);
      RemoveOnce(s[1..], x, f);
      assert s == [s[0]] + s[1..];
      assert s[0] !in s[1..];
      if s[0] != x {
        assert RemoveAll(s, x) == [s[0]] + rest;
        assert RemoveAll(s, x)[1..] == rest;
        assert forall i :: 0 <= i < |rest| ==> rest[i] in rest;
      }
    }
  }

  lemma GrowLive(infos: map<Id, Info>, s: Stats, trace: Trace, longer: Trace, b: Id)
    requires LiveMatches(infos, s, trace) && b in infos && !InUse(infos, trace, b)
    requires forall r :: InUse(infos, longer, r) <==> InUse(infos, trace, r) || r == b
    ensures LiveMatches(infos, Increase(infos, s, b), longer)
  {
    SumByAppend(s.live, b, SizeOf(infos));
    SumByAppend(s.live, b, UnpaddedOf(infos));
  }

  lemma ShrinkLive(infos: map<Id, Info>, s: Stats, trace: Trace, longer: Trace, b: Id)
    requires LiveMatches(infos, s, trace) && b in infos && InUse(infos, trace, b)
    requires forall r :: InUse(infos, longer, r) <==> InUse(infos, trace, r) && r != b
    ensures LiveMatches(infos, Decrease(infos, s, b), longer) && Decrease(infos, s, b).heap >= 0
  {
    RemoveOnce(s.live, b, SizeOf(infos));
    RemoveOnce(s.live, b, UnpaddedOf(infos));
    SumIsNatural(infos, RemoveAll(s.live, b));
  }

  /** The buffers and the live list both agree with the trace so far. */
  ghost predicate Matches(infos: map<Id, Info>, o: Outcome, trace: Trace) {
    && o.Running? && StoreMatches(infos, o.bufs, trace) && LiveMatches(infos, o.stats, trace)
    && |o.stats.timeline| == |o.stats.unpaddedTimeline| == |trace|
  }

  lemma KeepRoots(infos: map<Id, Info>, bufs: Buffers, after: Buffers, trace: Trace, longer: Trace)
    requires StoreMatches(infos, bufs, trace) && SameLinks(bufs, after)
    requires forall b :: b in infos ==> RootIn(longer, b) == RootIn(trace, b)
    requires forall r :: IsRoot(infos, longer, r) ==> after[r].refCount == |Users(infos, longer, r)|
    ensures StoreMatches(infos, after, longer)
  {
    forall b | b in infos ensures Ends(after, b) && Root(after, b) == RootIn(longer, b) {
      SameRoots(bufs, after, b);
    }
  }

  /** Nobody resolves through a buffer that was not introduced. */
  lemma NobodyPointsAt(infos: map<Id, Info>, bufs: Buffers, trace: Trace, b: Id)
    requires RootsAreSound(infos, trace) && StoreMatches(infos, bufs, trace)
    requires b in infos && !Introduced(trace, b)
    ensures bufs[b].canonical.None?
    ensures forall y :: y in bufs ==> bufs[y].canonical != Some(b)
  {
    assert IsRoot(infos, trace, b);
    forall y | y in bufs && bufs[y].canonical == Some(b) ensures false {
      RootOfLink(bufs, y);
    }
  }

  lemma AllocTrace(infos: map<Id, Info>, trace: Trace, b: Id)
    requires RootsAreSound(infos, trace) && b in infos && Allowed(infos, trace, Alloc(b))
    ensures IsRoot(infos, trace, b) && Users(infos, trace, b) == {}
    ensures forall x :: x in infos ==> RootIn(trace + [Alloc(b)], x) == RootIn(trace, x)
    ensures forall r :: Users(infos, trace + [Alloc(b)], r) == if r == b then {b} else Users(infos, trace, r)
    ensures forall r :: InUse(infos, trace + [Alloc(b)], r) <==> InUse(infos, trace, r) || r == b
  {
    var e := Alloc(b);
    forall x | x in infos ensures RootIn(trace + [e], x) == RootIn(trace, x) { RootStep(infos, trace, e, x); }
    UsersStep(infos, trace, e, b);
    forall r ensures Users(infos, trace + [e], r) == if r == b then {b} else Users(infos, trace, r) {
      UsersStep(infos, trace, e, r);
    }
  }

  lemma AllocStore(infos: map<Id, Info>, bufs: Buffers, trace: Trace, b: Id, span: (nat, nat))
    requires RootsAreSound(infos, trace) && StoreMatches(infos, bufs, trace)
    requires b in infos && Allowed(infos, trace, Alloc(b))
    ensures Ends(bufs, b) && Root(bufs, b) == b
    ensures StoreMatches(infos, SetSpan(AddRef(bufs, b, 1), b, span), trace + [Alloc(b)])
  {
    AllocTrace(infos, trace, b);
    assert bufs[b].refCount == 0;
    KeepRoots(infos, bufs, SetSpan(AddRef(bufs, b, 1), b, span), trace, trace + [Alloc(b)]);
  }

  lemma StepAlloc(infos: map<Id, Info>, size: nat, bufs: Buffers, stats: Stats, b: Id)
    requires bufs.Keys == infos.Keys && b in infos && Ends(bufs, b) && Root(bufs, b) == b
    ensures Step(infos, size, bufs, stats, Alloc(b))
         == Running(SetSpan(AddRef(bufs, b, 1), b, (|stats.timeline|, LastEvent(size))),
                    Increase(infos, Record(infos, stats, Alloc(b)), b))
  {
  }

  lemma AllocLive(infos: map<Id, Info>, s: Stats, trace: Trace, b: Id)
    requires RootsAreSound(infos, trace) && LiveMatches(infos, s, trace)
    requires b in infos && Allowed(infos, trace, Alloc(b))
    ensures LiveMatches(infos, Increase(infos, s, b), trace + [Alloc(b)])
  {
    AllocTrace(infos, trace, b);
    GrowLive(infos, s, trace, trace + [Alloc(b)], b);
  }

  lemma AllocMatches(infos: map<Id, Info>, size: nat, bufs: Buffers, stats: Stats, trace: Trace, b: Id)
    requires RootsAreSound(infos, trace) && Matches(infos, Running(bufs, stats), trace)
    requires b in infos && Allowed(infos, trace, Alloc(b))
    ensures Matches(infos, Step(infos, size, bufs, stats, Alloc(b)), trace + [Alloc(b)])
  {
    AllocStore(infos, bufs, trace, b, (|stats.timeline|, LastEvent(size)));
    AllocLive(infos, Record(infos, stats, Alloc(b)), trace, b);
    StepAlloc(infos, size, bufs, stats, b);
  }

  lemma FreeTrace(infos: map<Id, Info>, trace: Trace, b: Id)
    requires RootsAreSound(infos, trace) && b in infos && Allowed(infos, trace, Free(b))
    ensures var root := RootIn(trace, b);
      && IsRoot(infos, trace, root) && b in Users(infos, trace, root)
      && (forall r :: Users(infos, trace + [Free(b)], r)
                    == if r == root then Users(infos, trace, r) - {b} else Users(infos, trace, r))
      && (forall r :: InUse(infos, trace + [Free(b)], r)
                    <==> InUse(infos, trace, r) && (r == root ==> Users(infos, trace, r) != {b}))
    ensures forall x :: x in infos ==> RootIn(trace + [Free(b)], x) == RootIn(trace, x)
  {
    var e, root := Free(b), RootIn(trace, b);
    forall x | x in infos ensures RootIn(trace + [e], x) == RootIn(trace, x) { RootStep(infos, trace, e, x); }
    UsersStep(infos, trace, e, root);
    forall r
      ensures Users(infos, trace + [e], r)
           == if r == root then Users(infos, trace, r) - {b} else Users(infos, trace, r)
    {
      UsersStep(infos, trace, e, r);
    }
  }

  lemma FreeCount(infos: map<Id, Info>, bufs: Buffers, trace: Trace, b: Id)
    requires RootsAreSound(infos, trace) && StoreMatches(infos, bufs, trace)
    requires b in infos && Allowed(infos, trace, Free(b))
    ensures Ends(bufs, b) && Root(bufs, b) == RootIn(trace, b)
    ensures bufs[RootIn(trace, b)].refCount >= 1
    ensures bufs[RootIn(trace, b)].refCount == 1 <==> Users(infos, trace, RootIn(trace, b)) == {b}
  {
    FreeTrace(infos, trace, b);
    SizeOne(Users(infos, trace, RootIn(trace, b)), b);
  }

  lemma FreeCountOf(infos: map<Id, Info>, bufs: Buffers, trace: Trace, b: Id, r: Id)
    requires RootsAreSound(infos, trace) && StoreMatches(infos, bufs, trace)
    requires b in infos && Allowed(infos, trace, Free(b)) && RootIn(trace, b) in bufs
    requires IsRoot(infos, trace + [Free(b)], r)
    ensures AddRef(bufs, RootIn(trace, b), -1)[r].refCount == |Users(infos, trace + [Free(b)], r)|
  {
    FreeTrace(infos, trace, b);
    assert IsRoot(infos, trace, r);
    if r == RootIn(trace, b) { OneFewer(Users(infos, trace, r), b); }
  }

  lemma FreeCounts(infos: map<Id, Info>, bufs: Buffers, trace: Trace, b: Id, after: Buffers)
    requires RootsAreSound(infos, trace) && StoreMatches(infos, bufs, trace) && after.Keys == infos.Keys
    requires b in infos && Allowed(infos, trace, Free(b)) && RootIn(trace, b) in bufs
    requires forall r :: r in infos ==> after[r].refCount == AddRef(bufs, RootIn(trace, b), -1)[r].refCount
    ensures forall r :: IsRoot(infos, trace + [Free(b)], r) ==>
              after[r].refCount == |Users(infos, trace + [Free(b)], r)|
  {
    forall r | IsRoot(infos, trace + [Free(b)], r)
      ensures after[r].refCount == |Users(infos, trace + [Free(b)], r)|
    {
      FreeCountOf(infos, bufs, trace, b, r);
    }
  }

  lemma OneFewer(s: set<Id>, b: Id)
    requires b in s
    ensures |s - {b}| == |s| - 1
  {
  }

  lemma FreeStore(infos: map<Id, Info>, bufs: Buffers, trace: Trace, b: Id, after: Buffers)
    requires RootsAreSound(infos, trace) && StoreMatches(infos, bufs, trace)
    requires b in infos && Allowed(infos, trace, Free(b)) && SameLinks(bufs, after)
    requires RootIn(trace, b) in bufs
    requires forall r :: r in infos ==> after[r].refCount == AddRef(bufs, RootIn(trace, b), -1)[r].refCount
    ensures StoreMatches(infos, after, trace + [Free(b)])
  {
    FreeTrace(infos, trace, b);
    FreeCounts(infos, bufs, trace, b, after);
    KeepRoots(infos, bufs, after, trace, trace + [Free(b)]);
  }

  /** The buffers after a free that does not fail. */
  function AfterFree(bufs: Buffers, b: Id, root: Id, now: nat): (r: Buffers)
    requires b in bufs && root in bufs
    ensures SameLinks(bufs, r)
    ensures forall x :: x in bufs ==> r[x].refCount == AddRef(bufs, root, -1)[x].refCount
  {
    var freed := AddRef(bufs, root, -1);
    var emptied := if freed[root].refCount == 0 then EndSpan(freed, root, now) else freed;
    if bufs[b].canonical.Some? then EndSpan(emptied, b, now) else emptied
  }

  lemma StepFree(infos: map<Id, Info>, size: nat, bufs: Buffers, stats: Stats, b: Id)
    requires bufs.Keys == infos.Keys && b in infos && Ends(bufs, b)
    requires bufs[Root(bufs, b)].refCount >= 1
    requires bufs[Root(bufs, b)].refCount == 1 ==> stats.heap >= infos[Root(bufs, b)].size
    ensures var root, s := Root(bufs, b), Record(infos, stats, Free(b));
      Step(infos, size, bufs, stats, Free(b))
      == Running(AfterFree(bufs, b, root, |stats.timeline|),
                 if bufs[root].refCount == 1 then Decrease(infos, s, root) else s)
  {
  }

  lemma SizeOne(s: set<Id>, b: Id)
    requires b in s
    ensures |s| >= 1 && (|s| == 1 <==> s == {b})
  {
    if |s| == 1 {
      assert |s - {b}| == 0;
    }
  }

  lemma FreeMatches(infos: map<Id, Info>, size: nat, bufs: Buffers, stats: Stats, trace: Trace, b: Id)
    requires RootsAreSound(infos, trace) && Matches(infos, Running(bufs, stats), trace)
    requires b in infos && Allowed(infos, trace, Free(b))
    ensures Matches(infos, Step(infos, size, bufs, stats, Free(b)), trace + [Free(b)])
  {
    var s, root, longer := Record(infos, stats, Free(b)), RootIn(trace, b), trace + [Free(b)];
    FreeCount(infos, bufs, trace, b);
    FreeStore(infos, bufs, trace, b, AfterFree(bufs, b, root, |stats.timeline|));
    FreeLive(infos, s, trace, b);
    assert bufs[root].refCount == 1 ==> stats.heap >= infos[root].size;
    StepFree(infos, size, bufs, stats, b);
  }

  lemma FreeLive(infos: map<Id, Info>, s: Stats, trace: Trace, b: Id)
    requires RootsAreSound(infos, trace) && LiveMatches(infos, s, trace)
    requires b in infos && Allowed(infos, trace, Free(b))
    ensures RootIn(trace, b) in infos
    ensures Users(infos, trace, RootIn(trace, b)) != {b} ==> LiveMatches(infos, s, trace + [Free(b)])
    ensures Users(infos, trace, RootIn(trace, b)) == {b} ==> s.heap >= infos[RootIn(trace, b)].size
    ensures Users(infos, trace, RootIn(trace, b)) == {b}
            ==> LiveMatches(infos, Decrease(infos, s, RootIn(trace, b)), trace + [Free(b)])
  {
    FreeTrace(infos, trace, b);
    if Users(infos, trace, RootIn(trace, b)) == {b} {
      ShrinkLive(infos, s, trace, trace + [Free(b)], RootIn(trace, b));
    }
  }

  lemma ShareTrace(infos: map<Id, Info>, trace: Trace, b: Id, t: Id)
    requires RootsAreSound(infos, trace) && b in infos && Allowed(infos, trace, ShareWith(b, t))
    ensures var longer, root := trace + [ShareWith(b, t)], RootIn(trace, t);
      && root != b && IsRoot(infos, trace, root) && b !in Users(infos, trace, root)
      && (forall x :: x in infos ==> RootIn(longer, x) == if x == b then root else RootIn(trace, x))
      && (forall r :: IsRoot(infos, longer, r) <==> IsRoot(infos, trace, r) && r != b)
      && (forall r :: Users(infos, longer, r)
                    == if r == root then Users(infos, trace, r) + {b} else Users(infos, trace, r))
      && Users(infos, trace, b) == {}
      && (forall r :: InUse(infos, longer, r) <==> InUse(infos, trace, r) || r == root)
  {
    var e, longer, root := ShareWith(b, t), trace + [ShareWith(b, t)], RootIn(trace, t);
    forall x | x in infos ensures RootIn(longer, x) == if x == b then root else RootIn(trace, x) {
      RootStep(infos, trace, e, x);
    }
    UsersStep(infos, trace, e, b);
    UsersStep(infos, trace, e, root);
    forall r
      ensures Users(infos, longer, r) == if r == root then Users(infos, trace, r) + {b} else Users(infos, trace, r)
    {
      UsersStep(infos, trace, e, r);
    }
  }

  lemma ShareRoots(infos: map<Id, Info>, bufs: Buffers, trace: Trace, b: Id, t: Id, after: Buffers)
    requires RootsAreSound(infos, trace) && StoreMatches(infos, bufs, trace)
    requires b in infos && Allowed(infos, trace, ShareWith(b, t))
    requires SameLinks(bufs[b := bufs[b].(canonical := Some(t))], after)
    ensures forall x :: x in infos ==> Ends(after, x) && Root(after, x) == RootIn(trace + [ShareWith(b, t)], x)
  {
    var linked := bufs[b := bufs[b].(canonical := Some(t))];
    ShareTrace(infos, trace, b, t);
    NobodyPointsAt(infos, bufs, trace, b);
    forall x | x in infos ensures Ends(after, x) && Root(after, x) == RootIn(trace + [ShareWith(b, t)], x) {
      LinkRoots(bufs, b, t, x);
      SameRoots(linked, after, x);
    }
  }

  lemma ShareStore(infos: map<Id, Info>, bufs: Buffers, trace: Trace, b: Id, t: Id, after: Buffers)
    requires RootsAreSound(infos, trace) && StoreMatches(infos, bufs, trace)
    requires b in infos && Allowed(infos, trace, ShareWith(b, t))
    requires SameLinks(bufs[b := bufs[b].(canonical := Some(t))], after)
    requires forall r :: r in infos ==> after[r].refCount == AddRef(bufs, RootIn(trace, t), 1)[r].refCount
    ensures StoreMatches(infos, after, trace + [ShareWith(b, t)])
  {
    ShareRoots(infos, bufs, trace, b, t, after);
    ShareCounts(infos, bufs, trace, b, t, after);
  }

  lemma ShareCounts(infos: map<Id, Info>, bufs: Buffers, trace: Trace, b: Id, t: Id, after: Buffers)
    requires RootsAreSound(infos, trace) && StoreMatches(infos, bufs, trace) && after.Keys == infos.Keys
    requires b in infos && Allowed(infos, trace, ShareWith(b, t)) && RootIn(trace, t) in bufs
    requires forall r :: r in infos ==> after[r].refCount == AddRef(bufs, RootIn(trace, t), 1)[r].refCount
    ensures forall r :: IsRoot(infos, trace + [ShareWith(b, t)], r) ==>
              after[r].refCount == |Users(infos, trace + [ShareWith(b, t)], r)|
  {
    ShareTrace(infos, trace, b, t);
  }

  /** The buffers after `b` came to share the memory of `root` through `t`. */
  function AfterShare(bufs: Buffers, b: Id, t: Id, root: Id, span: (nat, nat)): (r: Buffers)
    requires b in bufs && root in bufs
    ensures SameLinks(bufs[b := bufs[b].(canonical := Some(t))], r)
    ensures forall x :: x in bufs ==> r[x].refCount == AddRef(bufs, root, 1)[x].refCount
  {
    var shared := AddRef(bufs[b := bufs[b].(canonical := Some(t))], root, 1);
    if bufs[root].refCount == 0 then SetSpan(shared, b, span) else shared
  }

  function StatsAfterShare(infos: map<Id, Info>, s: Stats, revives: bool, b: Id, root: Id): (r: Stats)
    requires root in infos
    ensures r.timeline == s.timeline && r.unpaddedTimeline == s.unpaddedTimeline
  {
    if revives then Increase(infos, s.(displayOf := s.displayOf[root := b]), root) else s
  }

  lemma StepShare(infos: map<Id, Info>, size: nat, bufs: Buffers, stats: Stats, b: Id, t: Id, root: Id)
    requires bufs.Keys == infos.Keys && b in infos && t in infos
    requires var linked := bufs[b := bufs[b].(canonical := Some(t))]; Ends(linked, t) && Root(linked, t) == root
    ensures root in infos
    ensures Step(infos, size, bufs, stats, ShareWith(b, t))
         == Running(AfterShare(bufs, b, t, root, (|stats.timeline|, LastEvent(size))),
                    StatsAfterShare(infos, Record(infos, stats, ShareWith(b, t)), bufs[root].refCount == 0, b, root))
  {
  }

  lemma ShareLive(infos: map<Id, Info>, s: Stats, trace: Trace, b: Id, t: Id)
    requires RootsAreSound(infos, trace) && LiveMatches(infos, s, trace)
    requires b in infos && Allowed(infos, trace, ShareWith(b, t))
    ensures RootIn(trace, t) in infos
    ensures var root := RootIn(trace, t);
      LiveMatches(infos, StatsAfterShare(infos, s, Users(infos, trace, root) == {}, b, root), trace + [ShareWith(b, t)])
  {
    ShareTrace(infos, trace, b, t);
    var root := RootIn(trace, t);
    if Users(infos, trace, root) == {} {
      GrowLive(infos, s.(displayOf := s.displayOf[root := b]), trace, trace + [ShareWith(b, t)], root);
    }
  }

  /** What one sharing does, in terms of the trace. */
  lemma ShareOutcome(infos: map<Id, Info>, size: nat, bufs: Buffers, stats: Stats, trace: Trace, b: Id, t: Id)
    requires RootsAreSound(infos, trace) && StoreMatches(infos, bufs, trace)
    requires b in infos && Allowed(infos, trace, ShareWith(b, t))
    ensures RootIn(trace, t) in infos
    ensures var root := RootIn(trace, t);
      Step(infos, size, bufs, stats, ShareWith(b, t))
      == Running(AfterShare(bufs, b, t, root, (|stats.timeline|, LastEvent(size))),
                 StatsAfterShare(infos, Record(infos, stats, ShareWith(b, t)), Users(infos, trace, root) == {},
                                 b, root))
  {
    ShareRootOf(infos, bufs, trace, b, t);
    StepShare(infos, size, bufs, stats, b, t, RootIn(trace, t));
    assert |Users(infos, trace, RootIn(trace, t))| == 0 <==> Users(infos, trace, RootIn(trace, t)) == {};
  }

  lemma ShareMatches(infos: map<Id, Info>, size: nat, bufs: Buffers, stats: Stats, trace: Trace, b: Id, t: Id)
    requires RootsAreSound(infos, trace) && Matches(infos, Running(bufs, stats), trace)
    requires b in infos && Allowed(infos, trace, ShareWith(b, t))
    ensures Matches(infos, Step(infos, size, bufs, stats, ShareWith(b, t)), trace + [ShareWith(b, t)])
  {
    ShareOutcome(infos, size, bufs, stats, trace, b, t);
    var s := Record(infos, stats, ShareWith(b, t));
    AfterShareMatches(infos, bufs, s, trace, b, t, (|stats.timeline|, LastEvent(size)));
  }

  lemma AfterShareMatches(infos: map<Id, Info>, bufs: Buffers, s: Stats, trace: Trace, b: Id, t: Id, span: (nat, nat))
    requires RootsAreSound(infos, trace) && StoreMatches(infos, bufs, trace) && LiveMatches(infos, s, trace)
    requires b in infos && Allowed(infos, trace, ShareWith(b, t))
    requires |s.timeline| == |s.unpaddedTimeline| == |trace| + 1
    ensures RootIn(trace, t) in bufs
    ensures var root := RootIn(trace, t);
      Matches(infos, Running(AfterShare(bufs, b, t, root, span),
                             StatsAfterShare(infos, s, Users(infos, trace, root) == {}, b, root)),
              trace + [ShareWith(b, t)])
  {
    ShareStore(infos, bufs, trace, b, t, AfterShare(bufs, b, t, RootIn(trace, t), span));
    ShareLive(infos, s, trace, b, t);
  }

  lemma ShareRootOf(infos: map<Id, Info>, bufs: Buffers, trace: Trace, b: Id, t: Id)
    requires RootsAreSound(infos, trace) && StoreMatches(infos, bufs, trace)
    requires b in infos && Allowed(infos, trace, ShareWith(b, t))
    ensures var linked := bufs[b := bufs[b].(canonical := Some(t))];
      && Ends(linked, t) && Root(linked, t) == RootIn(trace, t)
      && linked[RootIn(trace, t)].refCount == |Users(infos, trace, RootIn(trace, t))|
  {
    var linked := bufs[b := bufs[b].(canonical := Some(t))];
    ShareTrace(infos, trace, b, t);
    ShareRoots(infos, bufs, trace, b, t, linked);
  }

  lemma UnknownMatches(infos: map<Id, Info>, size: nat, bufs: Buffers, stats: Stats, trace: Trace, e: Event)
    requires RootsAreSound(infos, trace) && Matches(infos, Running(bufs, stats), trace) && e.id !in infos
    ensures Matches(infos, Step(infos, size, bufs, stats, e), trace + [e])
  {
    forall x | x in infos ensures RootIn(trace + [e], x) == RootIn(trace, x) { RootStep(infos, trace, e, x); }
    forall r ensures Users(infos, trace + [e], r) == Users(infos, trace, r) { UsersStep(infos, trace, e, r); }
    KeepRoots(infos, bufs, bufs, trace, trace + [e]);
  }

  /** At every step of a well-formed trace the reference counts, the live list and
      the heap size agree with the trace; no event fails or runs forever. */
  lemma {:induction false} ReplayMatches(infos: map<Id, Info>, size: nat, trace: Trace)
    requires WellFormed(infos, trace)
    ensures Matches(infos, Replay(infos, size, Untouched(infos), trace), trace)
    decreases |trace|
  {
    if trace == [] {
      StartMatches(infos);
    } else {
      var front, e := trace[..|trace| - 1], trace[|trace| - 1];
      assert trace == front + [e];
      WellFormedPrefix(infos, front, e);
      ReplayMatches(infos, size, front);
      RootsOf(infos, front);
      var o := Replay(infos, size, Untouched(infos), front);
      if e.id !in infos {
        UnknownMatches(infos, size, o.bufs, o.stats, front, e);
      } else {
        match e
        case Alloc(b) => AllocMatches(infos, size, o.bufs, o.stats, front, b);
        case Free(b) => FreeMatches(infos, size, o.bufs, o.stats, front, b);
        case ShareWith(b, t) => ShareMatches(infos, size, o.bufs, o.stats, front, b, t);
        case Other(_) =>
      }
    }
  }

  lemma StartMatches(infos: map<Id, Info>)
    ensures Matches(infos, Running(Untouched(infos), NoStats), [])
  {
    forall b | b in infos ensures Ends(Untouched(infos), b) && Root(Untouched(infos), b) == b {
      RootOfLink(Untouched(infos), b);
    }
  }
}
