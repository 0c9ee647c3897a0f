/** Which buffer is shown for the memory of a root. */
module HeapDisplay {
  import opened Collections
  import opened HeapTrace
  import opened HeapSpec
  import opened HeapTheorems
  import opened HeapPeaks

  /** A sharing that finds the memory of `root` unused. */
  ghost predicate Revives(infos: map<Id, Info>, front: Trace, e: Event, root: Id) {
    && e.ShareWith? && e.id in infos && e.target in infos
    && RootIn(front, e.target) == root && Users(infos, front, root) == {}
  }

  ghost function LastReviver(infos: map<Id, Info>, trace: Trace, root: Id): Option<Id> {
    if trace == [] then None
    else
      var front, last := trace[..|trace| - 1], trace[|trace| - 1];
      if Revives(infos, front, last, root) then Some(last.id) else LastReviver(infos, front, root)
  }

  function Lookup(display: map<Id, Id>, root: Id): Option<Id> {
    if root in display then Some(display[root]) else None
  }

  /** The map leads from each root that was ever revived to its latest reviver. */
  ghost predicate ShowsRevivers(infos: map<Id, Info>, display: map<Id, Id>, trace: Trace) {
    forall r :: Lookup(display, r) == LastReviver(infos, trace, r)
  }

  /** The snapshot of the map is that of the peak. */
  ghost predicate PeakShows(infos: map<Id, Info>, s: Stats, trace: Trace) {
    && s.peakHeap >= 0
    && if s.peakHeap == 0 then s.peakDisplayOf == map[]
       else 0 <= s.peakPosition < |trace| && ShowsRevivers(infos, s.peakDisplayOf, trace[..s.peakPosition + 1])
  }

  lemma ReviverStep(infos: map<Id, Info>, front: Trace, e: Event, root: Id)
    ensures LastReviver(infos, front + [e], root)
         == if Revives(infos, front, e, root) then Some(e.id) else LastReviver(infos, front, root)
  {
    assert (front + [e])[..|front|] == front;
  }

  lemma NothingRevived(infos: map<Id, Info>, display: map<Id, Id>, front: Trace, e: Event)
    requires ShowsRevivers(infos, display, front) && (e.id !in infos || !e.ShareWith?)
    ensures ShowsRevivers(infos, display, front + [e])
  {
    forall r ensures LastReviver(infos, front + [e], r) == LastReviver(infos, front, r) {
      ReviverStep(infos, front, e, r);
    }
  }

  lemma ShareRevives(infos: map<Id, Info>, display: map<Id, Id>, front: Trace, b: Id, t: Id)
    requires ShowsRevivers(infos, display, front) && b in infos && t in infos
    ensures var root := RootIn(front, t);
      ShowsRevivers(infos, if Users(infos, front, root) == {} then display[root := b] else display,
                    front + [ShareWith(b, t)])
  {
    var e, root := ShareWith(b, t), RootIn(front, t);
    var after := if Users(infos, front, root) == {} then display[root := b] else display;
    forall r ensures Lookup(after, r) == LastReviver(infos, front + [e], r) {
      assert Lookup(display, r) == LastReviver(infos, front, r);
      ReviverStep(infos, front, e, r);
    }
  }

  lemma OnlySharingShows(infos: map<Id, Info>, size: nat, bufs: Buffers, stats: Stats, e: Event)
    requires bufs.Keys == infos.Keys && (e.id !in infos || !e.ShareWith?)
    requires Step(infos, size, bufs, stats, e).Running?
    ensures Step(infos, size, bufs, stats, e).stats.displayOf == stats.displayOf
  {
  }

  lemma StepKeepsDisplay(infos: map<Id, Info>, size: nat, bufs: Buffers, stats: Stats, front: Trace, e: Event)
    requires RootsAreSound(infos, front) && StoreMatches(infos, bufs, front) && Allowed(infos, front, e)
    requires ShowsRevivers(infos, stats.displayOf, front) && Step(infos, size, bufs, stats, e).Running?
    ensures ShowsRevivers(infos, Step(infos, size, bufs, stats, e).stats.displayOf, front + [e])
  {
    if e.id in infos && e.ShareWith? {
      ShareRevives(infos, stats.displayOf, front, e.id, e.target);
      ShareOutcome(infos, size, bufs, stats, front, e.id, e.target);
      SharingShows(infos, Record(infos, stats, e), e.id, RootIn(front, e.target));
    } else {
      NothingRevived(infos, stats.displayOf, front, e);
      OnlySharingShows(infos, size, bufs, stats, e);
    }
  }

  lemma SharingShows(infos: map<Id, Info>, s: Stats, b: Id, root: Id)
    requires root in infos
    ensures StatsAfterShare(infos, s, true, b, root).displayOf == s.displayOf[root := b]
    ensures StatsAfterShare(infos, s, false, b, root).displayOf == s.displayOf
  {
  }

  lemma PeakDisplayStays(infos: map<Id, Info>, s: Stats, after: Stats, front: Trace, e: Event)
    requires PeakShows(infos, s, front)
    requires after.peakHeap == s.peakHeap && after.peakPosition == s.peakPosition
    requires after.peakDisplayOf == s.peakDisplayOf
    ensures PeakShows(infos, after, front + [e])
  {
    if s.peakHeap > 0 { assert (front + [e])[..s.peakPosition + 1] == front[..s.peakPosition + 1]; }
  }

  lemma MoveKeepsPeakDisplay(infos: map<Id, Info>, s: Stats, after: Stats, front: Trace, e: Event)
    requires PeakShows(infos, s, front) && Moved(infos, s, after) && |s.timeline| == |front| + 1
    requires ShowsRevivers(infos, after.displayOf, front + [e])
    ensures PeakShows(infos, after, front + [e])
  {
    if after.peakHeap == s.peakHeap {
      PeakDisplayStays(infos, s, after, front, e);
    } else {
      assert (front + [e])[..|front| + 1] == front + [e];
    }
  }

  lemma StepKeepsDisplays(infos: map<Id, Info>, size: nat, bufs: Buffers, stats: Stats, front: Trace, e: Event)
    requires RootsAreSound(infos, front) && Matches(infos, Running(bufs, stats), front) && Allowed(infos, front, e)
    requires ShowsRevivers(infos, stats.displayOf, front) && PeakShows(infos, stats, front)
    requires Step(infos, size, bufs, stats, e).Running?
    ensures ShowsRevivers(infos, Step(infos, size, bufs, stats, e).stats.displayOf, front + [e])
    ensures PeakShows(infos, Step(infos, size, bufs, stats, e).stats, front + [e])
  {
    StepKeepsDisplay(infos, size, bufs, stats, front, e);
    StepShape(infos, size, bufs, stats, e);
    MoveKeepsPeakDisplay(infos, Record(infos, stats, e), Step(infos, size, bufs, stats, e).stats, front, e);
  }

  /** After any well-formed events both maps name the latest revivers. */
  lemma {:induction false} ReplayDisplays(infos: map<Id, Info>, size: nat, trace: Trace)
    requires WellFormed(infos, trace)
    ensures Matches(infos, Replay(infos, size, Untouched(infos), trace), trace)
    ensures ShowsRevivers(infos, Replay(infos, size, Untouched(infos), trace).stats.displayOf, trace)
    ensures PeakShows(infos, Replay(infos, size, Untouched(infos), trace).stats, trace)
    decreases |trace|
  {
    ReplayMatches(infos, size, trace);
    if trace != [] {
      var front, e := trace[..|trace| - 1], trace[|trace| - 1];
      assert trace == front + [e];
      WellFormedPrefix(infos, front, e);
      ReplayDisplays(infos, size, front);
      RootsOf(infos, front);
      var o := Replay(infos, size, Untouched(infos), front);
      StepKeepsDisplays(infos, size, o.bufs, o.stats, front, e);
    }
  }

  // Is the shown buffer the one that uses the memory?

  /** The buffer that is shown for a root: the entry of the map, or the root itself. */
  function ShownFor(display: map<Id, Id>, root: Id): Id {
    if root in display then display[root] else root
  }

  lemma {:induction false} ReviverJoined(infos: map<Id, Info>, trace: Trace, root: Id)
    requires WellFormed(infos, trace) && LastReviver(infos, trace, root).Some?
    ensures var d := LastReviver(infos, trace, root).value;
      d in infos && Introduced(trace, d) && RootIn(trace, d) == root
    decreases |trace|
  {
    var front, e := trace[..|trace| - 1], trace[|trace| - 1];
    assert trace == front + [e];
    WellFormedPrefix(infos, front, e);
    Append(front, e);
    if !Revives(infos, front, e, root) { ReviverJoined(infos, front, root); }
  }

  /** Memory in use belongs to a root that was introduced. */
  lemma InUseIsIntroduced(infos: map<Id, Info>, trace: Trace, root: Id)
    requires RootsAreSound(infos, trace) && InUse(infos, trace, root)
    ensures Introduced(trace, root)
  {
    var b :| b in Users(infos, trace, root);
  }

  /** The shown buffer uses the memory exactly when it has not been freed. */
  lemma ShownUsesMemory(infos: map<Id, Info>, trace: Trace, display: map<Id, Id>, root: Id)
    requires WellFormed(infos, trace) && ShowsRevivers(infos, display, trace) && InUse(infos, trace, root)
    ensures ShownFor(display, root) in Users(infos, trace, root) <==> !Freed(trace, ShownFor(display, root))
  {
    RootsOf(infos, trace);
    InUseIsIntroduced(infos, trace, root);
    assert Lookup(display, root) == LastReviver(infos, trace, root);
    if root in display { ReviverJoined(infos, trace, root); }
  }

  /** One more event, for a trace that is followed step by step. */
  lemma Follows(infos: map<Id, Info>, front: Trace, e: Event, root: Id)
    requires WellFormed(infos, front) && Allowed(infos, front, e) && e.id in infos && RootIn(front, root) == root
    ensures WellFormed(infos, front + [e])
    ensures !e.ShareWith? || e.id != root ==> RootIn(front + [e], root) == root
    ensures Users(infos, front + [e], root)
         == if (e.Alloc? && e.id == root) || (e.ShareWith? && RootIn(front, e.target) == root)
            then Users(infos, front, root) + {e.id}
            else if e.Free? then Users(infos, front, root) - {e.id} else Users(infos, front, root)
    ensures LastReviver(infos, front + [e], root)
         == if Revives(infos, front, e, root) then Some(e.id) else LastReviver(infos, front, root)
    ensures forall b :: Introduced(front + [e], b) <==> Introduced(front, b) || Introduces(e, b)
    ensures forall b :: Freed(front + [e], b) <==> Freed(front, b) || e == Free(b)
  {
    Append(front, e);
    RootsOf(infos, front);
    UsersStep(infos, front, e, root);
    ReviverStep(infos, front, e, root);
    StaysWellFormed(infos, front, e);
  }

  lemma StaysWellFormed(infos: map<Id, Info>, front: Trace, e: Event)
    requires WellFormed(infos, front) && Allowed(infos, front, e)
    ensures WellFormed(infos, front + [e])
  {
    forall k | 0 <= k < |front + [e]| ensures Allowed(infos, (front + [e])[..k], (front + [e])[k]) {
      if k < |front| {
        assert (front + [e])[..k] == front[..k];
      } else {
        assert (front + [e])[..k] == front;
      }
    }
  }

  lemma ShareGivenBack(infos: map<Id, Info>, trace: Trace, root: Id, a: Id)
    requires WellFormed(infos, trace) && IsRoot(infos, trace, root) && Introduced(trace, root)
    requires Users(infos, trace, root) == {} && a in infos && !Introduced(trace, a)
    ensures var once := trace + [ShareWith(a, root)];
      && WellFormed(infos, once) && IsRoot(infos, once, root) && Introduced(once, root)
      && Users(infos, once, root) == {} + {a} && LastReviver(infos, once, root) == Some(a)
      && Introduced(once, a) && !Freed(once, a)
      && forall b :: b != a && !Introduced(trace, b) ==> !Introduced(once, b)
  {
    RootsOf(infos, trace);
    Follows(infos, trace, ShareWith(a, root), root);
    OneMore(Users(infos, trace, root), {}, a);
  }

  lemma ShareInUse(infos: map<Id, Info>, trace: Trace, root: Id, a: Id, b: Id)
    requires WellFormed(infos, trace) && IsRoot(infos, trace, root) && Introduced(trace, root)
    requires Users(infos, trace, root) == {a} && b in infos && !Introduced(trace, b)
    ensures var twice := trace + [ShareWith(b, root)];
      && WellFormed(infos, twice) && IsRoot(infos, twice, root) && Users(infos, twice, root) == {a} + {b}
      && LastReviver(infos, twice, root) == LastReviver(infos, trace, root)
      && (Introduced(trace, a) ==> Introduced(twice, a)) && (Freed(twice, a) ==> Freed(trace, a))
  {
    Follows(infos, trace, ShareWith(b, root), root);
    OneMore(Users(infos, trace, root), {a}, b);
  }

  lemma OneMore(users: set<Id>, known: set<Id>, b: Id)
    requires users == known
    ensures users + {b} == known + {b}
  {
  }

  lemma FreeOneOfTwo(infos: map<Id, Info>, trace: Trace, root: Id, a: Id, b: Id)
    requires WellFormed(infos, trace) && IsRoot(infos, trace, root) && Users(infos, trace, root) == {a, b}
    requires a in infos && a != b && Introduced(trace, a) && !Freed(trace, a)
    ensures var freed := trace + [Free(a)];
      && WellFormed(infos, freed) && Freed(freed, a) && Users(infos, freed, root) == {b}
      && LastReviver(infos, freed, root) == LastReviver(infos, trace, root)
  {
    Follows(infos, trace, Free(a), root);
    OneIsLeft(a, b);
  }

  lemma OneAndTwo(a: Id, b: Id)
    ensures {} + {a} == {a} && {a} + {b} == {a, b}
  {
  }

  lemma OneIsLeft(a: Id, b: Id)
    requires a != b
    ensures {a, b} - {a} == {b}
  {
  }

  /** Memory that was given back is shared twice: once the first sharer is freed, the
      second still uses it, but the first is shown. */
  lemma FreedBufferIsShown(infos: map<Id, Info>, trace: Trace, root: Id, a: Id, b: Id)
    requires WellFormed(infos, trace) && IsRoot(infos, trace, root) && Introduced(trace, root)
    requires Users(infos, trace, root) == {}
    requires a in infos && b in infos && a != b && !Introduced(trace, a) && !Introduced(trace, b)
    ensures var longer := trace + [ShareWith(a, root)] + [ShareWith(b, root)] + [Free(a)];
      && WellFormed(infos, longer) && Users(infos, longer, root) == {b}
      && LastReviver(infos, longer, root) == Some(a) && Freed(longer, a)
  {
    ShareGivenBack(infos, trace, root, a);
    OneAndTwo(a, b);
    ShareInUse(infos, trace + [ShareWith(a, root)], root, a, b);
    FreeOneOfTwo(infos, trace + [ShareWith(a, root)] + [ShareWith(b, root)], root, a, b);
  }

  /** One buffer allocated and freed leaves such memory. */
  lemma GivenBack(infos: map<Id, Info>, b: Id)
    requires b in infos
    ensures var trace := [Alloc(b)] + [Free(b)];
      && WellFormed(infos, trace) && IsRoot(infos, trace, b) && Introduced(trace, b)
      && Users(infos, trace, b) == {} && forall x :: x != b ==> !Introduced(trace, x)
  {
    Follows(infos, [], Alloc(b), b);
    assert [] + [Alloc(b)] == [Alloc(b)];
    Follows(infos, [Alloc(b)], Free(b), b);
  }

  /** Five events are enough. */
  lemma FiveEventsShowFreed(infos: map<Id, Info>)
    requires 1 in infos && 2 in infos && 3 in infos
    ensures var trace := [Alloc(1)] + [Free(1)] + [ShareWith(2, 1)] + [ShareWith(3, 1)] + [Free(2)];
      && WellFormed(infos, trace) && Users(infos, trace, 1) == {3}
      && LastReviver(infos, trace, 1) == Some(2) && Freed(trace, 2)
  {
    GivenBack(infos, 1);
    FreedBufferIsShown(infos, [Alloc(1)] + [Free(1)], 1, 2, 3);
  }
}
