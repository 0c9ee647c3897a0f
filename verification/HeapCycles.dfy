/** When the recursion along canonical links does not end. */
module HeapCycles {
  import opened Collections
  import opened HeapTrace
  import opened HeapSpec

  /** The chain of `x` comes to `b` after at most `fuel` links. */
  predicate Visits(bufs: Buffers, x: Id, b: Id, fuel: nat)
    decreases fuel
  {
    x in bufs
    && (x == b || (bufs[x].canonical.Some? && fuel > 0 && Visits(bufs, bufs[x].canonical.value, b, fuel - 1)))
  }

  ghost predicate Reaches(bufs: Buffers, x: Id, b: Id) {
    exists fuel: nat :: Visits(bufs, x, b, fuel)
  }

  ghost predicate AllEnd(bufs: Buffers) {
    forall x :: x in bufs ==> Ends(bufs, x)
  }

  function Link(bufs: Buffers, b: Id, t: Id): Buffers
    requires b in bufs
  {
    bufs[b := bufs[b].(canonical := Some(t))]
  }

  /** A chain that does not come to `b` is what it was once `b` is linked. */
  lemma {:induction false} AvoidingStays(bufs: Buffers, b: Id, t: Id, x: Id, fuel: nat)
    requires b in bufs && !Visits(bufs, x, b, fuel)
    ensures Follow(Link(bufs, b, t), x, fuel) == Follow(bufs, x, fuel)
    decreases fuel
  {
    if x in bufs && bufs[x].canonical.Some? && fuel > 0 {
      AvoidingStays(bufs, b, t, bufs[x].canonical.value, fuel - 1);
    }
  }

  /** Linking `b` to a buffer whose chain comes to `b` closes a cycle. */
  lemma {:induction false} CycleNeverEnds(bufs: Buffers, b: Id, t: Id, x: Id, visit: nat, back: nat, fuel: nat)
    requires b in bufs && Visits(bufs, x, b, visit) && Visits(bufs, t, b, back)
    ensures Follow(Link(bufs, b, t), x, fuel).None?
    decreases fuel
  {
    if fuel > 0 {
      if x == b {
        CycleNeverEnds(bufs, b, t, t, back, back, fuel - 1);
      } else {
        CycleNeverEnds(bufs, b, t, bufs[x].canonical.value, visit - 1, back, fuel - 1);
      }
    }
  }

  /** A chain that comes to `b` goes on along the chain of `t`. */
  lemma {:induction false} VisitorsGoOn(bufs: Buffers, b: Id, t: Id, x: Id, visit: nat, fuel: nat)
    requires b in bufs && Visits(bufs, x, b, visit) && Follow(Link(bufs, b, t), t, fuel).Some?
    ensures Follow(Link(bufs, b, t), x, visit + fuel + 1).Some?
    decreases visit
  {
    if x == b {
      MoreFuel(Link(bufs, b, t), t, fuel, visit + fuel);
    } else {
      VisitorsGoOn(bufs, b, t, bufs[x].canonical.value, visit - 1, fuel);
    }
  }

  /** When all chains end, the chain of the target runs forever after a link exactly
      when it already comes to the buffer that is linked. */
  lemma LinkEndsUnlessClosing(bufs: Buffers, b: Id, t: Id)
    requires b in bufs && t in bufs && AllEnd(bufs)
    ensures Ends(Link(bufs, b, t), t) <==> !Reaches(bufs, t, b)
    ensures !Reaches(bufs, t, b) ==> AllEnd(Link(bufs, b, t))
  {
    var linked := Link(bufs, b, t);
    if Reaches(bufs, t, b) {
      var back: nat :| Visits(bufs, t, b, back);
      forall fuel: nat ensures Follow(linked, t, fuel).None? {
        CycleNeverEnds(bufs, b, t, t, back, back, fuel);
      }
    } else {
      var fuel: nat :| Follow(bufs, t, fuel).Some?;
      AvoidingStays(bufs, b, t, t, fuel);
      forall x | x in bufs ensures Ends(linked, x) {
        if Reaches(bufs, x, b) {
          var visit: nat :| Visits(bufs, x, b, visit);
          VisitorsGoOn(bufs, b, t, x, visit, fuel);
        } else {
          var own: nat :| Follow(bufs, x, own).Some?;
          AvoidingStays(bufs, b, t, x, own);
        }
      }
    }
  }

  /** A sharing between known buffers whose target's chain comes to the sharer. */
  ghost predicate ClosesCycle(infos: map<Id, Info>, bufs: Buffers, e: Event) {
    e.ShareWith? && e.id in infos && e.target in infos && Reaches(bufs, e.target, e.id)
  }

  /** The links after an event, whatever it does to counts and spans. */
  function LinksAfter(infos: map<Id, Info>, bufs: Buffers, e: Event): (r: Buffers)
    requires bufs.Keys == infos.Keys
    ensures r.Keys == infos.Keys
  {
    if e.ShareWith? && e.id in infos && e.target in infos then Link(bufs, e.id, e.target) else bufs
  }

  lemma SameEnds(bufs: Buffers, other: Buffers)
    requires SameLinks(bufs, other) && AllEnd(bufs)
    ensures AllEnd(other)
  {
    forall x | x in other ensures Ends(other, x) { SameRoots(bufs, other, x); }
  }

  lemma {:induction false} SameVisits(bufs: Buffers, other: Buffers, x: Id, b: Id, fuel: nat)
    requires SameLinks(bufs, other)
    ensures Visits(bufs, x, b, fuel) <==> Visits(other, x, b, fuel)
    decreases fuel
  {
    if x in bufs && bufs[x].canonical.Some? && fuel > 0 {
      SameVisits(bufs, other, bufs[x].canonical.value, b, fuel - 1);
    }
  }

  lemma SameCloses(infos: map<Id, Info>, bufs: Buffers, other: Buffers, e: Event)
    requires SameLinks(bufs, other) && bufs.Keys == infos.Keys
    ensures ClosesCycle(infos, bufs, e) <==> ClosesCycle(infos, other, e)
    ensures SameLinks(LinksAfter(infos, bufs, e), LinksAfter(infos, other, e))
  {
    if e.ShareWith? {
      forall fuel: nat ensures Visits(bufs, e.target, e.id, fuel) <==> Visits(other, e.target, e.id, fuel) {
        SameVisits(bufs, other, e.target, e.id, fuel);
      }
    }
  }

  /** When all chains end, one event runs forever exactly when it closes a cycle. */
  lemma StepEndsUnlessClosing(infos: map<Id, Info>, size: nat, bufs: Buffers, stats: Stats, e: Event)
    requires bufs.Keys == infos.Keys && AllEnd(bufs)
    ensures Step(infos, size, bufs, stats, e).Endless? <==> ClosesCycle(infos, bufs, e)
    ensures Step(infos, size, bufs, stats, e).Running? ==>
              AllEnd(Step(infos, size, bufs, stats, e).bufs)
              && SameLinks(Step(infos, size, bufs, stats, e).bufs, LinksAfter(infos, bufs, e))
  {
    if e.ShareWith? && e.id in infos && e.target in infos {
      LinkEndsUnlessClosing(bufs, e.id, e.target);
    }
    var o := Step(infos, size, bufs, stats, e);
    if o.Running? {
      StepLinks(infos, size, bufs, stats, e);
      SameEnds(LinksAfter(infos, bufs, e), o.bufs);
    }
  }

  lemma StepLinks(infos: map<Id, Info>, size: nat, bufs: Buffers, stats: Stats, e: Event)
    requires bufs.Keys == infos.Keys && Step(infos, size, bufs, stats, e).Running?
    ensures SameLinks(Step(infos, size, bufs, stats, e).bufs, LinksAfter(infos, bufs, e))
  {
  }

  // Whole traces.

  /** The links after some events, read off the trace. */
  function LinksOf(infos: map<Id, Info>, bufs: Buffers, trace: Trace): (r: Buffers)
    requires bufs.Keys == infos.Keys
    ensures r.Keys == infos.Keys
  {
    if trace == [] then bufs
    else LinksAfter(infos, LinksOf(infos, bufs, trace[..|trace| - 1]), trace[|trace| - 1])
  }

  ghost predicate ClosesAt(infos: map<Id, Info>, bufs: Buffers, trace: Trace, k: nat)
    requires bufs.Keys == infos.Keys && k < |trace|
  {
    ClosesCycle(infos, LinksOf(infos, bufs, trace[..k]), trace[k])
  }

  /** Some sharing closes a cycle, and no error has ended the run before. */
  ghost predicate ClosesBeforeError(infos: map<Id, Info>, size: nat, bufs: Buffers, trace: Trace)
    requires bufs.Keys == infos.Keys
  {
    exists k :: 0 <= k < |trace| && ClosesAt(infos, bufs, trace, k) && Replay(infos, size, bufs, trace[..k]).Running?
  }

  lemma {:induction false} ReplayLinks(infos: map<Id, Info>, size: nat, bufs: Buffers, trace: Trace)
    requires bufs.Keys == infos.Keys && AllEnd(bufs) && Replay(infos, size, bufs, trace).Running?
    ensures AllEnd(Replay(infos, size, bufs, trace).bufs)
    ensures SameLinks(Replay(infos, size, bufs, trace).bufs, LinksOf(infos, bufs, trace))
    decreases |trace|
  {
    if trace != [] {
      var front, e := trace[..|trace| - 1], trace[|trace| - 1];
      ReplayLinks(infos, size, bufs, front);
      var o := Replay(infos, size, bufs, front);
      StepEndsUnlessClosing(infos, size, o.bufs, o.stats, e);
      SameCloses(infos, o.bufs, LinksOf(infos, bufs, front), e);
    }
  }

  /** While the run goes on, the next event runs forever exactly when it closes a cycle. */
  lemma NextIsEndless(infos: map<Id, Info>, size: nat, bufs: Buffers, front: Trace, e: Event)
    requires bufs.Keys == infos.Keys && AllEnd(bufs) && Replay(infos, size, bufs, front).Running?
    ensures Replay(infos, size, bufs, front + [e]).Endless? <==> ClosesCycle(infos, LinksOf(infos, bufs, front), e)
  {
    assert (front + [e])[..|front|] == front;
    ReplayLinks(infos, size, bufs, front);
    var o := Replay(infos, size, bufs, front);
    StepEndsUnlessClosing(infos, size, o.bufs, o.stats, e);
    SameCloses(infos, o.bufs, LinksOf(infos, bufs, front), e);
  }

  /** A run never ends exactly when a sharing closes a cycle before any error. */
  lemma {:induction false} EndlessIffClosing(infos: map<Id, Info>, size: nat, bufs: Buffers, trace: Trace)
    requires bufs.Keys == infos.Keys && AllEnd(bufs)
    ensures Replay(infos, size, bufs, trace).Endless? <==> ClosesBeforeError(infos, size, bufs, trace)
    decreases |trace|
  {
    if trace != [] {
      var n := |trace| - 1;
      var front := trace[..n];
      EndlessIffClosing(infos, size, bufs, front);
      ClosesEarlier(infos, size, bufs, trace);
      assert front + [trace[n]] == trace;
      if Replay(infos, size, bufs, front).Running? { NextIsEndless(infos, size, bufs, front, trace[n]); }
    }
  }

  lemma ClosesEarlier(infos: map<Id, Info>, size: nat, bufs: Buffers, trace: Trace)
    requires bufs.Keys == infos.Keys && trace != []
    ensures var n := |trace| - 1;
      ClosesBeforeError(infos, size, bufs, trace)
      <==> ClosesBeforeError(infos, size, bufs, trace[..n])
           || (ClosesAt(infos, bufs, trace, n) && Replay(infos, size, bufs, trace[..n]).Running?)
  {
    var n := |trace| - 1;
    forall k | 0 <= k < n
      ensures trace[..n][..k] == trace[..k]
      ensures ClosesAt(infos, bufs, trace, k) <==> ClosesAt(infos, bufs, trace[..n], k)
    {
      assert trace[..n][..k] == trace[..k];
    }
  }

  lemma NotClosingNow(infos: map<Id, Info>, size: nat, bufs: Buffers, trace: Trace, k: nat)
    requires bufs.Keys == infos.Keys && AllEnd(bufs) && k < |trace|
    requires !ClosesBeforeError(infos, size, bufs, trace) && Replay(infos, size, bufs, trace[..k]).Running?
    ensures !ClosesCycle(infos, Replay(infos, size, bufs, trace[..k]).bufs, trace[k])
  {
    assert !ClosesAt(infos, bufs, trace, k);
    ReplayLinks(infos, size, bufs, trace[..k]);
    SameCloses(infos, Replay(infos, size, bufs, trace[..k]).bufs, LinksOf(infos, bufs, trace[..k]), trace[k]);
  }

  lemma UntouchedEnd(infos: map<Id, Info>)
    ensures AllEnd(Untouched(infos))
  {
    forall b | b in infos ensures Ends(Untouched(infos), b) { RootOfLink(Untouched(infos), b); }
  }

  /** Two buffers that come to share each other's memory. */
  lemma TwoSharingsNeverEnd(info: Info)
    ensures var infos, trace := map[1 := info, 2 := info], [ShareWith(1, 2), ShareWith(2, 1)];
      Replay(infos, 2, Untouched(infos), trace).Endless?
  {
    var infos, trace := map[1 := info, 2 := info], [ShareWith(1, 2), ShareWith(2, 1)];
    var bufs := Untouched(infos);
    UntouchedEnd(infos);
    assert trace[..1] == [trace[0]] && trace[..1][..0] == [] && [trace[0]] + [trace[1]] == trace;
    NextIsEndless(infos, 2, bufs, [], trace[0]);
    assert [] + [trace[0]] == [trace[0]];
    forall fuel: nat ensures !Visits(bufs, 2, 1, fuel) {}
    var linked := LinksOf(infos, bufs, [trace[0]]);
    assert linked == Link(bufs, 1, 2) && Visits(linked, 1, 2, 1);
    NextIsEndless(infos, 2, bufs, [trace[0]], trace[1]);
  }
}
