/** Whole runs of a tracker: the order of the calls does not matter. */
module DutyCycleHistory {
  import opened Collections
  import opened Timespans
  import opened SpanSet
  import opened DutyCycle

  /** One call on a tracker: `AddInterval`, or `Union` with a tracker's value. */
  datatype Call = Add(span: Timespan, isActive: bool) | Join(other: Tracking)

  ghost predicate SoundCalls(calls: seq<Call>) {
    forall c :: c in calls && c.Join? ==> Consistent(c.other)
  }

  /** The value of a fresh tracker after the calls. */
  function Run(calls: seq<Call>): Tracking {
    if calls == [] then Empty
    else
      var before := Run(calls[..|calls| - 1]);
      match calls[|calls| - 1]
      case Add(span, isActive) => AddTo(before, span, isActive)
      case Join(other) => UnionWith(before, other)
  }

  function SpansOf(call: Call): seq<Timespan> {
    match call
    case Add(span, isActive) => if isActive then [span] else []
    case Join(other) => other.spans
  }

  /** Every active span that was ever added. */
  function AddedSpans(calls: seq<Call>): seq<Timespan> {
    if calls == [] then []
    else AddedSpans(calls[..|calls| - 1]) + SpansOf(calls[|calls| - 1])
  }

  lemma SplitLast(calls: seq<Call>)
    requires calls != []
    ensures forall c :: c in calls <==> c in calls[..|calls| - 1] || c == calls[|calls| - 1]
  {
    assert calls == calls[..|calls| - 1] + [calls[|calls| - 1]];
  }

  /** The stored spans are canonical and cover exactly what was added. */
  lemma {:induction false} RunCovers(calls: seq<Call>)
    requires SoundCalls(calls)
    ensures Consistent(Run(calls)) && SameCover(Run(calls).spans, AddedSpans(calls))
  {
    if calls != [] {
      var before, last := calls[..|calls| - 1], calls[|calls| - 1];
      SplitLast(calls);
      RunCovers(before);
      if last.Add? {
        AddToIsConsistent(Run(before), last.span, last.isActive);
      } else {
        UnionIsConsistent(Run(before), last.other);
      }
      forall h ensures Covered(Run(calls).spans, h) <==> Covered(AddedSpans(calls), h) {
        CoveredConcat(AddedSpans(before), SpansOf(last), h);
        if last.Add? {
          MergeCovers(Run(before).spans, last.span, h);
        } else {
          MergeAllCovers(Run(before).spans, last.other.spans, h);
        }
      }
    }
  }

  ghost predicate SomeCallCovers(calls: seq<Call>, h: int) {
    exists c :: c in calls && Covered(SpansOf(c), h)
  }

  lemma {:induction false} AddedCover(calls: seq<Call>, h: int)
    ensures Covered(AddedSpans(calls), h) <==> SomeCallCovers(calls, h)
  {
    if calls != [] {
      var before, last := calls[..|calls| - 1], calls[|calls| - 1];
      SplitLast(calls);
      AddedCover(before, h);
      CoveredConcat(AddedSpans(before), SpansOf(last), h);
    }
  }

  // The total span.

  /** The spans a call includes in the total, idle ones too. */
  function IncludedBy(call: Call): seq<Timespan> {
    match call
    case Add(span, _) => [span]
    case Join(other) => if other.total.Some? then [other.total.value] else []
  }

  function IncludedSpans(calls: seq<Call>): seq<Timespan> {
    if calls == [] then []
    else IncludedSpans(calls[..|calls| - 1]) + IncludedBy(calls[|calls| - 1])
  }

  /** Nothing without spans; otherwise from the earliest begin to the latest end. */
  ghost predicate IsHull(total: Option<Timespan>, spans: seq<Timespan>) {
    && (total.None? <==> spans == [])
    && (total.Some? ==>
      && (forall s :: s in spans ==> total.value.Includes(s))
      && (exists s :: s in spans && s.begin == total.value.begin)
      && (exists s :: s in spans && s.End() == total.value.End()))
  }

  lemma HullGrows(x: Option<Timespan>, a: seq<Timespan>, y: Option<Timespan>, b: seq<Timespan>)
    requires IsHull(x, a) && IsHull(y, b) && x.Some? && forall s :: s in a ==> s in b
    ensures y.Some? && y.value.Includes(x.value)
  {
    var first :| first in a && first.begin == x.value.begin;
    var last :| last in a && last.End() == x.value.End();
    assert first in b && last in b;
  }

  lemma HullIsUnique(x: Option<Timespan>, a: seq<Timespan>, y: Option<Timespan>, b: seq<Timespan>)
    requires IsHull(x, a) && IsHull(y, b) && forall s :: s in a <==> s in b
    ensures x == y
  {
    if x.Some? { HullGrows(x, a, y, b); }
    if y.Some? { HullGrows(y, b, x, a); }
  }

  lemma HullOfBoth(x: Option<Timespan>, a: seq<Timespan>, y: Option<Timespan>, b: seq<Timespan>)
    requires IsHull(x, a) && IsHull(y, b)
    ensures IsHull(Widen(x, y), a + b)
  {
    assert a == [] ==> a + b == b;
    assert b == [] ==> a + b == a;
    if x.Some? && y.Some? {
      var r := x.value.Hull(y.value);
      assert exists s :: s in a + b && s.begin == r.begin;
      assert exists s :: s in a + b && s.End() == r.End();
    }
  }

  /** The total runs from the earliest begin to the latest end of all spans of all
      calls, and there is none before any. */
  lemma {:induction false} TotalIsHull(calls: seq<Call>)
    ensures IsHull(Run(calls).total, IncludedSpans(calls))
  {
    if calls != [] {
      var before, last := calls[..|calls| - 1], calls[|calls| - 1];
      TotalIsHull(before);
      var included: Option<Timespan> := if last.Add? then Some(last.span) else last.other.total;
      assert IsHull(included, IncludedBy(last)) by {
        assert included.Some? ==> included.value in IncludedBy(last);
      }
      HullOfBoth(Run(before).total, IncludedSpans(before), included, IncludedBy(last));
    }
  }

  lemma {:induction false} IncludedInCalls(calls: seq<Call>, s: Timespan)
    ensures s in IncludedSpans(calls) <==> exists c :: c in calls && s in IncludedBy(c)
  {
    if calls != [] {
      SplitLast(calls);
      IncludedInCalls(calls[..|calls| - 1], s);
    }
  }

  lemma {:induction false} IncludedConcat(a: seq<Call>, b: seq<Call>)
    ensures IncludedSpans(a + b) == IncludedSpans(a) + IncludedSpans(b)
    decreases |b|
  {
    if b == [] {
      assert a + b == a;
    } else {
      var n := |b| - 1;
      assert (a + b)[..|a| + n] == a + b[..n];
      IncludedConcat(a, b[..n]);
      ConcatAssociates(IncludedSpans(a), IncludedSpans(b[..n]), IncludedBy(b[n]));
    }
  }

  /** Joining a tracker that was never used changes nothing. */
  lemma JoiningUnusedChangesNothing(t: Tracking)
    ensures UnionWith(t, Empty) == t && (Consistent(t) ==> UnionWith(Empty, t) == t)
  {
    if Consistent(t) { MergeIntoNothing(t.spans); }
  }

  lemma MergeIntoNothing(spans: seq<Timespan>)
    requires Canonical(spans)
    ensures MergeAll([], spans) == spans
  {
    var none: seq<Timespan> := [];
    MergeAllIsCanonical(none, spans);
    forall h ensures Covered(MergeAll(none, spans), h) <==> Covered(spans, h) {
      MergeAllCovers(none, spans, h);
    }
    CanonicalIsUnique(MergeAll(none, spans), spans);
  }

  // Whole runs.

  lemma RunsCoverTheSame(a: seq<Call>, b: seq<Call>)
    requires SoundCalls(a) && SoundCalls(b) && forall h :: SomeCallCovers(a, h) <==> SomeCallCovers(b, h)
    ensures Run(a).spans == Run(b).spans
  {
    RunCovers(a);
    RunCovers(b);
    forall h ensures Covered(Run(a).spans, h) <==> Covered(Run(b).spans, h) {
      AddedCover(a, h);
      AddedCover(b, h);
    }
    CanonicalIsUnique(Run(a).spans, Run(b).spans);
  }

  /** Any order of the same calls, repeated or not, leaves the same tracker. */
  lemma OrderDoesNotMatter(a: seq<Call>, b: seq<Call>)
    requires SoundCalls(a) && forall c :: c in a <==> c in b
    ensures Run(a) == Run(b)
  {
    RunsCoverTheSame(a, b);
    TotalIsHull(a);
    TotalIsHull(b);
    forall s ensures s in IncludedSpans(a) <==> s in IncludedSpans(b) {
      IncludedInCalls(a, s);
      IncludedInCalls(b, s);
    }
    HullIsUnique(Run(a).total, IncludedSpans(a), Run(b).total, IncludedSpans(b));
  }

  /** Joining a tracker is the same as replaying the calls that built it. */
  lemma JoinReplays(a: seq<Call>, b: seq<Call>)
    requires SoundCalls(a) && SoundCalls(b)
    ensures SoundCalls([Join(Run(b))])
    ensures Run(a + [Join(Run(b))]) == Run(a + b)
  {
    RunCovers(b);
    var joined := a + [Join(Run(b))];
    assert joined[..|joined| - 1] == a;
    forall h ensures SomeCallCovers(joined, h) <==> SomeCallCovers(a + b, h) {
      AddedCover(b, h);
      assert SomeCallCovers(joined, h) <==> SomeCallCovers(a, h) || Covered(SpansOf(Join(Run(b))), h) by {
        SplitLast(joined);
      }
      assert SomeCallCovers(a + b, h) <==> SomeCallCovers(a, h) || SomeCallCovers(b, h);
    }
    RunsCoverTheSame(joined, a + b);
    TotalIsHull(a);
    TotalIsHull(b);
    TotalIsHull(a + b);
    IncludedConcat(a, b);
    HullOfBoth(Run(a).total, IncludedSpans(a), Run(b).total, IncludedSpans(b));
    HullIsUnique(Run(joined).total, IncludedSpans(a + b), Run(a + b).total, IncludedSpans(a + b));
  }

  /** The active time is the number of units that were ever added. */
  lemma ActiveTimeCountsAddedUnits(calls: seq<Call>)
    requires SoundCalls(calls)
    ensures SumBy(Run(calls).spans, Duration()) == |UnitsOf(AddedSpans(calls))|
  {
    RunCovers(calls);
    CanonicalMeasure(Run(calls).spans);
    SameCoverSameUnits(Run(calls).spans, AddedSpans(calls));
  }

  /** The idle time is the number of units between the earliest begin and the latest
      end of all spans in which no active one lies. */
  lemma IdleTimeCountsGaps(calls: seq<Call>)
    requires SoundCalls(calls)
    ensures UnitsOf(AddedSpans(calls)) <= UnitsIn(Run(calls).total)
    ensures DurationOf(Run(calls).total) - SumBy(Run(calls).spans, Duration())
         == |UnitsIn(Run(calls).total) - UnitsOf(AddedSpans(calls))|
  {
    RunCovers(calls);
    ActiveTimeCountsAddedUnits(calls);
    SameCoverSameUnits(Run(calls).spans, AddedSpans(calls));
    ActiveFitsInTotal(Run(calls));
  }

  /** Two spans with a gap: the total does not reach down to zero. */
  lemma GapBetweenTwoSpans()
    ensures var calls := [Add(Timespan(10, 10), true), Add(Timespan(30, 10), true)];
      Run(calls) == Tracking([Timespan(10, 10), Timespan(30, 10)], Some(Timespan(10, 30)))
  {
    var calls := [Add(Timespan(10, 10), true), Add(Timespan(30, 10), true)];
    assert calls[..1] == [calls[0]] && calls[..1][..0] == [];
    assert Run(calls[..1]) == Tracking([Timespan(10, 10)], Some(Timespan(10, 10)));
    assert Merge([Timespan(10, 10)], Timespan(30, 10)) == [Timespan(10, 10)] + Merge([], Timespan(30, 10));
  }
}
