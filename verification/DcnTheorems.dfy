/** What the bursts of a timeline say about its messages. */
module DcnTheorems {
  import opened Collections
  import opened Timespans
  import opened DcnEvents
  import opened DcnBursts
  import DutyCycleHistory

  ghost predicate Regular(events: seq<Event>) {
    Kinds(events) && NeverNegative(events)
  }

  lemma TimelineIsRegular(events: seq<Event>, messages: seq<Message>)
    requires IsTimeline(events, messages) && Lasting(messages)
    ensures Regular(events)
  {
    TimelineKinds(events, messages);
    forall k | 0 <= k <= |events| ensures Open(events[..k]) >= 0 {
      if k > 0 { OpenIsNatural(events, messages, k); }
    }
  }

  /** Every segment is closed, and together they are all the events so far. */
  lemma {:induction false} SegmentsCover(events: seq<Event>)
    ensures Flatten(Segments(events)) + OpenPart(events) == events
    ensures forall s :: s in Segments(events) ==> Open(s) == 0
    ensures Open(Flatten(Segments(events))) == 0 && Open(OpenPart(events)) == Open(events)
  {
    if events != [] {
      var front, e := events[..|events| - 1], events[|events| - 1];
      assert events == front + [e];
      SegmentsCover(front);
      SegmentsStep(front, e);
      var part := OpenPart(front) + [e];
      ConcatAssociates(Flatten(Segments(front)), OpenPart(front), [e]);
      FlattenConcat(Segments(front), [part]);
      assert Flatten([part]) == part;
      SumByConcat(Flatten(Segments(front)), part, Diff());
    }
  }

  lemma RegularPrefix(events: seq<Event>)
    requires events != [] && Regular(events)
    ensures Regular(events[..|events| - 1])
    ensures Open(events) == Open(events[..|events| - 1]) + events[|events| - 1].diff >= 0
    ensures events[|events| - 1].diff == 1 || events[|events| - 1].diff == -1
  {
    var front, e := events[..|events| - 1], events[|events| - 1];
    assert events == front + [e] && events[..|events|] == events;
    forall k | 0 <= k <= |front| ensures Open(front[..k]) >= 0 {
      assert front[..k] == events[..k];
    }
    SumByAppend(front, e, Diff());
  }

  lemma RunStep(m: Manager, events: seq<Event>, e: Event)
    requires WellShaped(m)
    ensures Run(m, events + [e]) == Step(Run(m, events), e)
  {
    assert (events + [e])[..|events|] == events;
  }

  lemma NothingTracked(m: Manager)
    requires WellShaped(m)
    ensures Tracks(ResetBurst(m), m.bursts, [])
  {
    var none: seq<Event> := [];
    assert Open(none[..0]) == 0;
  }

  lemma {:induction false} RunTracks(m: Manager, events: seq<Event>)
    requires WellShaped(m) && Regular(events)
    ensures Tracks(Run(m, events), m.bursts, events)
  {
    if events == [] {
      NothingTracked(m);
    } else {
      var front, e := events[..|events| - 1], events[|events| - 1];
      RegularPrefix(events);
      RunTracks(m, front);
      assert events == front + [e];
      NextTracks(m, front, e);
    }
  }

  lemma NextTracks(m: Manager, front: seq<Event>, e: Event)
    requires WellShaped(m) && Tracks(Run(m, front), m.bursts, front)
    requires Open(front) >= 0 && (e.diff == 1 || (e.diff == -1 && Open(front) > 0))
    ensures Tracks(Run(m, front + [e]), m.bursts, front + [e])
  {
    SegmentsCover(front);
    TrackStep(Run(m, front), m.bursts, front, e);
    RunStep(m, front, e);
  }

  /** All bursts are closed at the end: the parts make up the whole timeline. */
  lemma TimelineIsCutIntoBursts(m: Manager, events: seq<Event>, messages: seq<Message>)
    requires WellShaped(m) && IsTimeline(events, messages) && Lasting(messages)
    ensures Regular(events) && Tracks(Run(m, events), m.bursts, events)
    ensures OpenPart(events) == [] && Flatten(Segments(events)) == events
  {
    TimelineIsRegular(events, messages);
    RunTracks(m, events);
    SegmentsCover(events);
    OpenEndsAtZero(events, messages);
  }

  // Latency.

  ghost function UnitsBelow(units: set<int>, t: int): set<int> {
    set p | p in units && p < t
  }

  lemma {:induction false} RangeSize(lo: int, hi: int, s: set<int>)
    requires lo <= hi && forall p :: p in s <==> lo <= p < hi
    ensures |s| == hi - lo
    decreases hi - lo
  {
    if lo < hi {
      RangeSize(lo, hi - 1, s - {hi - 1});
    } else {
      assert forall p :: p !in s;
    }
  }

  function LastTime(events: seq<Event>): nat {
    if events == [] then 0 else events[|events| - 1].timestamp
  }

  lemma AddUnits(units: set<int>, t: int, t': int, between: set<int>)
    requires t <= t' && between == set p | p in units && t <= p < t'
    ensures |UnitsBelow(units, t')| == |UnitsBelow(units, t)| + |between|
  {
    assert UnitsBelow(units, t') == UnitsBelow(units, t) + between;
  }

  /** When all units from `t` to `t'` are covered or none is. */
  lemma AllOrNone(units: set<int>, t: int, t': int, covered: bool)
    requires t <= t' && forall p :: t <= p < t' ==> (p in units <==> covered)
    ensures |UnitsBelow(units, t')| == |UnitsBelow(units, t)| + if covered then t' - t else 0
  {
    var between := set p | p in units && t <= p < t';
    AddUnits(units, t, t', between);
    if covered {
      RangeSize(t, t', between);
    } else {
      assert between == {};
    }
  }

  /** Between two event times the units are all covered, or none is. */
  lemma UnitsBetween(events: seq<Event>, messages: seq<Message>, k: nat)
    requires IsTimeline(events, messages) && Lasting(messages) && k < |events|
    ensures var units, t, t' := UnitsOf(Intervals(messages)), LastTime(events[..k]), events[k].timestamp;
      && t <= t'
      && |UnitsBelow(units, t')| == |UnitsBelow(units, t)| + if Open(events[..k]) > 0 then t' - t else 0
  {
    var units, t, t' := UnitsOf(Intervals(messages)), LastTime(events[..k]), events[k].timestamp;
    assert t <= t';
    forall p | t <= p < t' ensures p in units <==> Open(events[..k]) > 0 {
      OpenMeansCovered(events, messages, k, p);
    }
    AllOrNone(units, t, t', Open(events[..k]) > 0);
  }

  ghost predicate LatencyUpTo(m: Manager, before: int, units: set<int>, t: int) {
    m.totalLatency - before + (if m.activeMessages > 0 then t - m.active.start else 0) == |UnitsBelow(units, t)|
  }

  lemma LatencyStep(m: Manager, before: int, units: set<int>, t: int, e: Event)
    requires WellShaped(m) && m.activeMessages >= 0 && LatencyUpTo(m, before, units, t) && e.diff != 0
    requires |UnitsBelow(units, e.timestamp)|
          == |UnitsBelow(units, t)| + if m.activeMessages > 0 then e.timestamp - t else 0
    requires m.activeMessages + e.diff >= 0
    ensures LatencyUpTo(Step(m, e), before, units, e.timestamp)
    ensures Step(m, e).activeMessages == m.activeMessages + e.diff
  {
  }

  ghost predicate LatencyAt(m: Manager, events: seq<Event>, units: set<int>, k: nat)
    requires WellShaped(m) && k <= |events|
  {
    && LatencyUpTo(Run(m, events[..k]), m.totalLatency, units, LastTime(events[..k]))
    && Run(m, events[..k]).activeMessages == Open(events[..k])
  }

  lemma NextCount(events: seq<Event>, messages: seq<Message>, k: nat)
    requires IsTimeline(events, messages) && Lasting(messages) && k < |events|
    ensures events[..k + 1] == events[..k] + [events[k]] && events[k].diff != 0
    ensures Open(events[..k]) >= 0 && Open(events[..k + 1]) == Open(events[..k]) + events[k].diff >= 0
  {
    TimelineIsRegular(events, messages);
    SumByAppend(events[..k], events[k], Diff());
    assert events[..k + 1] == events[..k] + [events[k]];
  }

  lemma NextLatency(m: Manager, events: seq<Event>, messages: seq<Message>, k: nat)
    requires WellShaped(m) && IsTimeline(events, messages) && Lasting(messages) && k < |events|
    requires LatencyAt(m, events, UnitsOf(Intervals(messages)), k)
    ensures LatencyAt(m, events, UnitsOf(Intervals(messages)), k + 1)
  {
    UnitsBetween(events, messages, k);
    NextCount(events, messages, k);
    var front, e := events[..k], events[k];
    RunStep(m, front, e);
    LatencyStep(Run(m, front), m.totalLatency, UnitsOf(Intervals(messages)), LastTime(front), e);
  }

  lemma {:induction false} LatencySoFar(m: Manager, events: seq<Event>, messages: seq<Message>, k: nat)
    requires WellShaped(m) && IsTimeline(events, messages) && Lasting(messages) && k <= |events|
    ensures LatencyAt(m, events, UnitsOf(Intervals(messages)), k)
    decreases k
  {
    if k == 0 {
      assert UnitsBelow(UnitsOf(Intervals(messages)), 0) == {};
    } else {
      LatencySoFar(m, events, messages, k - 1);
      NextLatency(m, events, messages, k - 1);
    }
  }

  lemma {:induction false} UnitsEnd(messages: seq<Message>, t: int)
    requires forall m :: m in messages ==> m.end <= t
    ensures UnitsBelow(UnitsOf(Intervals(messages)), t) == UnitsOf(Intervals(messages))
  {
    var units := UnitsOf(Intervals(messages));
    forall p | p in units ensures p < t {
      var s :| s in Intervals(messages) && s.Contains(p);
      var i :| 0 <= i < |messages| && Intervals(messages)[i] == s;
      assert messages[i] in messages;
    }
  }

  lemma {:induction false} EventsOfContain(messages: seq<Message>, m: Message)
    requires m in messages
    ensures StartEvent(m) in EventsOf(messages) && EndEvent(m) in EventsOf(messages)
  {
    if m != messages[0] {
      EventsOfContain(messages[1..], m);
    }
  }

  lemma AllEndInTime(events: seq<Event>, messages: seq<Message>)
    requires IsTimeline(events, messages)
    ensures forall m :: m in messages ==> m.end <= LastTime(events)
  {
    forall x | x in messages ensures x.end <= LastTime(events) {
      EventsOfContain(messages, x);
      assert EndEvent(x) in multiset(EventsOf(messages));
      assert EndEvent(x) in multiset(events);
      var i :| 0 <= i < |events| && events[i] == EndEvent(x);
    }
  }

  /** The total latency grows by the measure of the union of the messages. */
  lemma LatencyIsMeasure(m: Manager, events: seq<Event>, messages: seq<Message>)
    requires WellShaped(m) && IsTimeline(events, messages) && Lasting(messages)
    ensures Run(m, events).totalLatency == m.totalLatency + |UnitsOf(Intervals(messages))|
  {
    LatencySoFar(m, events, messages, |events|);
    assert events[..|events|] == events;
    OpenEndsAtZero(events, messages);
    AllEndInTime(events, messages);
    UnitsEnd(messages, LastTime(events));
  }

  function Adds(messages: seq<Message>): (r: seq<DutyCycleHistory.Call>)
    ensures |r| == |messages|
    ensures forall i :: 0 <= i < |r| ==> r[i] == DutyCycleHistory.Add(Interval(messages[i]), true)
  {
    if messages == [] then []
    else Adds(messages[..|messages| - 1]) + [DutyCycleHistory.Add(Interval(messages[|messages| - 1]), true)]
  }

  lemma AddsAppend(messages: seq<Message>, m: Message)
    ensures Adds(messages + [m]) == Adds(messages) + [DutyCycleHistory.Add(Interval(m), true)]
    ensures Intervals(messages + [m]) == Intervals(messages) + [Interval(m)]
  {
    assert (messages + [m])[..|messages|] == messages;
  }

  lemma {:induction false} AddsAdd(messages: seq<Message>)
    ensures DutyCycleHistory.AddedSpans(Adds(messages)) == Intervals(messages)
    decreases |messages|
  {
    if messages != [] {
      var front, last := messages[..|messages| - 1], messages[|messages| - 1];
      assert messages == front + [last];
      AddsAdd(front);
      AddsAppend(front, last);
      assert Adds(messages)[..|front|] == Adds(front);
    }
  }

  /** A fresh manager's total latency is the active time a duty-cycle tracker
      reports for the same intervals. */
  lemma LatencyIsActiveTime(m: Manager, events: seq<Event>, messages: seq<Message>)
    requires WellShaped(m) && m.totalLatency == 0 && IsTimeline(events, messages) && Lasting(messages)
    ensures Run(m, events).totalLatency == SumBy(DutyCycleHistory.Run(Adds(messages)).spans, Duration())
  {
    LatencyIsMeasure(m, events, messages);
    AddsAdd(messages);
    DutyCycleHistory.ActiveTimeCountsAddedUnits(Adds(messages));
  }
}
