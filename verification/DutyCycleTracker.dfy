/** The set of active time spans of one core, merged in place. */
module DutyCycle {
  import opened Collections
  import opened Timespans
  import opened SpanSet

  /** The value of a tracker: its ordered set of spans, and its total span once it
      has seen any span. */
  datatype Tracking = Tracking(spans: seq<Timespan>, total: Option<Timespan>)

  const Empty := Tracking([], None)

  /** The first span is taken over, every later one widens the total. */
  function Widen(total: Option<Timespan>, other: Option<Timespan>): Option<Timespan> {
    if total.None? then other else if other.None? then total else Some(total.value.Hull(other.value))
  }

  function DurationOf(total: Option<Timespan>): nat {
    if total.None? then 0 else total.value.duration
  }

  /** The units of time in the total span. */
  ghost function UnitsIn(total: Option<Timespan>): set<int> {
    if total.None? then {} else Units(total.value)
  }

  /** How many units of the total span have nothing active. */
  ghost function IdleOf(t: Tracking): nat {
    |UnitsIn(t.total) - UnitsOf(t.spans)|
  }

  ghost predicate Within(spans: seq<Timespan>, total: Option<Timespan>) {
    forall s :: s in spans ==> total.Some? && total.value.Includes(s)
  }

  function AddTo(t: Tracking, span: Timespan, isActive: bool): Tracking {
    Tracking(if isActive then Merge(t.spans, span) else t.spans, Widen(t.total, Some(span)))
  }

  function UnionWith(t: Tracking, other: Tracking): Tracking {
    Tracking(MergeAll(t.spans, other.spans), Widen(t.total, other.total))
  }

  ghost predicate Consistent(t: Tracking) {
    Canonical(t.spans) && Within(t.spans, t.total)
  }

  lemma AddToIsConsistent(t: Tracking, span: Timespan, isActive: bool)
    requires Consistent(t)
    ensures Consistent(AddTo(t, span, isActive))
  {
    if isActive {
      MergeIsCanonical(t.spans, span);
      MergeWithin(t.spans, span, Widen(t.total, Some(span)).value);
    }
  }

  lemma UnionIsConsistent(t: Tracking, other: Tracking)
    requires Consistent(t) && Consistent(other)
    ensures Consistent(UnionWith(t, other))
  {
    MergeAllIsCanonical(t.spans, other.spans);
    if t.spans != [] { SpansNeedATotal(t.spans, t.total); }
    if other.spans != [] { SpansNeedATotal(other.spans, other.total); }
    var total := Widen(t.total, other.total);
    if total.Some? {
      MergeAllWithin(t.spans, other.spans, total.value);
    }
  }

  lemma SpansNeedATotal(spans: seq<Timespan>, total: Option<Timespan>)
    requires Within(spans, total) && spans != []
    ensures total.Some?
  {
    assert spans[0] in spans;
  }

  lemma {:induction false} MergeWithin(spans: seq<Timespan>, s: Timespan, total: Timespan)
    requires total.Includes(s) && forall x :: x in spans ==> total.Includes(x)
    ensures forall x :: x in Merge(spans, s) ==> total.Includes(x)
    decreases |spans|
  {
    if spans != [] {
      if spans[0].End() < s.begin {
        MergeWithin(spans[1..], s, total);
      } else if s.End() >= spans[0].begin {
        assert spans[0] in spans;
        MergeWithin(spans[1..], spans[0].Hull(s), total);
      }
    }
  }

  lemma {:induction false} MergeAllWithin(spans: seq<Timespan>, added: seq<Timespan>, total: Timespan)
    requires forall x :: x in spans + added ==> total.Includes(x)
    ensures forall x :: x in MergeAll(spans, added) ==> total.Includes(x)
    decreases |added|
  {
    assert forall x :: x in spans || x in added ==> x in spans + added;
    if added != [] {
      var front := added[..|added| - 1];
      assert forall x :: x in spans + front ==> x in spans + added;
      MergeAllWithin(spans, front, total);
      MergeWithin(MergeAll(spans, front), added[|added| - 1], total);
    }
  }

  lemma EndsBeforeLater(spans: seq<Timespan>, at: nat, begin: nat)
    requires Canonical(spans) && at < |spans| && spans[at].begin <= begin
    ensures EndsBefore(spans, at, begin)
  {
    forall j | 0 <= j < at ensures spans[j].End() < begin {
      assert Apart(spans, j, at);
    }
  }

  /** Where `AddInterval` and `Union` start the search: one below the lower bound. */
  function FirstHint(spans: seq<Timespan>, s: Timespan): (hint: nat)
    requires Canonical(spans)
    ensures hint <= |spans| && EndsBefore(spans, hint, s.begin)
    ensures if spans == [] || !Before(spans[0], s) then hint == 0
            else hint < |spans| && Before(spans[hint], s) && (hint + 1 < |spans| ==> !Before(spans[hint + 1], s))
  {
    var i := LowerBound(spans, s);
    if i == 0 then 0 else
      EndsBeforeLater(spans, i - 1, s.begin);
      i - 1
  }

  function Joined(first: Timespan, s: Timespan, last: Timespan): Timespan
    requires first.begin <= last.End()
  {
    Timespan.FromEndPoints(Min(s.begin, first.begin), Max(s.End(), last.End()))
  }

  /** A run of spans that all meet `s` is joined with it into one. */
  lemma {:induction false} RunJoins(run: seq<Timespan>, back: seq<Timespan>, s: Timespan)
    requires Canonical(run) && run != []
    requires (forall x :: x in run ==> Meets(x, s)) && forall x :: x in back ==> !Meets(x, s)
    ensures run[0].begin <= run[|run| - 1].End()
    ensures Unmet(run + back, s) == back && JoinMet(run + back, s) == Joined(run[0], s, run[|run| - 1])
    decreases |run|
  {
    CanonicalTail(run);
    assert (run + back)[1..] == run[1..] + back && run[0] in run;
    if |run| == 1 {
      assert run[1..] + back == back;
      NoneMet(back, s);
    } else {
      assert run[1] in run[1..] && Apart(run, 0, |run| - 1);
      RunJoins(run[1..], back, s);
    }
  }

  lemma {:induction false} FrontIsKept(front: seq<Timespan>, rest: seq<Timespan>, s: Timespan)
    requires forall x :: x in front ==> !Meets(x, s)
    ensures Unmet(front + rest, s) == front + Unmet(rest, s) && JoinMet(front + rest, s) == JoinMet(rest, s)
  {
    if front == [] {
      assert front + rest == rest;
    } else {
      assert (front + rest)[1..] == front[1..] + rest && front[0] in front;
      FrontIsKept(front[1..], rest, s);
      ConcatAssociates([front[0]], front[1..], Unmet(rest, s));
    }
  }

  /** The scan has found the run of spans that meet `s`. */
  ghost predicate IsRun(spans: seq<Timespan>, s: Timespan, hint: nat, b: nat, e: nat) {
    && hint <= b <= e <= |spans|
    && (hint < b ==> spans[b - 1].End() < s.begin)
    && (b < |spans| ==> s.begin <= spans[b].End())
    && (b < e ==> spans[e - 1].begin <= s.End())
    && (e < |spans| ==> s.End() < spans[e].begin)
  }

  lemma RunMeets(spans: seq<Timespan>, s: Timespan, hint: nat, b: nat, e: nat)
    requires Canonical(spans) && IsRun(spans, s, hint, b, e)
    ensures forall x :: x in spans[hint..b] ==> !Meets(x, s)
    ensures forall x :: x in spans[b..e] ==> Meets(x, s)
    ensures forall x :: x in spans[e..] ==> !Meets(x, s)
  {
    forall k | hint <= k < |spans| ensures Meets(spans[k], s) <==> b <= k < e {
      assert k < b - 1 ==> Apart(spans, k, b - 1);
      assert b < k ==> Apart(spans, b, k);
      assert k < e - 1 ==> Apart(spans, k, e - 1);
      assert e < k ==> Apart(spans, e, k);
    }
  }

  /** What a merge from the hint keeps behind the hint, and what it joins. */
  lemma JoinRun(spans: seq<Timespan>, s: Timespan, hint: nat, b: nat, e: nat)
    requires Canonical(spans) && IsRun(spans, s, hint, b, e)
    ensures b < e ==> spans[b].begin <= spans[e - 1].End()
    ensures Unmet(spans[hint..], s) == spans[hint..b] + spans[e..]
    ensures JoinMet(spans[hint..], s) == if b == e then s else Joined(spans[b], s, spans[e - 1])
  {
    var front, run, back := spans[hint..b], spans[b..e], spans[e..];
    RunMeets(spans, s, hint, b, e);
    Slices(spans, hint, b, e);
    FrontIsKept(front, run + back, s);
    if b == e {
      NoneMet(back, s);
      assert run + back == back;
    } else {
      CanonicalSlice(spans, b, e);
      assert run != [] && run[0] == spans[b] && run[|run| - 1] == spans[e - 1];
      RunJoins(run, back, s);
    }
  }

  /** Erasing the run and inserting one span for it is what the merge from the hint means. */
  lemma MergeAt(spans: seq<Timespan>, s: Timespan, hint: nat, b: nat, e: nat)
    requires Canonical(spans) && IsRun(spans, s, hint, b, e)
    ensures b < e ==> spans[b].begin <= spans[e - 1].End()
    ensures MergeFrom(spans, s, hint)
         == Insert(spans[..b] + spans[e..], if b == e then s else Joined(spans[b], s, spans[e - 1]))
  {
    JoinRun(spans, s, hint, b, e);
    Slices(spans, hint, b, e);
    ConcatAssociates(spans[..hint], spans[hint..b], spans[e..]);
  }

  /** A span that is already included changes nothing. */
  lemma MergeIncluded(spans: seq<Timespan>, s: Timespan, hint: nat, at: nat)
    requires Canonical(spans) && hint <= at < |spans| && spans[at].Includes(s)
    ensures MergeFrom(spans, s, hint) == spans
  {
    EndsBeforeLater(spans, at, s.begin);
    HintIsSound(spans, s, hint);
    MergeAgain(spans, s);
  }

  lemma UnionStep(start: seq<Timespan>, added: seq<Timespan>, next: nat, spans: seq<Timespan>, hint: nat)
    requires Canonical(spans) && next < |added| && hint <= |spans|
    requires spans == MergeAll(start, added[..next])
    requires EndsBefore(spans, hint, added[next].begin)
    ensures MergeFrom(spans, added[next], hint) == MergeAll(start, added[..next + 1])
    ensures Canonical(MergeAll(start, added[..next + 1]))
    ensures spans == added ==> MergeFrom(spans, added[next], hint) == added
  {
    EndsBeforeSkipsNothing(spans, added[next], hint);
    HintIsSound(spans, added[next], hint);
    MergeIsCanonical(spans, added[next]);
    assert added[..next + 1][..next] == added[..next];
    if spans == added {
      assert spans[next].Includes(added[next]);
      MergeAgain(spans, added[next]);
    }
  }

  /** The position of one merged interval is a sound hint for the next one. */
  lemma NextHint(spans: seq<Timespan>, added: seq<Timespan>, next: nat, at: nat)
    requires Canonical(spans) && Canonical(added) && next < |added|
    requires at < |spans| && spans[at].Includes(added[next])
    ensures next + 1 < |added| ==> EndsBefore(spans, at, added[next + 1].begin)
  {
    if next + 1 < |added| {
      assert Apart(added, next, next + 1);
      EndsBeforeLater(spans, at, added[next + 1].begin);
    }
  }

  class DutyCycleTracker {
    var activeTimeSpans: seq<Timespan>
    var totalTimeSpan: Option<Timespan>

    function Value(): Tracking
      reads this
    {
      Tracking(activeTimeSpans, totalTimeSpan)
    }

    ghost predicate Valid()
      reads this
    {
      Consistent(Value())
    }

    constructor ()
      ensures Valid() && Value() == Empty
    {
      activeTimeSpans := [];
      totalTimeSpan := None;
    }

    /** Merges `timespan`, starting the search at `hint`. Returns where it ended up. */
    method MergeOrInsert(timespan: Timespan, hint: nat) returns (at: nat)
      requires Canonical(activeTimeSpans) && hint <= |activeTimeSpans|
      modifies this`activeTimeSpans
      ensures activeTimeSpans == MergeFrom(old(activeTimeSpans), timespan, hint)
      ensures at < |activeTimeSpans| && activeTimeSpans[at].Includes(timespan)
    {
      var mergeBegin := hint;
      while mergeBegin < |activeTimeSpans| && activeTimeSpans[mergeBegin].End() < timespan.begin
        invariant hint <= mergeBegin <= |activeTimeSpans|
        invariant hint < mergeBegin ==> activeTimeSpans[mergeBegin - 1].End() < timespan.begin
      {
        mergeBegin := mergeBegin + 1;
      }
      if mergeBegin < |activeTimeSpans| && activeTimeSpans[mergeBegin].Includes(timespan) {
        MergeIncluded(activeTimeSpans, timespan, hint, mergeBegin);
        return mergeBegin;
      }
      var mergeEnd := mergeBegin;
      while mergeEnd < |activeTimeSpans| && activeTimeSpans[mergeEnd].begin <= timespan.End()
        invariant mergeBegin <= mergeEnd <= |activeTimeSpans|
        invariant mergeBegin < mergeEnd ==> activeTimeSpans[mergeEnd - 1].begin <= timespan.End()
      {
        mergeEnd := mergeEnd + 1;
      }
      at := ReplaceRun(timespan, hint, mergeBegin, mergeEnd);
    }

    /** Erases the run that `timespan` meets and inserts one span for both. */
    method ReplaceRun(timespan: Timespan, ghost hint: nat, mergeBegin: nat, mergeEnd: nat) returns (at: nat)
      requires Canonical(activeTimeSpans) && IsRun(activeTimeSpans, timespan, hint, mergeBegin, mergeEnd)
      modifies this`activeTimeSpans
      ensures activeTimeSpans == MergeFrom(old(activeTimeSpans), timespan, hint)
      ensures at < |activeTimeSpans| && activeTimeSpans[at].Includes(timespan)
    {
      MergeAt(activeTimeSpans, timespan, hint, mergeBegin, mergeEnd);
      var merged := timespan;
      if mergeBegin != mergeEnd {
        merged := Joined(activeTimeSpans[mergeBegin], timespan, activeTimeSpans[mergeEnd - 1]);
        activeTimeSpans := activeTimeSpans[..mergeBegin] + activeTimeSpans[mergeEnd..];
      } else {
        assert activeTimeSpans[..mergeBegin] + activeTimeSpans[mergeEnd..] == activeTimeSpans;
      }
      at := InsertInOrder(merged);
    }

    /** The set puts a span in its place, wherever the caller expects it. */
    method InsertInOrder(timespan: Timespan) returns (at: nat)
      modifies this`activeTimeSpans
      ensures activeTimeSpans == Insert(old(activeTimeSpans), timespan)
      ensures at < |activeTimeSpans| && activeTimeSpans[at] == timespan
    {
      at := LowerBound(activeTimeSpans, timespan);
      if at == |activeTimeSpans| || activeTimeSpans[at] != timespan {
        activeTimeSpans := activeTimeSpans[..at] + ([timespan] + activeTimeSpans[at..]);
      }
    }

    method AddInterval(timespan: Timespan, isActive: bool)
      requires Valid()
      modifies this
      ensures Valid() && Value() == AddTo(old(Value()), timespan, isActive)
    {
      AddToIsConsistent(Value(), timespan, isActive);
      totalTimeSpan := Widen(totalTimeSpan, Some(timespan));
      if !isActive {
        return;
      }
      var hint := FirstHint(activeTimeSpans, timespan);
      HintIsSound(activeTimeSpans, timespan, hint);
      var _ := MergeOrInsert(timespan, hint);
    }

    /** Merges every span of `other`, which may be this tracker itself. */
    method Union(other: DutyCycleTracker)
      requires Valid() && other.Valid()
      modifies this
      ensures Valid() && Value() == UnionWith(old(Value()), old(other.Value()))
    {
      ghost var start := activeTimeSpans;
      ghost var added := other.activeTimeSpans;
      UnionIsConsistent(Value(), other.Value());
      totalTimeSpan := Widen(totalTimeSpan, other.totalTimeSpan);
      if other.activeTimeSpans == [] { return; }
      var hint: nat := FirstHint(activeTimeSpans, other.activeTimeSpans[0]);
      var next := 0;
      while next < |other.activeTimeSpans|
        invariant other.activeTimeSpans == added && next <= |added|
        invariant totalTimeSpan == Widen(old(totalTimeSpan), old(other.totalTimeSpan))
        invariant Canonical(activeTimeSpans)
        invariant activeTimeSpans == MergeAll(start, added[..next])
        invariant hint <= |activeTimeSpans|
        invariant next < |added| ==> EndsBefore(activeTimeSpans, hint, added[next].begin)
      {
        UnionStep(start, added, next, activeTimeSpans, hint);
        hint := MergeOrInsert(other.activeTimeSpans[next], hint);
        NextHint(activeTimeSpans, added, next, hint);
        next := next + 1;
      }
      assert added[..next] == added;
    }

    method GetActiveTimePs() returns (active: nat)
      requires Valid()
      ensures active == |UnitsOf(activeTimeSpans)|
    {
      active := 0;
      for i := 0 to |activeTimeSpans|
        invariant active == SumBy(activeTimeSpans[..i], Duration())
      {
        SumByAppend(activeTimeSpans[..i], activeTimeSpans[i], Duration());
        assert activeTimeSpans[..i + 1] == activeTimeSpans[..i] + [activeTimeSpans[i]];
        active := active + activeTimeSpans[i].duration;
      }
      assert activeTimeSpans[..|activeTimeSpans|] == activeTimeSpans;
      CanonicalMeasure(activeTimeSpans);
    }

    /** The units of the total span in which nothing was active; the subtraction
        cannot underflow. */
    method GetIdleTimePs() returns (idle: nat)
      requires Valid()
      ensures idle == IdleOf(Value())
      ensures idle + |UnitsOf(activeTimeSpans)| == DurationOf(totalTimeSpan)
    {
      var active := GetActiveTimePs();
      ActiveFitsInTotal(Value());
      idle := DurationOf(totalTimeSpan) - active;
    }
  }

  lemma ActiveFitsInTotal(t: Tracking)
    requires Consistent(t)
    ensures UnitsOf(t.spans) <= UnitsIn(t.total) && |UnitsIn(t.total)| == DurationOf(t.total)
    ensures |UnitsOf(t.spans)| + IdleOf(t) == DurationOf(t.total)
  {
    forall p | p in UnitsOf(t.spans) ensures p in UnitsIn(t.total) {
      var s :| s in t.spans && s.Contains(p);
      assert t.total.value.Contains(p);
    }
    if t.total.Some? { UnitCount(t.total.value); }
    assert UnitsIn(t.total) == UnitsOf(t.spans) + (UnitsIn(t.total) - UnitsOf(t.spans));
  }
}
