/** The state machine that groups DCN messages into bursts. */
module DcnBursts {
  import opened Collections
  import opened DcnEvents

  const MAX_STRAGGLERS: nat := 4

  datatype Straggler = Straggler(duration: int, end: nat, size: Word, srcSlice: int)

  datatype Burst = Burst(start: nat, end: nat, sizeBytes: nat, numMessages: int, maxOverlapping: nat,
                         stragglers: seq<Straggler>)

  datatype Manager = Manager(bursts: seq<Burst>, totalLatency: int, activeMessages: int, active: Burst,
                             stragglerIdx: nat)

  ghost predicate WellShaped(m: Manager) {
    |m.active.stragglers| == MAX_STRAGGLERS && m.stragglerIdx < MAX_STRAGGLERS
  }

  /** The cast of a 32-bit count to an unsigned word. */
  function AsUnsigned(n: int): nat {
    if n >= 0 then n else if n + 0x1_0000_0000_0000_0000 >= 0 then n + 0x1_0000_0000_0000_0000 else 0
  }

  /** A negative count of open messages shows as a huge maximum. */
  lemma NegativeCountShows(n: int)
    requires -0x8000_0000 <= n < 0
    ensures AsUnsigned(n) == 0x1_0000_0000_0000_0000 + n >= 0xFFFF_FFFF_8000_0000
  {
  }

  /** A new burst: everything is cleared but the stragglers. */
  function ResetBurst(m: Manager): Manager {
    m.(activeMessages := 0, stragglerIdx := 0,
       active := Burst(0, 0, 0, 0, 0, m.active.stragglers))
  }

  function StragglerOf(e: Event): Straggler {
    Straggler(e.duration, e.timestamp, Negate(e.sizeDiff), e.srcSlice)
  }

  function Count(m: Manager, e: Event): (r: Manager)
    requires WellShaped(m)
    ensures WellShaped(r)
  {
    var count := m.activeMessages + e.diff;
    var started := if m.activeMessages == 0 then m.active.(start := e.timestamp) else m.active;
    var top := Max(m.active.maxOverlapping, AsUnsigned(count));
    if e.diff > 0 then
      m.(activeMessages := count,
         active := started.(numMessages := started.numMessages + e.diff, sizeBytes := started.sizeBytes + e.sizeDiff,
                            maxOverlapping := top))
    else
      m.(activeMessages := count,
         active := started.(stragglers := started.stragglers[m.stragglerIdx := StragglerOf(e)], maxOverlapping := top),
         stragglerIdx := (m.stragglerIdx + 1) % MAX_STRAGGLERS)
  }

  function Step(m: Manager, e: Event): (r: Manager)
    requires WellShaped(m)
    ensures WellShaped(r)
  {
    var counted := Count(m, e);
    if counted.activeMessages != 0 then counted
    else
      var burst := counted.active.(end := e.timestamp);
      ResetBurst(counted.(bursts := counted.bursts + [burst],
                          totalLatency := counted.totalLatency + (burst.end - burst.start)))
  }

  function Run(m: Manager, events: seq<Event>): (r: Manager)
    requires WellShaped(m)
    ensures WellShaped(r)
  {
    if events == [] then ResetBurst(m)
    else Step(Run(m, events[..|events| - 1]), events[|events| - 1])
  }

  /** A run depends on nothing that a new manager leaves uninitialised, but for the
      straggler slots. */
  lemma {:induction false} UninitialisedIsUnread(a: Manager, b: Manager, events: seq<Event>)
    requires WellShaped(a) && WellShaped(b) && a.bursts == b.bursts && a.totalLatency == b.totalLatency
    requires a.active.stragglers == b.active.stragglers
    ensures Run(a, events) == Run(b, events)
    decreases |events|
  {
    if events != [] { UninitialisedIsUnread(a, b, events[..|events| - 1]); }
  }

  class DcnBurstManager {
    var bursts: seq<Burst>
    var totalLatency: int
    var activeBurstMessages: int
    var activeBurst: Burst
    var stragglerIdx: nat

    function Value(): Manager
      reads this
    {
      Manager(bursts, totalLatency, activeBurstMessages, activeBurst, stragglerIdx)
    }

    ghost predicate Valid()
      reads this
    {
      WellShaped(Value())
    }

    /** A new manager has no bursts and no latency. The rest is not initialised: nothing
        is promised of it, and its straggler slots hold whatever was in memory. */
    constructor (garbage: seq<Straggler>)
      requires |garbage| == MAX_STRAGGLERS
      ensures Valid() && bursts == [] && totalLatency == 0
    {
      bursts, totalLatency := [], 0;
      activeBurstMessages, stragglerIdx := 0, 0;
      activeBurst := Burst(0, 0, 0, 0, 0, garbage);
    }

    constructor Copy (m: Manager)
      requires WellShaped(m)
      ensures Valid() && Value() == m
    {
      bursts, totalLatency, activeBurstMessages := m.bursts, m.totalLatency, m.activeMessages;
      activeBurst, stragglerIdx := m.active, m.stragglerIdx;
    }

    method ResetBurstState()
      requires Valid()
      modifies this
      ensures Valid() && Value() == ResetBurst(old(Value()))
    {
      activeBurstMessages := 0;
      stragglerIdx := 0;
      activeBurst := activeBurst.(numMessages := 0, maxOverlapping := 0, start := 0, end := 0, sizeBytes := 0);
    }

    /** Handles one event: the body of the loop of `CreateBursts`. */
    method HandleEvent(event: Event)
      requires Valid()
      modifies this
      ensures Valid() && Value() == Step(old(Value()), event)
    {
      if activeBurstMessages == 0 {
        activeBurst := activeBurst.(start := event.timestamp);
      }
      activeBurstMessages := activeBurstMessages + event.diff;
      if event.diff > 0 {
        activeBurst := activeBurst.(numMessages := activeBurst.numMessages + event.diff,
                                    sizeBytes := activeBurst.sizeBytes + event.sizeDiff);
      } else {
        var straggler := Straggler(event.duration, event.timestamp, Negate(event.sizeDiff), event.srcSlice);
        activeBurst := activeBurst.(stragglers := activeBurst.stragglers[stragglerIdx := straggler]);
        stragglerIdx := (stragglerIdx + 1) % MAX_STRAGGLERS;
      }
      activeBurst := activeBurst.(maxOverlapping := Max(activeBurst.maxOverlapping, AsUnsigned(activeBurstMessages)));
      assert Value() == Count(old(Value()), event);
      if activeBurstMessages == 0 {
        activeBurst := activeBurst.(end := event.timestamp);
        totalLatency := totalLatency + (activeBurst.end - activeBurst.start);
        bursts := bursts + [activeBurst];
        ResetBurstState();
      }
    }

    method CreateBursts(events: seq<Event>)
      requires Valid()
      modifies this
      ensures Valid() && Value() == Run(old(Value()), events)
    {
      ghost var before := Value();
      ResetBurstState();
      for i := 0 to |events|
        invariant Valid() && Value() == Run(before, events[..i])
      {
        HandleEvent(events[i]);
        assert events[..i + 1][..i] == events[..i];
      }
      assert events[..|events|] == events;
    }
  }

  /** The stragglers an exporter shows for a burst: it stops after `numMessages`. */
  method ReadStragglers(burst: Burst) returns (shown: seq<Straggler>)
    ensures shown == burst.stragglers[..if |burst.stragglers| <= burst.numMessages then |burst.stragglers|
                                         else if burst.numMessages > 1 then burst.numMessages
                                         else if burst.stragglers == [] then 0 else 1]
  {
    shown := [];
    var processed := 0;
    while processed < |burst.stragglers|
      invariant 0 <= processed <= |burst.stragglers|
      invariant processed > 0 ==> processed < burst.numMessages
      invariant shown == burst.stragglers[..processed]
      decreases |burst.stragglers| - processed
    {
      shown := shown + [burst.stragglers[processed]];
      processed := processed + 1;
      if processed >= burst.numMessages { break; }
    }
  }

  // Segments: where the count of open messages returns to zero.

  /** The events since the count was last zero. */
  function OpenPart(events: seq<Event>): seq<Event> {
    if events == [] then []
    else
      var part := OpenPart(events[..|events| - 1]) + [events[|events| - 1]];
      if Open(part) == 0 then [] else part
  }

  /** The events cut after every return of the count to zero. */
  function Segments(events: seq<Event>): seq<seq<Event>> {
    if events == [] then []
    else
      var front := events[..|events| - 1];
      var part := OpenPart(front) + [events[|events| - 1]];
      if Open(part) == 0 then Segments(front) + [part] else Segments(front)
  }

  function Starts(): Event -> int { (e: Event) => if e.diff > 0 then 1 else 0 }

  function StartBytes(): Event -> int { (e: Event) => if e.diff > 0 then e.sizeDiff else 0 }

  /** The messages that end, in the order of their ends. */
  function Ends(events: seq<Event>): seq<Straggler> {
    if events == [] then []
    else
      var front, last := Ends(events[..|events| - 1]), events[|events| - 1];
      if last.diff > 0 then front else front + [StragglerOf(last)]
  }

  /** `top` is the greatest number of messages open at once within the part. */
  ghost predicate IsPeak(top: int, part: seq<Event>) {
    && (forall k :: 0 <= k <= |part| ==> Open(part[..k]) <= top)
    && (exists k :: 0 <= k <= |part| && Open(part[..k]) == top)
  }

  /** The last four ends, each in the slot of its number. */
  ghost predicate RingHolds(slots: seq<Straggler>, ends: seq<Straggler>) {
    && |slots| == MAX_STRAGGLERS
    && (forall j :: 0 <= j < |ends| && |ends| - MAX_STRAGGLERS <= j ==> slots[j % MAX_STRAGGLERS] == ends[j])
  }

  /** The burst summarises the part, apart from its end. */
  ghost predicate Summarises(b: Burst, part: seq<Event>) {
    && (part != [] ==> b.start == part[0].timestamp)
    && b.numMessages == SumBy(part, Starts())
    && b.sizeBytes == SumBy(part, StartBytes())
    && IsPeak(b.maxOverlapping, part)
    && RingHolds(b.stragglers, Ends(part))
  }

  ghost predicate IsBurstOf(b: Burst, part: seq<Event>) {
    && part != [] && Open(part) == 0
    && Summarises(b, part) && b.end == part[|part| - 1].timestamp
  }

  ghost predicate Kinds(events: seq<Event>) {
    forall e :: e in events ==> e.diff == 1 || e.diff == -1
  }

  ghost predicate NeverNegative(events: seq<Event>) {
    forall k :: 0 <= k <= |events| ==> Open(events[..k]) >= 0
  }

  lemma RingStep(slots: seq<Straggler>, ends: seq<Straggler>, s: Straggler)
    requires RingHolds(slots, ends)
    ensures RingHolds(slots[|ends| % MAX_STRAGGLERS := s], ends + [s])
  {
  }

  lemma PeakStep(top: nat, part: seq<Event>, e: Event)
    requires IsPeak(top, part)
    ensures Open(part + [e]) == Open(part) + e.diff
    ensures Open(part + [e]) >= 0 ==> IsPeak(Max(top, Open(part + [e])), part + [e])
  {
    SumByAppend(part, e, Diff());
    var longer := part + [e];
    assert longer[..|longer|] == longer && part[..|part|] == part;
    forall k | 0 <= k <= |part| ensures longer[..k] == part[..k] { }
    var k :| 0 <= k <= |part| && Open(part[..k]) == top;
    assert Open(longer[..k]) == top;
  }

  /** The emitted bursts are those of the segments. */
  ghost predicate AreBursts(bursts: seq<Burst>, before: seq<Burst>, segments: seq<seq<Event>>) {
    && |bursts| == |before| + |segments| && before <= bursts
    && forall i :: 0 <= i < |segments| ==> IsBurstOf(bursts[|before| + i], segments[i])
  }

  /** The state after some events, described by the parts they fall into. */
  ghost predicate Tracks(m: Manager, before: seq<Burst>, events: seq<Event>) {
    var segments, part := Segments(events), OpenPart(events);
    && WellShaped(m)
    && AreBursts(m.bursts, before, segments)
    && m.activeMessages == Open(part) && (Open(part) == 0 ==> part == [])
    && Summarises(m.active, part)
    && m.stragglerIdx == |Ends(part)| % 4
  }

  lemma SegmentsStep(events: seq<Event>, e: Event)
    ensures var part := OpenPart(events) + [e];
      && OpenPart(events + [e]) == (if Open(part) == 0 then [] else part)
      && Segments(events + [e]) == (if Open(part) == 0 then Segments(events) + [part] else Segments(events))
  {
    var longer := events + [e];
    assert longer[..|longer| - 1] == events;
  }

  lemma TrackStep(m: Manager, before: seq<Burst>, events: seq<Event>, e: Event)
    requires Tracks(m, before, events) && Open(OpenPart(events)) >= 0
    requires e.diff == 1 || (e.diff == -1 && Open(OpenPart(events)) > 0)
    ensures Tracks(Step(m, e), before, events + [e])
  {
    var part := OpenPart(events);
    SegmentsStep(events, e);
    CountSummarises(m, part, e);
    if Open(part + [e]) == 0 {
      CloseBurst(m, part, e);
      LastIsBurst(m, Step(m, e), before, Segments(events), part + [e]);
    } else {
      KeepsBursts(m, e);
    }
  }

  lemma KeepsBursts(m: Manager, e: Event)
    requires WellShaped(m) && Count(m, e).activeMessages != 0
    ensures Step(m, e) == Count(m, e) && Step(m, e).bursts == m.bursts
  {
  }

  lemma LastIsBurst(m: Manager, after: Manager, before: seq<Burst>, segments: seq<seq<Event>>, part: seq<Event>)
    requires AreBursts(m.bursts, before, segments)
    requires |after.bursts| == |m.bursts| + 1 && m.bursts <= after.bursts && IsBurstOf(after.bursts[|m.bursts|], part)
    ensures AreBursts(after.bursts, before, segments + [part])
  {
    forall i | 0 <= i < |segments + [part]| ensures IsBurstOf(after.bursts[|before| + i], (segments + [part])[i]) {
      if i < |segments| { assert IsBurstOf(m.bursts[|before| + i], segments[i]); }
    }
  }

  lemma CloseBurst(m: Manager, part: seq<Event>, e: Event)
    requires WellShaped(m) && Open(part + [e]) == 0
    requires Count(m, e).activeMessages == 0 && Summarises(Count(m, e).active, part + [e])
    ensures var after := Step(m, e);
      && |after.bursts| == |m.bursts| + 1 && m.bursts <= after.bursts
      && IsBurstOf(after.bursts[|m.bursts|], part + [e])
      && after.activeMessages == 0 && after.stragglerIdx == 0 && Summarises(after.active, [])
  {
    var longer := part + [e];
    assert longer[0] == if part == [] then e else part[0];
    var none: seq<Event> := [];
    assert Open(none[..0]) == 0;
  }

  lemma CountSummarises(m: Manager, part: seq<Event>, e: Event)
    requires WellShaped(m) && m.activeMessages == Open(part) && Summarises(m.active, part)
    requires m.stragglerIdx == |Ends(part)| % MAX_STRAGGLERS
    requires e.diff == 1 || (e.diff == -1 && Open(part) > 0)
    requires Open(part) == 0 ==> part == []
    requires Open(part) >= 0
    ensures var counted := Count(m, e);
      && counted.activeMessages == Open(part + [e])
      && Summarises(counted.active, part + [e])
      && counted.stragglerIdx == |Ends(part + [e])| % MAX_STRAGGLERS
  {
    SumByAppend(part, e, Starts());
    SumByAppend(part, e, StartBytes());
    PeakStep(m.active.maxOverlapping, part, e);
    assert (part + [e])[..|part|] == part;
    RingStep(m.active.stragglers, Ends(part), StragglerOf(e));
  }
}
