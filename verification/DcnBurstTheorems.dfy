/** What each burst of a timeline says: order, totals and stragglers. */
module DcnBurstTheorems {
  import opened Collections
  import opened DcnEvents
  import opened DcnBursts
  import opened DcnTheorems

  /** Segment `i` of the events starts at this position. */
  function Offset(events: seq<Event>, i: nat): nat
    requires i <= |Segments(events)|
  {
    |Flatten(Segments(events)[..i])|
  }

  /** What lies before a part of the events, and where the next one begins. */
  lemma PartAt(parts: seq<seq<Event>>, i: nat)
    requires i < |parts|
    ensures var o, part, events := |Flatten(parts[..i])|, parts[i], Flatten(parts);
      && o + |part| <= |events| && events[o..o + |part|] == part && events[..o] == Flatten(parts[..i])
      && |Flatten(parts[..i + 1])| == o + |part| && events[..o + |part|] == Flatten(parts[..i + 1])
  {
    var before, part, after := Flatten(parts[..i]), parts[i], Flatten(parts[i + 1..]);
    FlattenSplit(parts, i);
    assert Flatten(parts) == before + (part + after);
    assert parts[..i + 1] == parts[..i] + [part];
    FlattenConcat(parts[..i], [part]);
    assert Flatten([part]) == part;
  }

  lemma AllInSegments(events: seq<Event>)
    requires OpenPart(events) == []
    ensures Flatten(Segments(events)) == events
    ensures forall part :: part in Segments(events) ==> Open(part) == 0
  {
    SegmentsCover(events);
    assert Flatten(Segments(events)) + [] == Flatten(Segments(events));
  }

  lemma ClosedUpTo(parts: seq<seq<Event>>, i: nat)
    requires i <= |parts| && forall p :: p in parts ==> Open(p) == 0
    ensures Open(Flatten(parts[..i])) == 0
  {
    ClosedParts(parts[..i]);
  }

  /** The segments are contiguous, and the count is zero where one begins. */
  lemma SegmentAt(events: seq<Event>, i: nat)
    requires OpenPart(events) == [] && i < |Segments(events)|
    ensures var o, part := Offset(events, i), Segments(events)[i];
      && o + |part| <= |events| && events[o..o + |part|] == part && Offset(events, i + 1) == o + |part|
      && Open(events[..o]) == 0 && Open(events[..o + |part|]) == 0
  {
    AllInSegments(events);
    PartAt(Segments(events), i);
    ClosedUpTo(Segments(events), i);
    ClosedUpTo(Segments(events), i + 1);
  }

  lemma {:induction false} ClosedParts(parts: seq<seq<Event>>)
    requires forall p :: p in parts ==> Open(p) == 0
    ensures Open(Flatten(parts)) == 0
  {
    if parts != [] {
      assert parts[0] in parts;
      ClosedParts(parts[1..]);
      SumByConcat(parts[0], Flatten(parts[1..]), Diff());
    }
  }

  /** Each burst takes time: it begins with a start and ends with a later end. */
  lemma SegmentTakesTime(events: seq<Event>, messages: seq<Message>, i: nat)
    requires IsTimeline(events, messages) && Lasting(messages)
    requires OpenPart(events) == [] && i < |Segments(events)| && Segments(events)[i] != []
    ensures var part := Segments(events)[i];
      && part[0].diff == 1 && part[|part| - 1].diff == -1
      && part[0].timestamp < part[|part| - 1].timestamp
  {
    var o, part := Offset(events, i), Segments(events)[i];
    var e := o + |part|;
    SegmentAt(events, i);
    assert part[0] == events[o] && part[|part| - 1] == events[e - 1];
    StartsUp(events, messages, o);
    EndsDown(events, messages, e);
    OpenIsNatural(events, messages, e);
  }

  lemma StartsUp(events: seq<Event>, messages: seq<Message>, o: nat)
    requires IsTimeline(events, messages) && Lasting(messages) && o < |events| && Open(events[..o]) == 0
    ensures events[o].diff == 1
  {
    TimelineIsRegular(events, messages);
    assert events[..o + 1] == events[..o] + [events[o]];
    SumByAppend(events[..o], events[o], Diff());
  }

  lemma EndsDown(events: seq<Event>, messages: seq<Message>, e: nat)
    requires IsTimeline(events, messages) && Lasting(messages) && 0 < e <= |events| && Open(events[..e]) == 0
    ensures events[e - 1].diff == -1
  {
    TimelineIsRegular(events, messages);
    assert events[..e] == events[..e - 1] + [events[e - 1]];
    SumByAppend(events[..e - 1], events[e - 1], Diff());
  }

  ghost predicate Fresh(m: Manager) {
    WellShaped(m) && m.bursts == []
  }

  /** The bursts of a timeline are its segments, one for one. */
  lemma BurstAt(m: Manager, events: seq<Event>, messages: seq<Message>)
    requires Fresh(m) && IsTimeline(events, messages) && Lasting(messages)
    ensures |Run(m, events).bursts| == |Segments(events)| && OpenPart(events) == []
    ensures forall i :: 0 <= i < |Segments(events)| ==> IsBurstOf(Run(m, events).bursts[i], Segments(events)[i])
  {
    TimelineIsCutIntoBursts(m, events, messages);
    BurstsOfFresh(Run(m, events).bursts, m.bursts, Segments(events));
  }

  lemma BurstsOfFresh(bursts: seq<Burst>, before: seq<Burst>, segments: seq<seq<Event>>)
    requires before == [] && AreBursts(bursts, before, segments)
    ensures |bursts| == |segments|
    ensures forall i :: 0 <= i < |segments| ==> IsBurstOf(bursts[i], segments[i])
  {
    forall i | 0 <= i < |segments| ensures IsBurstOf(bursts[i], segments[i]) {
      assert IsBurstOf(bursts[|before| + i], segments[i]);
    }
  }

  lemma SegmentsAreOrdered(events: seq<Event>, i: nat, j: nat)
    requires TimeOrdered(events) && OpenPart(events) == [] && i < j < |Segments(events)|
    requires Segments(events)[i] != [] && Segments(events)[j] != []
    ensures Segments(events)[i][|Segments(events)[i]| - 1].timestamp <= Segments(events)[j][0].timestamp
  {
    SegmentAt(events, i);
    SegmentAt(events, j);
    OffsetsGrow(events, i + 1, j);
    var n := |Segments(events)[i]|;
    var last, first := Offset(events, i) + n - 1, Offset(events, j);
    assert Segments(events)[i][n - 1] == events[last] && Segments(events)[j][0] == events[first];
  }

  /** Bursts take time, are ordered in time and do not overlap. */
  lemma BurstsAreOrdered(m: Manager, events: seq<Event>, messages: seq<Message>)
    requires Fresh(m) && IsTimeline(events, messages) && Lasting(messages)
    ensures var bursts := Run(m, events).bursts;
      && (forall i :: 0 <= i < |bursts| ==> bursts[i].start < bursts[i].end)
      && (forall i, j :: 0 <= i < j < |bursts| ==> bursts[i].end <= bursts[j].start)
  {
    var bursts := Run(m, events).bursts;
    BurstAt(m, events, messages);
    forall i | 0 <= i < |bursts| ensures bursts[i].start < bursts[i].end {
      assert IsBurstOf(bursts[i], Segments(events)[i]);
      SegmentTakesTime(events, messages, i);
    }
    forall i, j | 0 <= i < j < |bursts| ensures bursts[i].end <= bursts[j].start {
      assert IsBurstOf(bursts[i], Segments(events)[i]) && IsBurstOf(bursts[j], Segments(events)[j]);
      SegmentsAreOrdered(events, i, j);
    }
  }

  lemma {:induction false} OffsetsGrow(events: seq<Event>, i: nat, j: nat)
    requires OpenPart(events) == [] && i <= j <= |Segments(events)|
    ensures Offset(events, i) <= Offset(events, j)
    decreases j
  {
    if i < j {
      OffsetsGrow(events, i, j - 1);
      SegmentAt(events, j - 1);
    }
  }

  function BurstMessages(): Burst -> int { (b: Burst) => b.numMessages }

  function BurstBytes(): Burst -> int { (b: Burst) => b.sizeBytes }

  function MessageBytes(): Message -> int { (m: Message) => m.size }

  function One<T>(): T -> int { (x: T) => 1 }

  lemma {:induction false} SumOfOnes<T>(s: seq<T>)
    ensures SumBy(s, One<T>()) == |s|
  {
    if s != [] { SumOfOnes(s[1..]); }
  }

  lemma {:induction false} SumOfBursts(bursts: seq<Burst>, parts: seq<seq<Event>>)
    requires |bursts| == |parts| && forall i :: 0 <= i < |parts| ==> IsBurstOf(bursts[i], parts[i])
    ensures SumBy(bursts, BurstMessages()) == SumBy(Flatten(parts), Starts())
    ensures SumBy(bursts, BurstBytes()) == SumBy(Flatten(parts), StartBytes())
  {
    if parts != [] {
      SumOfBursts(bursts[1..], parts[1..]);
      SumByConcat(parts[0], Flatten(parts[1..]), Starts());
      SumByConcat(parts[0], Flatten(parts[1..]), StartBytes());
      assert IsBurstOf(bursts[0], parts[0]);
    }
  }

  /** The bursts together hold every message and every byte once. */
  lemma {:induction false} BurstsHoldAllMessages(m: Manager, events: seq<Event>, messages: seq<Message>)
    requires Fresh(m) && IsTimeline(events, messages) && Lasting(messages)
    ensures SumBy(Run(m, events).bursts, BurstMessages()) == |messages|
    ensures SumBy(Run(m, events).bursts, BurstBytes()) == SumBy(messages, MessageBytes())
  {
    BurstAt(m, events, messages);
    SegmentsCover(events);
    assert Flatten(Segments(events)) + [] == Flatten(Segments(events));
    SumOfBursts(Run(m, events).bursts, Segments(events));
    TimelineTotals(events, messages);
  }

  lemma {:induction false} TimelineTotals(events: seq<Event>, messages: seq<Message>)
    requires IsTimeline(events, messages)
    ensures SumBy(events, Starts()) == |messages|
    ensures SumBy(events, StartBytes()) == SumBy(messages, MessageBytes())
  {
    SumByPermutation(events, EventsOf(messages), Starts());
    SumByPermutation(events, EventsOf(messages), StartBytes());
    SumOfPairs(messages, Starts(), One());
    SumOfPairs(messages, StartBytes(), MessageBytes());
    SumOfOnes(messages);
  }

  // Stragglers.

  lemma {:induction false} EndsCount(part: seq<Event>)
    requires Kinds(part)
    ensures SumBy(part, Starts()) - |Ends(part)| == Open(part)
    decreases |part|
  {
    if part != [] {
      var front, last := part[..|part| - 1], part[|part| - 1];
      assert part == front + [last];
      EndsCount(front);
      SumByAppend(front, last, Starts());
      SumByAppend(front, last, Diff());
    }
  }

  lemma Rotated<T>(slots: seq<T>, last: seq<T>, r: nat)
    requires |slots| == |last| == 4 && r < 4
    requires forall d :: 0 <= d < 4 ==> slots[(r + d) % 4] == last[d]
    ensures multiset(slots) == multiset(last)
  {
    var front, back := last[..4 - r], last[4 - r..];
    forall i | 0 <= i < 4 ensures slots[i] == (back + front)[i] {
      var d := if i < r then 4 - r + i else i - r;
      assert (r + d) % 4 == i;
    }
    assert slots == back + front && last == front + back;
  }

  /** The slot of an end is that of its number, counted from the oldest slot. */
  lemma SlotOf(slots: seq<Straggler>, ends: seq<Straggler>, d: nat)
    requires RingHolds(slots, ends) && |ends| >= MAX_STRAGGLERS && d < MAX_STRAGGLERS
    ensures slots[(|ends| % MAX_STRAGGLERS + d) % MAX_STRAGGLERS] == ends[|ends| - MAX_STRAGGLERS + d]
  {
    var j := |ends| - MAX_STRAGGLERS + d;
    assert j % MAX_STRAGGLERS == (|ends| % MAX_STRAGGLERS + d) % MAX_STRAGGLERS;
    assert slots[j % MAX_STRAGGLERS] == ends[j];
  }

  lemma FullRing(slots: seq<Straggler>, ends: seq<Straggler>)
    requires RingHolds(slots, ends) && |ends| >= MAX_STRAGGLERS
    ensures multiset(slots) == multiset(ends[|ends| - MAX_STRAGGLERS..])
  {
    var last := ends[|ends| - MAX_STRAGGLERS..];
    forall d | 0 <= d < 4 ensures slots[(|ends| % 4 + d) % 4] == last[d] { SlotOf(slots, ends, d); }
    Rotated(slots, last, |ends| % 4);
  }

  lemma PartRing(slots: seq<Straggler>, ends: seq<Straggler>)
    requires RingHolds(slots, ends) && |ends| < MAX_STRAGGLERS
    ensures slots[..|ends|] == ends
  {
    forall j | 0 <= j < |ends| ensures slots[j] == ends[j] {
      assert j % MAX_STRAGGLERS == j;
      assert slots[j % MAX_STRAGGLERS] == ends[j];
    }
  }

  /** Whatever the ring held before, its first slots are the last ends. */
  lemma RingShowsLast(slots: seq<Straggler>, ends: seq<Straggler>)
    requires RingHolds(slots, ends)
    ensures var shown := Min(MAX_STRAGGLERS, |ends|);
      multiset(slots[..shown]) == multiset(ends[|ends| - shown..])
  {
    if |ends| < MAX_STRAGGLERS {
      PartRing(slots, ends);
      assert ends[|ends| - |ends|..] == ends;
    } else {
      FullRing(slots, ends);
      assert slots[..MAX_STRAGGLERS] == slots;
    }
  }

  /** What a closed burst says about the messages that ended in it. */
  ghost predicate ShowsLastEnds(b: Burst, ends: seq<Straggler>) {
    var shown := Min(MAX_STRAGGLERS, |ends|);
    && b.numMessages == |ends| > 0 && |b.stragglers| == MAX_STRAGGLERS
    && multiset(b.stragglers[..shown]) == multiset(ends[|ends| - shown..])
    && exists s :: s in b.stragglers[..shown] && s.end == b.end
  }

  lemma ClosedBurst(b: Burst, part: seq<Event>)
    requires IsBurstOf(b, part) && Kinds(part) && part[|part| - 1].diff == -1
    ensures ShowsLastEnds(b, Ends(part))
  {
    var ends, last := Ends(part), part[|part| - 1];
    EndsCount(part);
    RingShowsLast(b.stragglers, ends);
    var shown := Min(MAX_STRAGGLERS, |ends|);
    assert ends[|ends| - 1] == StragglerOf(last);
    assert ends[|ends| - shown..][shown - 1] == StragglerOf(last);
    assert StragglerOf(last) in multiset(b.stragglers[..shown]);
  }

  /** The first straggler slots of a burst are exactly the last messages that ended
      in it, and one of them ends with the burst. */
  lemma StragglersAreLastEnds(m: Manager, events: seq<Event>, messages: seq<Message>, i: nat)
    requires Fresh(m) && IsTimeline(events, messages) && Lasting(messages)
    requires i < |Segments(events)|
    ensures |Run(m, events).bursts| == |Segments(events)|
    ensures ShowsLastEnds(Run(m, events).bursts[i], Ends(Segments(events)[i]))
  {
    BurstAt(m, events, messages);
    var b, part := Run(m, events).bursts[i], Segments(events)[i];
    assert IsBurstOf(b, part);
    SegmentAt(events, i);
    TimelineKinds(events, messages);
    forall e | e in part ensures e.diff == 1 || e.diff == -1 { assert e in events; }
    SegmentTakesTime(events, messages, i);
    ClosedBurst(b, part);
  }

  /** The slots exporters read are never stale, and each shows a real message. */
  method ExportStragglers(ghost m: Manager, ghost events: seq<Event>, ghost messages: seq<Message>, ghost i: nat,
                          burst: Burst)
    returns (shown: seq<Straggler>)
    requires Fresh(m) && IsTimeline(events, messages) && Lasting(messages)
    requires i < |Segments(events)| && i < |Run(m, events).bursts| && burst == Run(m, events).bursts[i]
    ensures burst.numMessages == |Ends(Segments(events)[i])|
    ensures |shown| == Min(MAX_STRAGGLERS, |Ends(Segments(events)[i])|)
    ensures multiset(shown) == multiset(Ends(Segments(events)[i])[|Ends(Segments(events)[i])| - |shown|..])
    ensures forall s :: s in shown ==> IsMessage(s, messages)
  {
    StragglersAreLastEnds(m, events, messages, i);
    shown := ReadStragglers(burst);
    ReadAreShown(burst, Ends(Segments(events)[i]), shown);
    BurstAt(m, events, messages);
    ShownAreMessages(events, messages, i, shown);
  }

  lemma ReadAreShown(b: Burst, ends: seq<Straggler>, shown: seq<Straggler>)
    requires ShowsLastEnds(b, ends) && |b.stragglers| == MAX_STRAGGLERS
    requires shown == b.stragglers[..if MAX_STRAGGLERS <= b.numMessages then MAX_STRAGGLERS
                                    else if b.numMessages > 1 then b.numMessages else 1]
    ensures |shown| == Min(MAX_STRAGGLERS, |ends|) && multiset(shown) == multiset(ends[|ends| - |shown|..])
  {
    assert shown == b.stragglers[..Min(MAX_STRAGGLERS, |ends|)];
  }

  lemma ShownAreMessages(events: seq<Event>, messages: seq<Message>, i: nat, shown: seq<Straggler>)
    requires IsTimeline(events, messages) && OpenPart(events) == [] && i < |Segments(events)|
    requires var ends := Ends(Segments(events)[i]);
      |shown| <= |ends| && multiset(shown) == multiset(ends[|ends| - |shown|..])
    ensures forall s :: s in shown ==> IsMessage(s, messages)
  {
    var ends := Ends(Segments(events)[i]);
    forall s | s in shown ensures IsMessage(s, messages) {
      assert s in multiset(shown);
      assert s in ends[|ends| - |shown|..];
      EndsAreMessages(events, messages, i, s);
    }
  }

  ghost predicate IsMessage(s: Straggler, messages: seq<Message>) {
    exists x :: x in messages && s == Straggler(1000 * x.durationUs, x.end, x.size, x.srcSlice)
  }

  lemma {:induction false} EndsAreEnds(part: seq<Event>, s: Straggler)
    requires s in Ends(part)
    ensures exists e :: e in part && e.diff <= 0 && s == StragglerOf(e)
    decreases |part|
  {
    var front, last := part[..|part| - 1], part[|part| - 1];
    if last.diff <= 0 && s == StragglerOf(last) {
      assert last in part;
    } else {
      EndsAreEnds(front, s);
    }
  }

  lemma EndsAreMessages(events: seq<Event>, messages: seq<Message>, i: nat, s: Straggler)
    requires IsTimeline(events, messages) && OpenPart(events) == []
    requires i < |Segments(events)| && s in Ends(Segments(events)[i])
    ensures IsMessage(s, messages)
  {
    EndsAreEnds(Segments(events)[i], s);
    var e :| e in Segments(events)[i] && e.diff <= 0 && s == StragglerOf(e);
    SegmentAt(events, i);
    assert e in events;
    assert e in multiset(events);
    EventKinds(messages, e);
  }

  lemma ShiftedOpen(events: seq<Event>, o: nat, part: seq<Event>, k: nat)
    requires o + |part| <= |events| && events[o..o + |part|] == part && Open(events[..o]) == 0 && k <= |part|
    ensures Open(events[..o + k]) == Open(part[..k])
  {
    assert part[..k] == events[o..o + k];
    assert events[..o + k] == events[..o] + events[o..o + k];
    SumByConcat(events[..o], part[..k], Diff());
  }

  /** `top` is the greatest number of messages open at any moment from `lo` to `hi`. */
  ghost predicate IsPeakBetween(top: int, events: seq<Event>, lo: nat, hi: nat) {
    && lo <= hi <= |events|
    && (forall k :: lo <= k <= hi ==> Open(events[..k]) <= top)
    && (exists k :: lo <= k <= hi && Open(events[..k]) == top)
  }

  lemma ShiftedPeak(top: int, events: seq<Event>, o: nat, part: seq<Event>)
    requires o + |part| <= |events| && events[o..o + |part|] == part && Open(events[..o]) == 0
    requires IsPeak(top, part)
    ensures IsPeakBetween(top, events, o, o + |part|)
  {
    forall k | o <= k <= o + |part| ensures Open(events[..k]) <= top {
      ShiftedOpen(events, o, part, k - o);
      assert Open(part[..k - o]) <= top;
    }
    var k :| 0 <= k <= |part| && Open(part[..k]) == top;
    ShiftedOpen(events, o, part, k);
    assert o <= o + k <= o + |part| && Open(events[..o + k]) == top;
  }

  lemma PeakOfBurst(b: Burst, events: seq<Event>, i: nat)
    requires OpenPart(events) == [] && i < |Segments(events)| && IsBurstOf(b, Segments(events)[i])
    ensures IsPeakBetween(b.maxOverlapping, events, Offset(events, i), Offset(events, i) + |Segments(events)[i]|)
  {
    SegmentAt(events, i);
    ShiftedPeak(b.maxOverlapping, events, Offset(events, i), Segments(events)[i]);
  }

  /** The recorded maximum is the greatest number of messages open at any moment
      of the burst. */
  lemma PeakIsTrueMaximum(m: Manager, events: seq<Event>, messages: seq<Message>, i: nat)
    requires Fresh(m) && IsTimeline(events, messages) && Lasting(messages)
    requires i < |Segments(events)|
    ensures |Run(m, events).bursts| == |Segments(events)|
    ensures IsPeakBetween(Run(m, events).bursts[i].maxOverlapping, events,
                          Offset(events, i), Offset(events, i) + |Segments(events)[i]|)
  {
    BurstAt(m, events, messages);
    PeakOfBurst(Run(m, events).bursts[i], events, i);
  }
}
