/** DCN messages as pairs of timestamped events, and how many messages are open. */
module DcnEvents {
  import opened Collections
  import opened Timespans

  /** A 64-bit unsigned word. */
  type Word = x: int | 0 <= x < 0x1_0000_0000_0000_0000

  /** Negation of an unsigned word: it wraps around. */
  function Negate(x: Word): Word { if x == 0 then 0 else 0x1_0000_0000_0000_0000 - x }

  datatype Message = Message(start: nat, end: nat, durationUs: nat, size: Word, srcSlice: int, tpuDst: int,
                             collective: string)

  function MicroToNano(us: nat): nat { 1000 * us }

  /** One end of a message; `diff` is 1 at its start and -1 at its end. */
  datatype Event = Event(timestamp: nat, duration: int, diff: int, sizeDiff: Word, srcSlice: int)

  function StartEvent(m: Message): Event { Event(m.start, 0, 1, m.size, m.srcSlice) }

  function EndEvent(m: Message): Event { Event(m.end, MicroToNano(m.durationUs), -1, Negate(m.size), m.srcSlice) }

  /** As words, the sizes at both ends of a message cancel. */
  lemma SizesCancel(m: Message)
    ensures (StartEvent(m).sizeDiff + EndEvent(m).sizeDiff) % 0x1_0000_0000_0000_0000 == 0
  {
  }

  function EventsOf(messages: seq<Message>): seq<Event> {
    if messages == [] then []
    else [StartEvent(messages[0]), EndEvent(messages[0])] + EventsOf(messages[1..])
  }

  ghost predicate TimeOrdered(events: seq<Event>) {
    forall i, j :: 0 <= i < j < |events| ==> events[i].timestamp <= events[j].timestamp
  }

  /** The events of the messages in some order that respects time; ties are free. */
  ghost predicate IsTimeline(events: seq<Event>, messages: seq<Message>) {
    TimeOrdered(events) && multiset(events) == multiset(EventsOf(messages))
  }

  ghost predicate Lasting(messages: seq<Message>) {
    forall m :: m in messages ==> m.start < m.end
  }

  function Interval(m: Message): Timespan {
    Timespan(m.start, if m.start <= m.end then m.end - m.start else 0)
  }

  function Intervals(messages: seq<Message>): (r: seq<Timespan>)
    ensures |r| == |messages|
    ensures forall i :: 0 <= i < |r| ==> r[i] == Interval(messages[i])
  {
    if messages == [] then [] else [Interval(messages[0])] + Intervals(messages[1..])
  }

  function Diff(): Event -> int { (e: Event) => e.diff }

  /** The number of open messages after the events. */
  function Open(events: seq<Event>): int { SumBy(events, Diff()) }

  /** The events up to time `p`. */
  function DiffUpTo(p: int): Event -> int { (e: Event) => if e.timestamp <= p then e.diff else 0 }

  /** Starts strictly before `t` and ends up to `t`. */
  function SafeDiff(t: int): Event -> int {
    (e: Event) =>
      if e.diff > 0 then if e.timestamp < t then e.diff else 0
      else if e.timestamp <= t then e.diff else 0
  }

  /** A sum over the events of the messages is a sum over the messages. */
  lemma {:induction false} SumOfPairs(messages: seq<Message>, f: Event -> int, g: Message -> int)
    requires forall m :: m in messages ==> f(StartEvent(m)) + f(EndEvent(m)) == g(m)
    ensures SumBy(EventsOf(messages), f) == SumBy(messages, g)
  {
    if messages != [] {
      var pair := [StartEvent(messages[0]), EndEvent(messages[0])];
      SumOfPairs(messages[1..], f, g);
      SumByConcat(pair, EventsOf(messages[1..]), f);
      assert pair[1..] == [EndEvent(messages[0])];
    }
  }

  lemma {:induction false} SumByAtMost<T>(s: seq<T>, f: T -> int, g: T -> int)
    requires forall x :: x in s ==> f(x) <= g(x)
    ensures SumBy(s, f) <= SumBy(s, g)
    ensures (exists x :: x in s && f(x) < g(x)) ==> SumBy(s, f) < SumBy(s, g)
  {
    if s != [] {
      assert s == [s[0]] + s[1..];
      SumByAtMost(s[1..], f, g);
    }
  }

  lemma {:induction false} EventKinds(messages: seq<Message>, e: Event)
    requires e in EventsOf(messages)
    ensures exists m :: m in messages && (e == StartEvent(m) || e == EndEvent(m))
  {
    var m := messages[0];
    if e == StartEvent(m) || e == EndEvent(m) {
      assert m in messages;
    } else {
      EventKinds(messages[1..], e);
    }
  }

  lemma TimelineKinds(events: seq<Event>, messages: seq<Message>)
    requires IsTimeline(events, messages)
    ensures forall e :: e in events ==> e.diff == 1 || e.diff == -1
  {
    forall e | e in events ensures e.diff == 1 || e.diff == -1 {
      assert e in multiset(events);
      EventKinds(messages, e);
    }
  }

  function Zero<T>(): T -> int { (x: T) => 0 }

  lemma {:induction false} SumOfZero<T>(s: seq<T>)
    ensures SumBy(s, Zero<T>()) == 0
  {
    if s != [] { SumOfZero(s[1..]); }
  }

  function Spans(p: int): Message -> int { (m: Message) => if m.start <= p < m.end then 1 else 0 }

  function SafeSpans(t: int): Message -> int { (m: Message) => if m.start < t < m.end then 1 else 0 }

  /** A prefix that cuts between times holds exactly the events up to its time. */
  lemma PrefixUpTo(events: seq<Event>, k: nat, p: int)
    requires TimeOrdered(events) && k <= |events|
    requires k > 0 ==> events[k - 1].timestamp <= p
    requires k < |events| ==> p < events[k].timestamp
    ensures SumBy(events, DiffUpTo(p)) == Open(events[..k])
  {
    var f, front, back := DiffUpTo(p), events[..k], events[k..];
    Slices(events, k, k, k);
    SumByConcat(front, back, f);
    CutInTime(events, k);
    SumByAgree(front, f, Diff());
    SumByAgree(back, f, Zero());
    SumOfZero(back);
  }

  lemma CutInTime(events: seq<Event>, k: nat)
    requires TimeOrdered(events) && k <= |events|
    ensures forall e :: e in events[..k] && k > 0 ==> e.timestamp <= events[k - 1].timestamp
    ensures forall e :: e in events[k..] && k < |events| ==> events[k].timestamp <= e.timestamp
  {
  }

  /** At every prefix that cuts between times, a unit lies in some message exactly
      when messages are open. */
  lemma OpenMeansCovered(events: seq<Event>, messages: seq<Message>, k: nat, p: int)
    requires IsTimeline(events, messages) && Lasting(messages) && k <= |events|
    requires k > 0 ==> events[k - 1].timestamp <= p
    requires k < |events| ==> p < events[k].timestamp
    ensures Open(events[..k]) >= 0
    ensures Open(events[..k]) > 0 <==> ActiveAt(Intervals(messages), p)
  {
    PrefixUpTo(events, k, p);
    SumByPermutation(events, EventsOf(messages), DiffUpTo(p));
    SumOfPairs(messages, DiffUpTo(p), Spans(p));
    CountIsPositive(messages, p);
  }

  lemma SumByAgree<T>(s: seq<T>, f: T -> int, g: T -> int)
    requires forall x :: x in s ==> f(x) == g(x)
    ensures SumBy(s, f) == SumBy(s, g)
  {
    SumByAtMost(s, f, g);
    SumByAtMost(s, g, f);
  }

  lemma {:induction false} CountIsPositive(messages: seq<Message>, p: int)
    ensures SumBy(messages, Spans(p)) >= 0
    ensures SumBy(messages, Spans(p)) > 0 <==> ActiveAt(Intervals(messages), p)
  {
    if messages != [] {
      CountIsPositive(messages[1..], p);
      var spans := Intervals(messages);
      assert spans == [Interval(messages[0])] + Intervals(messages[1..]);
      assert ActiveAt(spans, p) <==> Interval(messages[0]).Contains(p) || ActiveAt(Intervals(messages[1..]), p);
    }
  }

  /** The count of open messages never goes negative, whatever the order of ties,
      and stays positive while a message started at the current time. */
  lemma OpenIsNatural(events: seq<Event>, messages: seq<Message>, k: nat)
    requires IsTimeline(events, messages) && Lasting(messages) && 0 < k <= |events|
    ensures Open(events[..k]) >= 0
    ensures (exists i :: 0 <= i < k && events[i].diff > 0 && events[i].timestamp == events[k - 1].timestamp)
            ==> Open(events[..k]) > 0
  {
    var t, front, back := events[k - 1].timestamp, events[..k], events[k..];
    TimelineKinds(events, messages);
    SafeIsNatural(events, messages, t);
    SplitAtTime(events, k);
    SumByConcat(front, back, SafeDiff(t));
    SafeUpTo(front, t);
    SafeBeyond(back, t);
    if exists i :: 0 <= i < k && events[i].diff > 0 && events[i].timestamp == t {
      var i :| 0 <= i < k && events[i].diff > 0 && events[i].timestamp == t;
      assert front[i] in front;
    }
  }

  lemma SplitAtTime(events: seq<Event>, k: nat)
    requires TimeOrdered(events) && 0 < k <= |events|
    ensures events == events[..k] + events[k..]
    ensures forall e :: e in events[..k] ==> e in events && e.timestamp <= events[k - 1].timestamp
    ensures forall e :: e in events[k..] ==> e in events && e.timestamp >= events[k - 1].timestamp
  {
    forall e | e in events[..k] ensures e in events && e.timestamp <= events[k - 1].timestamp {
      var i :| 0 <= i < k && events[i] == e;
    }
    forall e | e in events[k..] ensures e in events && e.timestamp >= events[k - 1].timestamp {
      var i :| k <= i < |events| && events[i] == e;
    }
  }

  lemma SafeUpTo(part: seq<Event>, t: int)
    requires forall e :: e in part ==> (e.diff == 1 || e.diff == -1) && e.timestamp <= t
    ensures SumBy(part, SafeDiff(t)) <= Open(part)
    ensures (exists e :: e in part && e.diff > 0 && e.timestamp == t) ==> SumBy(part, SafeDiff(t)) < Open(part)
  {
    SumByAtMost(part, SafeDiff(t), Diff());
    if e :| e in part && e.diff > 0 && e.timestamp == t {
      assert SafeDiff(t)(e) < Diff()(e);
    }
  }

  lemma SafeBeyond(part: seq<Event>, t: int)
    requires forall e :: e in part ==> (e.diff == 1 || e.diff == -1) && e.timestamp >= t
    ensures SumBy(part, SafeDiff(t)) <= 0
  {
    SumByAtMost(part, SafeDiff(t), Zero());
    SumOfZero(part);
  }

  /** Messages that last: what starts before `t` outweighs what ends up to `t`. */
  lemma SafeIsNatural(events: seq<Event>, messages: seq<Message>, t: int)
    requires IsTimeline(events, messages) && Lasting(messages)
    ensures SumBy(events, SafeDiff(t)) >= 0
  {
    SumByPermutation(events, EventsOf(messages), SafeDiff(t));
    SumOfPairs(messages, SafeDiff(t), SafeSpans(t));
    SumOfZero(messages);
    SumByAtMost(messages, Zero(), SafeSpans(t));
  }

  /** All messages are closed at the end. */
  lemma OpenEndsAtZero(events: seq<Event>, messages: seq<Message>)
    requires IsTimeline(events, messages)
    ensures Open(events) == 0
  {
    SumByPermutation(events, EventsOf(messages), Diff());
    SumOfPairs(messages, Diff(), Zero());
    SumOfZero(messages);
  }
}
