/** The timelines of the host and of each tensor core and collective. */
module DcnBuckets {
  import opened Collections
  import opened DcnEvents
  import opened DcnMessages

  /** Insertion into a multimap: behind every event that is not later. */
  function InsertByTime(events: seq<Event>, e: Event): seq<Event> {
    if events == [] || e.timestamp < events[0].timestamp then [e] + events
    else [events[0]] + InsertByTime(events[1..], e)
  }

  lemma {:induction false} InsertAdds(events: seq<Event>, e: Event)
    ensures multiset(InsertByTime(events, e)) == multiset(events) + multiset{e}
  {
    if events != [] {
      assert events == [events[0]] + events[1..];
      if e.timestamp >= events[0].timestamp {
        InsertAdds(events[1..], e);
      }
    }
  }

  lemma OrderedCons(first: Event, rest: seq<Event>)
    ensures TimeOrdered([first] + rest) <==>
              TimeOrdered(rest) && forall x :: x in rest ==> first.timestamp <= x.timestamp
  {
    var all := [first] + rest;
    if TimeOrdered(all) {
      forall i, j | 0 <= i < j < |rest| ensures rest[i].timestamp <= rest[j].timestamp {
        assert all[i + 1] == rest[i] && all[j + 1] == rest[j];
      }
      forall x | x in rest ensures first.timestamp <= x.timestamp {
        var j :| 0 <= j < |rest| && rest[j] == x;
        assert all[0] == first && all[j + 1] == x;
      }
    }
  }

  lemma InsertMembers(events: seq<Event>, e: Event)
    ensures forall x :: x in InsertByTime(events, e) <==> x in events || x == e
  {
    InsertAdds(events, e);
    forall x ensures x in InsertByTime(events, e) <==> x in events || x == e {
      assert x in InsertByTime(events, e) <==> x in multiset(InsertByTime(events, e));
      assert x in events <==> x in multiset(events);
    }
  }

  lemma {:induction false} InsertKeepsOrder(events: seq<Event>, e: Event)
    requires TimeOrdered(events)
    ensures TimeOrdered(InsertByTime(events, e))
  {
    if events != [] {
      assert events == [events[0]] + events[1..];
      OrderedCons(events[0], events[1..]);
      if e.timestamp >= events[0].timestamp {
        InsertKeepsOrder(events[1..], e);
        InsertMembers(events[1..], e);
        OrderedCons(events[0], InsertByTime(events[1..], e));
      } else {
        OrderedCons(e, events);
      }
    }
  }

  function InsertMessage(events: seq<Event>, m: Message): seq<Event> {
    InsertByTime(InsertByTime(events, StartEvent(m)), EndEvent(m))
  }

  lemma InsertKeepsTimeline(events: seq<Event>, messages: seq<Message>, m: Message)
    requires IsTimeline(events, messages)
    ensures IsTimeline(InsertMessage(events, m), messages + [m])
  {
    InsertKeepsOrder(events, StartEvent(m));
    InsertAdds(events, StartEvent(m));
    InsertKeepsOrder(InsertByTime(events, StartEvent(m)), EndEvent(m));
    InsertAdds(InsertByTime(events, StartEvent(m)), EndEvent(m));
    EventsOfAppend(messages, m);
  }

  lemma {:induction false} EventsOfAppend(messages: seq<Message>, m: Message)
    ensures EventsOf(messages + [m]) == EventsOf(messages) + [StartEvent(m), EndEvent(m)]
  {
    if messages == [] {
      assert [m][1..] == [];
    } else {
      EventsOfAppend(messages[1..], m);
      assert (messages + [m])[1..] == messages[1..] + [m];
    }
  }

  /** The events with this timestamp. */
  function AtMoment(events: seq<Event>, t: int): seq<Event> {
    if events == [] then []
    else IfAt(events[0], t) + AtMoment(events[1..], t)
  }

  function IfAt(e: Event, t: int): seq<Event> {
    if e.timestamp == t then [e] else []
  }

  /** A timeline in which events of one moment keep the order in which they came. */
  ghost predicate IsStableTimeline(events: seq<Event>, messages: seq<Message>) {
    IsTimeline(events, messages) && forall t :: AtMoment(events, t) == AtMoment(EventsOf(messages), t)
  }

  lemma {:induction false} NothingAt(events: seq<Event>, t: int)
    requires forall x :: x in events ==> x.timestamp != t
    ensures AtMoment(events, t) == []
  {
    if events != [] { NothingAt(events[1..], t); }
  }

  lemma AtMomentCons(e: Event, rest: seq<Event>, t: int)
    ensures AtMoment([e] + rest, t) == IfAt(e, t) + AtMoment(rest, t)
  {
    assert ([e] + rest)[1..] == rest;
  }

  /** An inserted event comes last at its moment. */
  lemma {:induction false} InsertComesLast(events: seq<Event>, e: Event, t: int)
    requires TimeOrdered(events)
    ensures AtMoment(InsertByTime(events, e), t) == AtMoment(events, t) + IfAt(e, t)
  {
    if events == [] {
      AtMomentCons(e, [], t);
    } else {
      var first, rest := events[0], events[1..];
      assert events == [first] + rest;
      OrderedCons(first, rest);
      if e.timestamp < first.timestamp {
        AtMomentCons(e, events, t);
        if e.timestamp == t { NothingAt(events, t); }
      } else {
        InsertComesLast(rest, e, t);
        AtMomentCons(first, InsertByTime(rest, e), t);
        ConcatAssociates(IfAt(first, t), AtMoment(rest, t), IfAt(e, t));
      }
    }
  }

  lemma {:induction false} AtMomentAppend(events: seq<Event>, e: Event, t: int)
    ensures AtMoment(events + [e], t) == AtMoment(events, t) + IfAt(e, t)
  {
    if events == [] {
      assert events + [e] == [e] + [];
      AtMomentCons(e, [], t);
    } else {
      var first, rest := events[0], events[1..];
      assert events == [first] + rest;
      AtMomentAppend(rest, e, t);
      ConcatAssociates([first], rest, [e]);
      AtMomentCons(first, rest, t);
      AtMomentCons(first, rest + [e], t);
      ConcatAssociates(IfAt(first, t), AtMoment(rest, t), IfAt(e, t));
    }
  }

  lemma TwoMoreAt(events: seq<Event>, start: Event, end: Event, t: int)
    ensures AtMoment(events + [start, end], t)
         == AtMoment(events, t) + IfAt(start, t) + IfAt(end, t)
  {
    AtMomentAppend(events, start, t);
    AtMomentAppend(events + [start], end, t);
    assert events + [start, end] == events + [start] + [end];
  }

  lemma InsertedAt(events: seq<Event>, start: Event, end: Event, t: int)
    requires TimeOrdered(events)
    ensures AtMoment(InsertByTime(InsertByTime(events, start), end), t)
         == AtMoment(events, t) + IfAt(start, t) + IfAt(end, t)
  {
    InsertKeepsOrder(events, start);
    InsertComesLast(events, start, t);
    InsertComesLast(InsertByTime(events, start), end, t);
  }

  /** Inserting the events of a message leaves a timeline that keeps the order of arrival. */
  lemma InsertKeepsArrival(events: seq<Event>, messages: seq<Message>, m: Message)
    requires IsStableTimeline(events, messages)
    ensures IsStableTimeline(InsertMessage(events, m), messages + [m])
  {
    InsertKeepsTimeline(events, messages, m);
    EventsOfAppend(messages, m);
    forall t ensures AtMoment(InsertMessage(events, m), t) == AtMoment(EventsOf(messages + [m]), t) {
      InsertedAt(events, StartEvent(m), EndEvent(m), t);
      TwoMoreAt(EventsOf(messages), StartEvent(m), EndEvent(m), t);
    }
  }

  /** The tensor core and collective whose timeline a message joins. */
  datatype Key = Key(tpuIdx: nat, collective: string)

  function KeyOf(m: Message, numTensorCores: nat, isMegacore: bool): Key
    requires numTensorCores > 0 && (isMegacore ==> numTensorCores > 1)
  {
    Key(FindTpuIdx(m.tpuDst, numTensorCores, isMegacore), m.collective)
  }

  function Bucket(messages: seq<Message>, key: Key, numTensorCores: nat, isMegacore: bool): seq<Message>
    requires numTensorCores > 0 && (isMegacore ==> numTensorCores > 1)
  {
    if messages == [] then []
    else
      var n := |messages| - 1;
      var front := Bucket(messages[..n], key, numTensorCores, isMegacore);
      if KeyOf(messages[n], numTensorCores, isMegacore) == key then front + [messages[n]] else front
  }

  function Buckets(messages: seq<Message>, keys: seq<Key>, n: nat, megacore: bool): (r: seq<seq<Message>>)
    requires n > 0 && (megacore ==> n > 1)
    ensures |r| == |keys|
    ensures forall i :: 0 <= i < |r| ==> r[i] == Bucket(messages, keys[i], n, megacore)
  {
    if keys == [] then []
    else [Bucket(messages, keys[0], n, megacore)]
         + Buckets(messages, keys[1..], n, megacore)
  }

  /** A bucket holds the messages of its collective that go to its tensor core. */
  lemma {:induction false} BucketHolds(messages: seq<Message>, key: Key, n: nat, megacore: bool, m: Message)
    requires n > 0 && (megacore ==> n > 1)
    ensures m in Bucket(messages, key, n, megacore)
       <==> m in messages && m.collective == key.collective && FindTpuIdx(m.tpuDst, n, megacore) == key.tpuIdx
    decreases |messages|
  {
    if messages != [] {
      var front, last := messages[..|messages| - 1], messages[|messages| - 1];
      assert messages == front + [last];
      BucketHolds(front, key, n, megacore, m);
    }
  }

  /** The buckets partition the messages: each message is in exactly one of them. */
  lemma {:induction false} BucketsPartition(messages: seq<Message>, keys: seq<Key>, n: nat, megacore: bool)
    requires n > 0 && (megacore ==> n > 1)
    requires forall i, j :: 0 <= i < j < |keys| ==> keys[i] != keys[j]
    requires forall m :: m in messages ==> KeyOf(m, n, megacore) in keys
    ensures multiset(Flatten(Buckets(messages, keys, n, megacore))) == multiset(messages)
    decreases |messages|
  {
    if messages == [] {
      NoMessages(keys, n, megacore);
    } else {
      var front, m := messages[..|messages| - 1], messages[|messages| - 1];
      assert messages == front + [m];
      BucketsPartition(front, keys, n, megacore);
      var before := Buckets(front, keys, n, megacore);
      var i :| 0 <= i < |keys| && keys[i] == KeyOf(m, n, megacore);
      BucketsExtend(front, m, keys, i, n, megacore);
      FlattenExtend(before, i, m);
    }
  }

  lemma BucketExtend(messages: seq<Message>, m: Message, key: Key, n: nat, megacore: bool)
    requires n > 0 && (megacore ==> n > 1)
    ensures Bucket(messages + [m], key, n, megacore)
         == if KeyOf(m, n, megacore) == key then Bucket(messages, key, n, megacore) + [m]
            else Bucket(messages, key, n, megacore)
  {
    assert (messages + [m])[..|messages|] == messages;
  }

  lemma BucketsExtend(messages: seq<Message>, m: Message, keys: seq<Key>, i: nat, n: nat, megacore: bool)
    requires n > 0 && (megacore ==> n > 1)
    requires forall i, j :: 0 <= i < j < |keys| ==> keys[i] != keys[j]
    requires i < |keys| && keys[i] == KeyOf(m, n, megacore)
    ensures var before := Buckets(messages, keys, n, megacore);
      Buckets(messages + [m], keys, n, megacore) == before[i := before[i] + [m]]
  {
    var before, after := Buckets(messages, keys, n, megacore), Buckets(messages + [m], keys, n, megacore);
    forall j | 0 <= j < |keys| ensures after[j] == if j == i then before[j] + [m] else before[j] {
      BucketExtend(messages, m, keys[j], n, megacore);
    }
  }

  lemma {:induction false} NoMessages(keys: seq<Key>, n: nat, megacore: bool)
    requires n > 0 && (megacore ==> n > 1)
    ensures Flatten(Buckets([], keys, n, megacore)) == []
  {
    if keys != [] {
      NoMessages(keys[1..], n, megacore);
    }
  }

  type TsMaps = seq<map<string, seq<Event>>>

  function EventsAt(maps: TsMaps, key: Key): seq<Event>
    requires key.tpuIdx < |maps|
  {
    if key.collective in maps[key.tpuIdx] then maps[key.tpuIdx][key.collective] else []
  }

  /** The key has the timeline of its bucket, and no entry when the bucket is empty. */
  ghost predicate BucketIsRight(maps: TsMaps, messages: seq<Message>, key: Key, megacore: bool)
    requires key.tpuIdx < |maps| && (megacore ==> |maps| > 1)
  {
    && (key.collective in maps[key.tpuIdx] <==> Bucket(messages, key, |maps|, megacore) != [])
    && IsStableTimeline(EventsAt(maps, key), Bucket(messages, key, |maps|, megacore))
  }

  ghost predicate AllBucketsRight(maps: TsMaps, messages: seq<Message>, megacore: bool)
    requires |maps| > 0 && (megacore ==> |maps| > 1)
  {
    forall key: Key :: key.tpuIdx < |maps| ==> BucketIsRight(maps, messages, key, megacore)
  }

  function AddToMaps(maps: TsMaps, m: Message, megacore: bool): (r: TsMaps)
    requires |maps| > 0 && (megacore ==> |maps| > 1)
    ensures |r| == |maps|
  {
    var key := KeyOf(m, |maps|, megacore);
    maps[key.tpuIdx := maps[key.tpuIdx][key.collective := InsertMessage(EventsAt(maps, key), m)]]
  }

  lemma AddKeepsBuckets(maps: TsMaps, messages: seq<Message>, m: Message, megacore: bool)
    requires |maps| > 0 && (megacore ==> |maps| > 1) && AllBucketsRight(maps, messages, megacore)
    ensures AllBucketsRight(AddToMaps(maps, m, megacore), messages + [m], megacore)
  {
    forall key: Key | key.tpuIdx < |maps|
      ensures BucketIsRight(AddToMaps(maps, m, megacore), messages + [m], key, megacore)
    {
      assert BucketIsRight(maps, messages, key, megacore);
      AddKeepsBucket(maps, messages, m, key, megacore);
    }
  }

  lemma AddAt(maps: TsMaps, m: Message, key: Key, megacore: bool)
    requires key.tpuIdx < |maps| && (megacore ==> |maps| > 1)
    ensures var after, own := AddToMaps(maps, m, megacore), key == KeyOf(m, |maps|, megacore);
      && EventsAt(after, key) == (if own then InsertMessage(EventsAt(maps, key), m) else EventsAt(maps, key))
      && (key.collective in after[key.tpuIdx] <==> own || key.collective in maps[key.tpuIdx])
  {
  }

  lemma AddKeepsBucket(maps: TsMaps, messages: seq<Message>, m: Message, key: Key, megacore: bool)
    requires key.tpuIdx < |maps| && (megacore ==> |maps| > 1) && BucketIsRight(maps, messages, key, megacore)
    ensures BucketIsRight(AddToMaps(maps, m, megacore), messages + [m], key, megacore)
  {
    BucketExtend(messages, m, key, |maps|, megacore);
    AddAt(maps, m, key, megacore);
    if key == KeyOf(m, |maps|, megacore) {
      InsertKeepsArrival(EventsAt(maps, key), Bucket(messages, key, |maps|, megacore), m);
    }
  }

  /** One more received message, in the timelines if it is valid. */
  lemma ReceivedIsKept(host: seq<Event>, maps: TsMaps, received: seq<Received>, r: Received, megacore: bool)
    requires |maps| > 0 && (megacore ==> |maps| > 1)
    requires IsStableTimeline(host, ValidMessages(received)) && AllBucketsRight(maps, ValidMessages(received), megacore)
    ensures var valid, messages := BecomesEvents(r), ValidMessages(received + [r]);
      && IsStableTimeline(if valid then InsertMessage(host, r.message) else host, messages)
      && AllBucketsRight(if valid then AddToMaps(maps, r.message, megacore) else maps, messages, megacore)
  {
    assert (received + [r])[..|received|] == received;
    if BecomesEvents(r) {
      InsertKeepsArrival(host, ValidMessages(received), r.message);
      AddKeepsBuckets(maps, ValidMessages(received), r.message, megacore);
    }
  }
}
