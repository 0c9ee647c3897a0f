/** From received messages to the bursts of the host and of each tensor core and
    collective. */
module DcnProcessor {
  import opened Collections
  import opened Timespans
  import opened DcnEvents
  import opened DcnMessages
  import opened DcnBuckets
  import opened DcnBursts
  import opened DcnTheorems
  import opened DcnBurstTheorems

  /** One manager per collective of each tensor core. */
  type BurstMaps = seq<map<string, Manager>>

  function NewManager(garbage: seq<Straggler>): Manager { Manager([], 0, 0, Burst(0, 0, 0, 0, 0, garbage), 0) }

  ghost predicate Unused(m: Manager) {
    Fresh(m) && m.totalLatency == 0
  }

  ghost predicate AllWellShaped(maps: BurstMaps) {
    forall bursts, c :: bursts in maps && c in bursts ==> WellShaped(bursts[c])
  }

  ghost predicate NoneIn(maps: BurstMaps) {
    forall bursts :: bursts in maps ==> bursts == map[]
  }

  function ManagerOf(bursts: map<string, Manager>, key: Key, garbage: Key -> seq<Straggler>): Manager {
    if key.collective in bursts then bursts[key.collective] else NewManager(garbage(key))
  }

  /** Every collective with a timeline has its manager run over it; no other changes. */
  ghost predicate CoreHasRun(before: map<string, Manager>, after: map<string, Manager>,
                             timelines: map<string, seq<Event>>, tpuIdx: nat, garbage: Key -> seq<Straggler>) {
    && after.Keys == before.Keys + timelines.Keys
    && forall c :: c in after ==>
         if c !in timelines then after[c] == before[c]
         else if c in before then HasRun(before[c], after[c], timelines[c])
         else HasRun(NewManager(garbage(Key(tpuIdx, c))), after[c], timelines[c])
  }

  ghost predicate HasRun(before: Manager, after: Manager, events: seq<Event>) {
    WellShaped(before) && after == Run(before, events)
  }

  ghost predicate HaveRun(before: BurstMaps, after: BurstMaps, maps: TsMaps, garbage: Key -> seq<Straggler>) {
    && |before| == |after| == |maps|
    && forall i :: 0 <= i < |maps| ==> CoreHasRun(before[i], after[i], maps[i], i, garbage)
  }

  /** What a manager says about the messages it has seen. */
  ghost predicate Describes(m: Manager, messages: seq<Message>) {
    && m.totalLatency == |UnitsOf(Intervals(messages))|
    && SumBy(m.bursts, BurstMessages()) == |messages|
    && SumBy(m.bursts, BurstBytes()) == SumBy(messages, MessageBytes())
  }

  lemma RunDescribes(m: Manager, events: seq<Event>, messages: seq<Message>)
    requires Unused(m) && IsTimeline(events, messages) && Lasting(messages)
    ensures Describes(Run(m, events), messages)
  {
    LatencyIsMeasure(m, events, messages);
    BurstsHoldAllMessages(m, events, messages);
  }

  ghost predicate KeyDescribes(maps: BurstMaps, messages: seq<Message>, key: Key, megacore: bool)
    requires key.tpuIdx < |maps| && (megacore ==> |maps| > 1)
  {
    var bursts, bucket := maps[key.tpuIdx], Bucket(messages, key, |maps|, megacore);
    && (key.collective in bursts <==> bucket != [])
    && (key.collective in bursts ==> Describes(bursts[key.collective], bucket))
  }

  /** The host's manager describes all messages, and each tensor core and collective
      has a manager that describes its own, if there are any. */
  ghost predicate AllDescribe(host: Manager, maps: BurstMaps, messages: seq<Message>, megacore: bool)
    requires |maps| > 0 && (megacore ==> |maps| > 1)
  {
    && Describes(host, messages)
    && forall key: Key :: key.tpuIdx < |maps| ==> KeyDescribes(maps, messages, key, megacore)
  }

  lemma {:induction false} BucketLasts(messages: seq<Message>, key: Key, n: nat, megacore: bool)
    requires n > 0 && (megacore ==> n > 1) && Lasting(messages)
    ensures Lasting(Bucket(messages, key, n, megacore))
    decreases |messages|
  {
    if messages != [] {
      BucketLasts(messages[..|messages| - 1], key, n, megacore);
    }
  }

  lemma KeyIsDescribed(before: BurstMaps, after: BurstMaps, maps: TsMaps, messages: seq<Message>, key: Key,
                       megacore: bool, garbage: Key -> seq<Straggler>)
    requires key.tpuIdx < |maps| && (megacore ==> |maps| > 1) && HaveRun(before, after, maps, garbage)
    requires before[key.tpuIdx] == map[] && |garbage(key)| == MAX_STRAGGLERS
    requires BucketIsRight(maps, messages, key, megacore) && Lasting(messages)
    ensures KeyDescribes(after, messages, key, megacore)
  {
    assert CoreHasRun(before[key.tpuIdx], after[key.tpuIdx], maps[key.tpuIdx], key.tpuIdx, garbage);
    if key.collective in maps[key.tpuIdx] {
      BucketLasts(messages, key, |maps|, megacore);
      RunDescribes(NewManager(garbage(key)), EventsAt(maps, key), Bucket(messages, key, |maps|, megacore));
    }
  }

  /** Bursts created for the first time describe exactly the messages. */
  lemma GeneratedDescribe(host: Manager, events: seq<Event>, before: BurstMaps, after: BurstMaps, maps: TsMaps,
                          messages: seq<Message>, megacore: bool, garbage: Key -> seq<Straggler>)
    requires |maps| > 0 && (megacore ==> |maps| > 1) && HaveRun(before, after, maps, garbage)
    requires Unused(host) && NoneIn(before)
    requires IsTimeline(events, messages) && AllBucketsRight(maps, messages, megacore) && Lasting(messages)
    requires forall key :: |garbage(key)| == MAX_STRAGGLERS
    ensures AllDescribe(Run(host, events), after, messages, megacore)
  {
    RunDescribes(host, events, messages);
    forall key: Key | key.tpuIdx < |maps| ensures KeyDescribes(after, messages, key, megacore) {
      assert before[key.tpuIdx] in before;
      assert BucketIsRight(maps, messages, key, megacore);
      KeyIsDescribed(before, after, maps, messages, key, megacore, garbage);
    }
  }

  // Conservation between the host and the collectives.

  function HeldBy(maps: BurstMaps, f: Burst -> int): Key -> int {
    (key: Key) => if key.tpuIdx < |maps| && key.collective in maps[key.tpuIdx]
                  then SumBy(maps[key.tpuIdx][key.collective].bursts, f) else 0
  }

  lemma {:induction false} HeldByAll(host: Manager, maps: BurstMaps, messages: seq<Message>, keys: seq<Key>,
                                     megacore: bool)
    requires |maps| > 0 && (megacore ==> |maps| > 1) && AllDescribe(host, maps, messages, megacore)
    requires forall key :: key in keys ==> key.tpuIdx < |maps|
    ensures var held := Flatten(Buckets(messages, keys, |maps|, megacore));
      && SumBy(keys, HeldBy(maps, BurstMessages())) == |held|
      && SumBy(keys, HeldBy(maps, BurstBytes())) == SumBy(held, MessageBytes())
    decreases |keys|
  {
    if keys != [] {
      assert keys[0] in keys;
      assert KeyDescribes(maps, messages, keys[0], megacore);
      HeldByAll(host, maps, messages, keys[1..], megacore);
      assert Buckets(messages, keys, |maps|, megacore)[1..] == Buckets(messages, keys[1..], |maps|, megacore);
      SumByConcat(Bucket(messages, keys[0], |maps|, megacore),
                  Flatten(Buckets(messages, keys[1..], |maps|, megacore)), MessageBytes());
    }
  }

  /** All tensor cores and collectives together hold the messages and bytes of the host. */
  lemma CollectivesHoldHostTraffic(host: Manager, maps: BurstMaps, messages: seq<Message>, keys: seq<Key>,
                                   megacore: bool)
    requires |maps| > 0 && (megacore ==> |maps| > 1) && AllDescribe(host, maps, messages, megacore)
    requires forall i, j :: 0 <= i < j < |keys| ==> keys[i] != keys[j]
    requires forall key :: key in keys ==> key.tpuIdx < |maps|
    requires forall m :: m in messages ==> KeyOf(m, |maps|, megacore) in keys
    ensures SumBy(keys, HeldBy(maps, BurstMessages())) == SumBy(host.bursts, BurstMessages())
    ensures SumBy(keys, HeldBy(maps, BurstBytes())) == SumBy(host.bursts, BurstBytes())
  {
    var held := Flatten(Buckets(messages, keys, |maps|, megacore));
    HeldByAll(host, maps, messages, keys, megacore);
    BucketsPartition(messages, keys, |maps|, megacore);
    assert |multiset(held)| == |multiset(messages)|;
    SumByPermutation(held, messages, MessageBytes());
  }

  lemma NextHasRun(before: map<string, Manager>, after: map<string, Manager>, timelines: map<string, seq<Event>>,
                   left: set<string>, c: string, tpuIdx: nat, garbage: Key -> seq<Straggler>)
    requires c in left && left <= timelines.Keys && CoreHasRun(before, after, timelines - left, tpuIdx, garbage)
    requires WellShaped(ManagerOf(before, Key(tpuIdx, c), garbage))
    ensures CoreHasRun(before, after[c := Run(ManagerOf(before, Key(tpuIdx, c), garbage), timelines[c])],
                       timelines - (left - {c}), tpuIdx, garbage)
  {
    assert (timelines - (left - {c})).Keys == (timelines - left).Keys + {c};
  }

  /** Runs the managers of one tensor core, in whatever order the hash map yields the
      collectives; missing managers are made. */
  method GenerateCollectives(bursts: map<string, Manager>, timelines: map<string, seq<Event>>, tpuIdx: nat,
                             garbage: Key -> seq<Straggler>)
    returns (after: map<string, Manager>)
    requires forall key :: |garbage(key)| == MAX_STRAGGLERS
    requires forall c :: c in bursts ==> WellShaped(bursts[c])
    ensures CoreHasRun(bursts, after, timelines, tpuIdx, garbage)
    ensures forall c :: c in after ==> WellShaped(after[c])
  {
    after := bursts;
    var left := timelines.Keys;
    while left != {}
      invariant left <= timelines.Keys
      invariant CoreHasRun(bursts, after, timelines - left, tpuIdx, garbage)
      invariant forall c :: c in after ==> WellShaped(after[c])
      decreases left
    {
      var c :| c in left;
      NextHasRun(bursts, after, timelines, left, c, tpuIdx, garbage);
      var manager := new DcnBurstManager.Copy(ManagerOf(bursts, Key(tpuIdx, c), garbage));
      manager.CreateBursts(timelines[c]);
      after := after[c := manager.Value()];
      left := left - {c};
    }
    assert timelines - left == timelines;
  }

  class DcnEventsProcessor {
    const numTpuTensorCores: nat
    const isMegacore: bool
    var received: seq<Received>
    var hostTsMap: seq<Event>
    var tpuCollectiveTsMap: TsMaps
    var hostDcnBursts: Manager
    var tpuCollectiveBursts: BurstMaps

    /** The host's timeline holds all valid messages, and each tensor core and
        collective has the timeline of its own bucket. */
    ghost predicate TimelinesAreRight()
      reads this`received, this`hostTsMap, this`tpuCollectiveTsMap
    {
      && numTpuTensorCores > 0 && (isMegacore ==> numTpuTensorCores > 1)
      && |tpuCollectiveTsMap| == numTpuTensorCores
      && IsStableTimeline(hostTsMap, ValidMessages(received))
      && AllBucketsRight(tpuCollectiveTsMap, ValidMessages(received), isMegacore)
    }

    ghost predicate Valid()
      reads this
    {
      && TimelinesAreRight()
      && |tpuCollectiveBursts| == numTpuTensorCores
      && WellShaped(hostDcnBursts) && AllWellShaped(tpuCollectiveBursts)
    }

    /** No bursts have been created so far. */
    ghost predicate NoBursts()
      reads this
    {
      Unused(hostDcnBursts) && NoneIn(tpuCollectiveBursts)
    }

    constructor (numTensorCores: nat, megacore: bool, garbage: seq<Straggler>)
      requires numTensorCores > 0 && (megacore ==> numTensorCores > 1) && |garbage| == MAX_STRAGGLERS
      ensures Valid() && NoBursts() && received == []
      ensures numTpuTensorCores == numTensorCores && isMegacore == megacore
    {
      numTpuTensorCores, isMegacore := numTensorCores, megacore;
      received, hostTsMap := [], [];
      tpuCollectiveTsMap, tpuCollectiveBursts := seq(numTensorCores, i => map[]), seq(numTensorCores, i => map[]);
      hostDcnBursts := NewManager(garbage);
    }

    /** Adds a valid message's two events to the host's timeline and to that of its
        tensor core and collective. */
    method GenerateTimestampEvents(r: Received)
      requires numTpuTensorCores > 0 && (isMegacore ==> numTpuTensorCores > 1)
      requires |tpuCollectiveTsMap| == numTpuTensorCores
      modifies this`hostTsMap, this`tpuCollectiveTsMap
      ensures hostTsMap == InsertMessage(old(hostTsMap), r.message)
      ensures tpuCollectiveTsMap == AddToMaps(old(tpuCollectiveTsMap), r.message, isMegacore)
    {
      var m := r.message;
      var startEvent := Event(m.start, 0, 1, m.size, m.srcSlice);
      var endEvent := Event(m.end, MicroToNano(m.durationUs), -1, Negate(m.size), m.srcSlice);
      hostTsMap := InsertByTime(InsertByTime(hostTsMap, startEvent), endEvent);
      var tpuIdx := FindTpuIdx(m.tpuDst, numTpuTensorCores, isMegacore);
      var byCollective := tpuCollectiveTsMap[tpuIdx];
      var events := if m.collective in byCollective then byCollective[m.collective] else [];
      events := InsertByTime(InsertByTime(events, startEvent), endEvent);
      tpuCollectiveTsMap := tpuCollectiveTsMap[tpuIdx := byCollective[m.collective := events]];
    }

    /** Handles one received message: invalid and loopback ones leave no events. */
    method ProcessReceiveMessage(r: Received)
      requires TimelinesAreRight()
      modifies this`received, this`hostTsMap, this`tpuCollectiveTsMap
      ensures TimelinesAreRight() && received == old(received) + [r]
    {
      ReceivedIsKept(hostTsMap, tpuCollectiveTsMap, received, r, isMegacore);
      ValidityIs(r);
      if ValidityOf(r) == Validity.Valid {
        GenerateTimestampEvents(r);
      }
      received := received + [r];
    }

    /** Creates the bursts of the host and of every tensor core and collective; the
        straggler slots of new managers hold whatever was in memory. */
    method GenerateBursts(garbage: Key -> seq<Straggler>)
      requires Valid() && forall key :: |garbage(key)| == MAX_STRAGGLERS
      modifies this`hostDcnBursts, this`tpuCollectiveBursts
      ensures Valid() && hostDcnBursts == Run(old(hostDcnBursts), hostTsMap)
      ensures HaveRun(old(tpuCollectiveBursts), tpuCollectiveBursts, tpuCollectiveTsMap, garbage)
    {
      var host := new DcnBurstManager.Copy(hostDcnBursts);
      host.CreateBursts(hostTsMap);
      hostDcnBursts := host.Value();
      for tpuIdx := 0 to numTpuTensorCores
        invariant Valid() && hostDcnBursts == Run(old(hostDcnBursts), hostTsMap)
        invariant tpuCollectiveBursts[tpuIdx..] == old(tpuCollectiveBursts[tpuIdx..])
        invariant forall i :: 0 <= i < tpuIdx ==>
                    CoreHasRun(old(tpuCollectiveBursts)[i], tpuCollectiveBursts[i], tpuCollectiveTsMap[i], i, garbage)
      {
        var bursts := GenerateCollectives(tpuCollectiveBursts[tpuIdx], tpuCollectiveTsMap[tpuIdx], tpuIdx, garbage);
        tpuCollectiveBursts := tpuCollectiveBursts[tpuIdx := bursts];
      }
    }

    /** Bursts created for the first time describe exactly the valid messages. */
    lemma FirstBurstsDescribe(host: Manager, before: BurstMaps, garbage: Key -> seq<Straggler>)
      requires TimelinesAreRight() && forall key :: |garbage(key)| == MAX_STRAGGLERS
      requires HaveRun(before, tpuCollectiveBursts, tpuCollectiveTsMap, garbage)
      requires WellShaped(host) && hostDcnBursts == Run(host, hostTsMap)
      ensures Unused(host) && NoneIn(before) && Lasting(ValidMessages(received)) ==>
                AllDescribe(hostDcnBursts, tpuCollectiveBursts, ValidMessages(received), isMegacore)
    {
      if Unused(host) && NoneIn(before) && Lasting(ValidMessages(received)) {
        GeneratedDescribe(host, hostTsMap, before, tpuCollectiveBursts, tpuCollectiveTsMap, ValidMessages(received),
                          isMegacore, garbage);
      }
    }

    method ReceiveAll(messages: seq<Received>)
      requires TimelinesAreRight()
      modifies this`received, this`hostTsMap, this`tpuCollectiveTsMap
      ensures TimelinesAreRight() && received == old(received) + messages
    {
      for i := 0 to |messages|
        invariant TimelinesAreRight() && received == old(received) + messages[..i]
      {
        NextPrefix(old(received), messages, i);
        ProcessReceiveMessage(messages[i]);
      }
      assert messages[..|messages|] == messages;
    }

    /** Handles all messages of a plane, then creates the bursts. */
    method ProcessReceiveMessages(messages: seq<Received>, garbage: Key -> seq<Straggler>)
      requires Valid() && forall key :: |garbage(key)| == MAX_STRAGGLERS
      modifies this
      ensures Valid() && received == old(received) + messages
      ensures hostDcnBursts == Run(old(hostDcnBursts), hostTsMap)
      ensures HaveRun(old(tpuCollectiveBursts), tpuCollectiveBursts, tpuCollectiveTsMap, garbage)
      ensures old(NoBursts()) && Lasting(ValidMessages(received)) ==>
                AllDescribe(hostDcnBursts, tpuCollectiveBursts, ValidMessages(received), isMegacore)
    {
      ReceiveAll(messages);
      GenerateBursts(garbage);
      FirstBurstsDescribe(old(hostDcnBursts), old(tpuCollectiveBursts), garbage);
    }
  }
}
