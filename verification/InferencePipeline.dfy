/** From the results of many hosts to one sorted list of requests per model. */
module InferencePipeline {
  import opened Collections
  import opened InferenceData
  import opened InferenceStatistics
  import opened InferenceRegroup
  import opened NwayMerge

  /** What a request says once its indices are looked up. */
  datatype Meaning = Meaning(model: Option<string>, tensors: seq<(Option<string>, nat)>, timing: Timing)

  function NameAt(index: int, names: seq<string>): Option<string> {
    if 0 <= index < |names| then Some(names[index]) else None
  }

  function MeaningOf(ids: seq<string>, patterns: seq<string>): Request -> Meaning {
    (r: Request) =>
      Meaning(NameAt(r.modelIdIndex, ids),
              MapBy(r.tensors, (t: TensorEvent) => (NameAt(t.patternIndex, patterns), t.linearizeTime)),
              r.timing)
  }

  function Meanings(requests: seq<Request>, ids: seq<string>, patterns: seq<string>): (r: seq<Meaning>) {
    MapBy(requests, MeaningOf(ids, patterns))
  }

  lemma SameMeaning(a: Request, idsA: seq<string>, patternsA: seq<string>,
                    b: Request, idsB: seq<string>, patternsB: seq<string>)
    requires SameRequest(a, idsA, patternsA, b, idsB, patternsB)
    ensures MeaningOf(idsA, patternsA)(a) == MeaningOf(idsB, patternsB)(b)
  {
    var left, right := MeaningOf(idsA, patternsA)(a), MeaningOf(idsB, patternsB)(b);
    forall k | 0 <= k < |left.tensors| ensures left.tensors[k] == right.tensors[k] {
      assert SameTensor(a.tensors[k], patternsA, b.tensors[k], patternsB);
    }
  }

  /** What the requests say whose model has this name; what all of them say when
      there is no name to ask for. */
  function MeaningsNamed(requests: seq<Request>, ids: seq<string>, patterns: seq<string>, name: Option<string>)
    : seq<Meaning>
  {
    if requests == [] then []
    else
      var n := |requests| - 1;
      var front, last := MeaningsNamed(requests[..n], ids, patterns, name), MeaningOf(ids, patterns)(requests[n]);
      if name.None? || last.model == name then front + [last] else front
  }

  /** A stored request belongs to a model exactly when its own host named that model. */
  lemma SameChoice(stored: Request, ids: seq<string>, patterns: seq<string>,
                   own: Request, ownIds: seq<string>, ownPatterns: seq<string>, m: nat)
    requires SameRequest(stored, ids, patterns, own, ownIds, ownPatterns) && Distinct(ids)
    requires m < if ids == [] then 1 else |ids|
    ensures var meaning, name := MeaningOf(ownIds, ownPatterns)(own), NameOf(ids, m);
      && MeaningOf(ids, patterns)(stored) == meaning
      && (BelongsTo(stored, m, ids) <==> name.None? || meaning.model == name)
  {
    SameMeaning(stored, ids, patterns, own, ownIds, ownPatterns);
  }

  /** What is stored under a model are the requests whose own host named that model. */
  lemma {:induction false} SelectedByName(stored: seq<Request>, ids: seq<string>, patterns: seq<string>,
                                          own: seq<Request>, ownIds: seq<string>, ownPatterns: seq<string>, m: nat)
    requires SameRequests(stored, ids, patterns, own, ownIds, ownPatterns) && Distinct(ids)
    requires m < if ids == [] then 1 else |ids|
    ensures Meanings(Select(stored, m, ids), ids, patterns)
         == MeaningsNamed(own, ownIds, ownPatterns, NameOf(ids, m))
    decreases |stored|
  {
    if stored != [] {
      var n := |stored| - 1;
      SelectedByName(stored[..n], ids, patterns, own[..n], ownIds, ownPatterns, m);
      SameChoice(stored[n], ids, patterns, own[n], ownIds, ownPatterns, m);
      MapConcat(Select(stored[..n], m, ids), [stored[n]], MeaningOf(ids, patterns));
    }
  }

  /** The name a regrouped model stands for; none when there are no model names. */
  function NameOf(ids: seq<string>, m: nat): Option<string> {
    if m < |ids| then Some(ids[m]) else None
  }

  /** One host's contribution to a model, judged by the host's own result. */
  ghost function Contribution(results: map<HostId, HostResult>, name: Option<string>): HostId -> multiset<Meaning> {
    (h: HostId) =>
      if h in results && results[h].stats.Some? && ValidResult(results[h])
      then multiset(MeaningsNamed(results[h].stats.value.requests, results[h].models.ids, results[h].patterns, name))
      else multiset{}
  }

  /** Every model's list is sorted and holds exactly the requests of all hosts whose
      model has that name. */
  ghost predicate IsGroupedByName(perModel: map<nat, seq<Request>>, ids: seq<string>, patterns: seq<string>,
                                  results: map<HostId, HostResult>, cmp: (Timing, Timing) -> bool) {
    && (forall m :: m in perModel <==> 0 <= m < (if ids == [] then 1 else |ids|))
    && forall m :: m in perModel ==>
         && Sorted(perModel[m], ByTiming(cmp))
         && multiset(Meanings(perModel[m], ids, patterns))
            == UnionOver(results.Keys, Contribution(results, NameOf(ids, m)))
  }

  /** The hosts in the order in which the map yields them. */
  ghost predicate Enumerates(order: seq<HostId>, keys: set<HostId>) {
    && (forall i, j :: 0 <= i < j < |order| ==> order[i] != order[j])
    && (forall h :: h in order <==> h in keys)
  }

  function RequestsOf(perHost: map<HostId, HostStats>, order: seq<HostId>): (r: seq<seq<Request>>)
    requires forall h :: h in order ==> h in perHost
    ensures |r| == |order| && forall i :: 0 <= i < |r| ==> order[i] in perHost && r[i] == perHost[order[i]].requests
  {
    if order == [] then [] else
      assert order[0] in order;
      [perHost[order[0]].requests] + RequestsOf(perHost, order[1..])
  }

  lemma {:induction false} UnionInOrder(lists: seq<seq<Request>>, order: seq<HostId>, keys: set<HostId>,
                                        f: HostId -> multiset<Meaning>, meaning: Request -> Meaning)
    requires |lists| == |order| && Enumerates(order, keys)
    requires forall i :: 0 <= i < |order| ==> multiset(MapBy(lists[i], meaning)) == f(order[i])
    ensures multiset(MapBy(Flatten(lists), meaning)) == UnionOver(keys, f)
    decreases |order|
  {
    if order == [] {
      assert forall h :: h !in keys;
    } else {
      UnionOverPick(keys, order[0], f);
      RestEnumerates(order, keys);
      UnionInOrder(lists[1..], order[1..], keys - {order[0]}, f, meaning);
      MapConcat(lists[0], Flatten(lists[1..]), meaning);
    }
  }

  lemma RestEnumerates(order: seq<HostId>, keys: set<HostId>)
    requires Enumerates(order, keys) && order != []
    ensures order[0] in keys && Enumerates(order[1..], keys - {order[0]})
  {
    assert order == [order[0]] + order[1..] && order[0] in order;
  }

  /** One regrouped list holds what the hosts contributed to the model. */
  lemma RegroupedHoldsContributions(stats: InferenceStats, order: seq<HostId>, merged: seq<Request>, m: nat)
    requires stats.Valid() && Enumerates(order, stats.perHost.Keys)
    requires m < if stats.modelIdDb.ids == [] then 1 else |stats.modelIdDb.ids|
    requires IsInterleaving(merged, SelectAll(RequestsOf(stats.perHost, order), m, stats.modelIdDb.ids))
    ensures multiset(Meanings(merged, stats.modelIdDb.ids, stats.tensorPatterns))
         == UnionOver(stats.results.Keys, Contribution(stats.results, NameOf(stats.modelIdDb.ids, m)))
  {
    var ids, hosts := stats.modelIdDb.ids, RequestsOf(stats.perHost, order);
    var lists, meaning := SelectAll(hosts, m, ids), MeaningOf(ids, stats.tensorPatterns);
    InterleavingPermutes(merged, lists);
    MapPermutation(merged, Flatten(lists), meaning);
    var f := Contribution(stats.results, NameOf(ids, m));
    forall i | 0 <= i < |order| ensures multiset(MapBy(lists[i], meaning)) == f(order[i]) {
      HostContributes(stats, order[i], m);
    }
    UnionInOrder(lists, order, stats.perHost.Keys, f, meaning);
  }

  lemma HostContributes(stats: InferenceStats, h: HostId, m: nat)
    requires stats.Valid() && h in stats.perHost
    requires m < if stats.modelIdDb.ids == [] then 1 else |stats.modelIdDb.ids|
    ensures multiset(Meanings(Select(stats.perHost[h].requests, m, stats.modelIdDb.ids),
                              stats.modelIdDb.ids, stats.tensorPatterns))
         == Contribution(stats.results, NameOf(stats.modelIdDb.ids, m))(h)
  {
    var result, stored, ids := stats.results[h], stats.perHost[h].requests, stats.modelIdDb.ids;
    IndexedAreDistinct(stats.modelIdDb.idToIndex, ids);
    SelectedByName(stored, ids, stats.tensorPatterns, result.stats.value.requests, result.models.ids,
                   result.patterns, m);
  }

  /** Appends each model's merged list to what is already stored for the model. */
  function Stored(perModel: map<nat, seq<Request>>, byModel: seq<seq<Request>>): (r: map<nat, seq<Request>>)
    ensures forall m :: m in r <==> m in perModel || 0 <= m < |byModel|
    ensures perModel == map[] ==> forall m :: m in r ==> m < |byModel| && r[m] == byModel[m]
  {
    perModel + map m: nat | 0 <= m < |byModel| :: (if m in perModel then perModel[m] else []) + byModel[m]
  }

  lemma RegroupedIsGroupedByName(stats: InferenceStats, order: seq<HostId>, byModel: seq<seq<Request>>,
                                 cmp: (Timing, Timing) -> bool)
    requires stats.Valid() && Enumerates(order, stats.perHost.Keys)
    requires IsRegrouped(byModel, RequestsOf(stats.perHost, order), stats.modelIdDb.ids, cmp)
    ensures IsGroupedByName(Stored(map[], byModel), stats.modelIdDb.ids, stats.tensorPatterns, stats.results, cmp)
  {
    forall m | m in Stored(map[], byModel)
      ensures Sorted(byModel[m], ByTiming(cmp))
      ensures multiset(Meanings(byModel[m], stats.modelIdDb.ids, stats.tensorPatterns))
           == UnionOver(stats.results.Keys, Contribution(stats.results, NameOf(stats.modelIdDb.ids, m)))
    {
      RegroupedHoldsContributions(stats, order, byModel[m], m);
    }
  }

  /** Collects the hosts' request lists and regroups them. */
  method RegroupHosts(stats: InferenceStats, cmp: (Timing, Timing) -> bool) returns (byModel: seq<seq<Request>>)
    requires stats.Valid() && StrictWeakOrder(cmp)
    requires forall h :: h in stats.perHost ==> Sorted(stats.perHost[h].requests, ByTiming(cmp))
    ensures IsGroupedByName(Stored(map[], byModel), stats.modelIdDb.ids, stats.tensorPatterns, stats.results, cmp)
  {
    var order, hosts := HostsInOrder(stats);
    HostsAreRegroupable(stats, order, cmp);
    byModel := RegroupDataByModelId(stats.modelIdDb.ids, hosts, cmp);
    RegroupedIsGroupedByName(stats, order, byModel, cmp);
  }

  /** Stores the models' lists. */
  method MergeHosts(stats: InferenceStats, cmp: (Timing, Timing) -> bool)
    requires stats.Valid() && StrictWeakOrder(cmp)
    requires forall h :: h in stats.perHost ==> Sorted(stats.perHost[h].requests, ByTiming(cmp))
    modifies stats`perModel
    ensures old(stats.perModel) == map[] ==>
              IsGroupedByName(stats.perModel, stats.modelIdDb.ids, stats.tensorPatterns, stats.results, cmp)
  {
    var byModel := RegroupHosts(stats, cmp);
    stats.perModel := Stored(stats.perModel, byModel);
  }

  /** Regroups all hosts' requests by model and forgets the hosts. */
  method RegroupInferenceStatsByModel(stats: InferenceStats, cmp: (Timing, Timing) -> bool)
    requires stats.Valid() && StrictWeakOrder(cmp)
    requires forall h :: h in stats.perHost ==> Sorted(stats.perHost[h].requests, ByTiming(cmp))
    modifies stats`perModel, stats`modelIdDb, stats`perHost
    ensures old(stats.perHost) == map[] ==>
              stats.perModel == old(stats.perModel) && stats.modelIdDb == old(stats.modelIdDb)
    ensures old(stats.perHost) != map[] && old(stats.perModel) == map[] ==>
              IsGroupedByName(stats.perModel, old(stats.modelIdDb).ids, stats.tensorPatterns, stats.results, cmp)
    ensures old(stats.perHost) != map[] && old(stats.modelIdDb).ids == [] ==>
              stats.modelIdDb == ModelDb(["ALL"], map["ALL" := 0])
    ensures old(stats.modelIdDb).ids != [] ==> stats.modelIdDb == old(stats.modelIdDb)
    ensures stats.perHost == map[]
  {
    if |stats.perHost| == 0 { return; }
    MergeHosts(stats, cmp);
    ForgetHosts(stats);
  }

  /** Without any model name one is made up for all requests. */
  method ForgetHosts(stats: InferenceStats)
    modifies stats`modelIdDb, stats`perHost
    ensures stats.perHost == map[]
    ensures stats.modelIdDb == if old(stats.modelIdDb).ids == [] then ModelDb(["ALL"], map["ALL" := 0])
                               else old(stats.modelIdDb)
  {
    if |stats.modelIdDb.ids| == 0 {
      stats.modelIdDb := ModelDb(["ALL"], map["ALL" := 0]);
    }
    stats.perHost := map[];
  }

  method HostsInOrder(stats: InferenceStats) returns (order: seq<HostId>, hosts: seq<seq<Request>>)
    ensures Enumerates(order, stats.perHost.Keys) && hosts == RequestsOf(stats.perHost, order)
  {
    order, hosts := [], [];
    var left: set<HostId> := stats.perHost.Keys;
    while left != {}
      invariant left <= stats.perHost.Keys
      invariant Enumerates(order, stats.perHost.Keys - left)
      invariant |hosts| == |order|
      invariant forall i :: 0 <= i < |order| ==>
                  order[i] in stats.perHost && hosts[i] == stats.perHost[order[i]].requests
      decreases left
    {
      var h :| h in left;
      order, hosts := order + [h], hosts + [stats.perHost[h].requests];
      left := left - {h};
    }
    assert stats.perHost.Keys - left == stats.perHost.Keys;
  }

  lemma HostsAreRegroupable(stats: InferenceStats, order: seq<HostId>, cmp: (Timing, Timing) -> bool)
    requires stats.Valid() && Enumerates(order, stats.perHost.Keys)
    requires forall h :: h in stats.perHost ==> Sorted(stats.perHost[h].requests, ByTiming(cmp))
    ensures var hosts := RequestsOf(stats.perHost, order);
      && (forall s :: s in hosts ==> Sorted(s, ByTiming(cmp)))
      && (forall s, r :: s in hosts && r in s ==> ValidModelIndex(r.modelIdIndex, stats.modelIdDb.ids))
  {
    var hosts := RequestsOf(stats.perHost, order);
    forall s | s in hosts
      ensures Sorted(s, ByTiming(cmp))
      ensures forall r :: r in s ==> ValidModelIndex(r.modelIdIndex, stats.modelIdDb.ids)
    {
      var i :| 0 <= i < |hosts| && hosts[i] == s;
      var h := order[i];
      forall r | r in s ensures ValidModelIndex(r.modelIdIndex, stats.modelIdDb.ids) {
        var k :| 0 <= k < |s| && s[k] == r;
        assert SameRequest(stats.perHost[h].requests[k], stats.modelIdDb.ids, stats.tensorPatterns,
                           stats.results[h].stats.value.requests[k], stats.results[h].models.ids,
                           stats.results[h].patterns);
      }
    }
  }

  /** A host's own list, sorted by duration, stays sorted once its indices change. */
  lemma StoredIsSorted(stats: InferenceStats, h: HostId, cmp: (Timing, Timing) -> bool)
    requires stats.Valid() && h in stats.perHost
    requires Sorted(stats.results[h].stats.value.requests, ByTiming(cmp))
    ensures Sorted(stats.perHost[h].requests, ByTiming(cmp))
  {
    var stored, own := stats.perHost[h].requests, stats.results[h].stats.value.requests;
    forall i, j | 0 <= i < j < |stored| ensures !ByTiming(cmp)(stored[j], stored[i]) {
      assert stored[i].timing == own[i].timing && stored[j].timing == own[j].timing;
    }
  }

  /** The results by host number, as far as they carry statistics. */
  function ResultsOf(hosts: seq<(HostId, HostResult)>): map<HostId, HostResult> {
    if hosts == [] then map[]
    else
      var before, last := ResultsOf(hosts[..|hosts| - 1]), hosts[|hosts| - 1];
      if last.1.stats.Some? then before[last.0 := last.1] else before
  }

  ghost predicate DistinctHosts(hosts: seq<(HostId, HostResult)>) {
    forall i, j :: 0 <= i < j < |hosts| ==> hosts[i].0 != hosts[j].0
  }

  lemma {:induction false} ResultsAreHosts(hosts: seq<(HostId, HostResult)>)
    ensures forall h :: h in ResultsOf(hosts) ==> (h, ResultsOf(hosts)[h]) in hosts && ResultsOf(hosts)[h].stats.Some?
    decreases |hosts|
  {
    if hosts != [] {
      var n := |hosts| - 1;
      ResultsAreHosts(hosts[..n]);
      assert hosts == hosts[..n] + [hosts[n]];
    }
  }

  /** A host that comes later has no result yet. */
  lemma NoResultYet(hosts: seq<(HostId, HostResult)>, i: nat)
    requires DistinctHosts(hosts) && i < |hosts|
    ensures hosts[i].0 !in ResultsOf(hosts[..i])
  {
    ResultsAreHosts(hosts[..i]);
  }

  /** A name is listed when some host combined so far lists it. */
  ghost predicate ListsNamesOf(ids: seq<string>, hosts: seq<(HostId, HostResult)>) {
    forall name :: name in ids <==> exists h :: h in hosts && name in h.1.models.ids
  }

  /** The hosts so far have been combined, and nothing else. */
  ghost predicate HasCombined(stats: InferenceStats, hosts: seq<(HostId, HostResult)>)
    reads stats
  {
    && stats.Valid() && stats.results == ResultsOf(hosts) && stats.perModel == map[]
    && ListsNamesOf(stats.modelIdDb.ids, hosts)
  }

  /** Folds the hosts' results one after the other into an empty result. */
  method CombineHosts(hosts: seq<(HostId, HostResult)>) returns (stats: InferenceStats)
    requires DistinctHosts(hosts) && forall h :: h in hosts ==> ValidResult(h.1)
    ensures fresh(stats) && HasCombined(stats, hosts)
  {
    stats := new InferenceStats();
    for i := 0 to |hosts|
      invariant fresh(stats) && HasCombined(stats, hosts[..i])
    {
      assert hosts[i] in hosts && hosts[..i + 1] == hosts[..i] + [hosts[i]];
      NoResultYet(hosts, i);
      CombineNext(stats, hosts[..i], hosts[i]);
    }
    assert hosts[..|hosts|] == hosts;
  }

  method CombineNext(stats: InferenceStats, ghost hosts: seq<(HostId, HostResult)>, next: (HostId, HostResult))
    requires HasCombined(stats, hosts) && ValidResult(next.1) && next.0 !in ResultsOf(hosts)
    modifies stats
    ensures HasCombined(stats, hosts + [next])
  {
    assert (hosts + [next])[..|hosts|] == hosts;
    ghost var before := stats.modelIdDb;
    stats.CombineInferenceStatsResult(next.0, next.1);
    AddedNames(hosts, next, before, stats.modelIdDb);
  }

  lemma AddedNames(hosts: seq<(HostId, HostResult)>, last: (HostId, HostResult), before: ModelDb, after: ModelDb)
    requires Inverse(before) && Inverse(after) && Inverse(last.1.models) && ListsNamesOf(before.ids, hosts)
    requires forall name :: name in after.idToIndex <==> name in last.1.models.idToIndex || name in before.idToIndex
    ensures ListsNamesOf(after.ids, hosts + [last])
  {
    assert last in hosts + [last];
    forall h | h in hosts ensures h in hosts + [last] {}
    forall name ensures name in after.ids <==> name in before.ids || name in last.1.models.ids {
      ListedIsMapped(after, name);
      ListedIsMapped(before, name);
      ListedIsMapped(last.1.models, name);
    }
  }

  // Sorting each host's requests.

  /** A library sort: it leaves some sorted arrangement of what it is given. */
  ghost predicate Sorts(sort: seq<Request> -> seq<Request>, cmp: (Timing, Timing) -> bool) {
    forall s :: multiset(sort(s)) == multiset(s) && Sorted(sort(s), ByTiming(cmp))
  }

  function SortedResult(r: HostResult, sort: seq<Request> -> seq<Request>): HostResult {
    if r.stats.None? then r
    else r.(stats := Some(HostStats(sort(r.stats.value.requests), r.stats.value.batches)))
  }

  function SortHost(sort: seq<Request> -> seq<Request>): ((HostId, HostResult)) -> (HostId, HostResult) {
    (h: (HostId, HostResult)) => (h.0, SortedResult(h.1, sort))
  }

  lemma SortedIsValid(r: HostResult, sort: seq<Request> -> seq<Request>, cmp: (Timing, Timing) -> bool)
    requires Sorts(sort, cmp)
    ensures ValidResult(SortedResult(r, sort)) <==> ValidResult(r)
  {
    if r.stats.Some? {
      var requests := r.stats.value.requests;
      forall x ensures x in sort(requests) <==> x in requests {
        assert x in multiset(sort(requests)) <==> x in multiset(requests);
      }
    }
  }

  /** How often a meaning occurs among those of a model. */
  lemma {:induction false} NamedCount(requests: seq<Request>, ids: seq<string>, patterns: seq<string>,
                                      name: Option<string>, x: Meaning)
    ensures multiset(MeaningsNamed(requests, ids, patterns, name))[x]
         == if name.None? || x.model == name then multiset(Meanings(requests, ids, patterns))[x] else 0
    decreases |requests|
  {
    if requests != [] {
      var front, last := requests[..|requests| - 1], requests[|requests| - 1];
      assert requests == front + [last];
      NamedCount(front, ids, patterns, name, x);
      MapConcat(front, [last], MeaningOf(ids, patterns));
      assert Meanings([last], ids, patterns) == [MeaningOf(ids, patterns)(last)];
    }
  }

  /** The order of a host's requests does not matter for what it contributes. */
  lemma NamedPermutation(a: seq<Request>, b: seq<Request>, ids: seq<string>, patterns: seq<string>,
                         name: Option<string>)
    requires multiset(a) == multiset(b)
    ensures multiset(MeaningsNamed(a, ids, patterns, name)) == multiset(MeaningsNamed(b, ids, patterns, name))
  {
    MapPermutation(a, b, MeaningOf(ids, patterns));
    forall x
      ensures multiset(MeaningsNamed(a, ids, patterns, name))[x] == multiset(MeaningsNamed(b, ids, patterns, name))[x]
    {
      NamedCount(a, ids, patterns, name, x);
      NamedCount(b, ids, patterns, name, x);
    }
  }

  lemma ResultsStep(hosts: seq<(HostId, HostResult)>, last: (HostId, HostResult))
    ensures ResultsOf(hosts + [last])
         == if last.1.stats.Some? then ResultsOf(hosts)[last.0 := last.1] else ResultsOf(hosts)
  {
    assert (hosts + [last])[..|hosts|] == hosts;
  }

  lemma {:induction false} ResultsOfSorted(hosts: seq<(HostId, HostResult)>, sort: seq<Request> -> seq<Request>)
    ensures ResultsOf(MapBy(hosts, SortHost(sort))).Keys == ResultsOf(hosts).Keys
    ensures forall h :: h in ResultsOf(hosts) ==>
              ResultsOf(MapBy(hosts, SortHost(sort)))[h] == SortedResult(ResultsOf(hosts)[h], sort)
    decreases |hosts|
  {
    if hosts != [] {
      var front, last := hosts[..|hosts| - 1], hosts[|hosts| - 1];
      assert hosts == front + [last];
      ResultsOfSorted(front, sort);
      MapConcat(front, [last], SortHost(sort));
      assert MapBy([last], SortHost(sort)) == [SortHost(sort)(last)];
      ResultsStep(front, last);
      ResultsStep(MapBy(front, SortHost(sort)), SortHost(sort)(last));
    }
  }

  /** So sorting each host's requests first changes no host's contribution. */
  lemma SortedContribution(hosts: seq<(HostId, HostResult)>, sort: seq<Request> -> seq<Request>,
                           cmp: (Timing, Timing) -> bool, name: Option<string>)
    requires Sorts(sort, cmp)
    ensures var sorted, results := ResultsOf(MapBy(hosts, SortHost(sort))), ResultsOf(hosts);
      UnionOver(sorted.Keys, Contribution(sorted, name)) == UnionOver(results.Keys, Contribution(results, name))
  {
    var sorted, results := ResultsOf(MapBy(hosts, SortHost(sort))), ResultsOf(hosts);
    ResultsOfSorted(hosts, sort);
    ResultsAreHosts(hosts);
    forall h | h in results.Keys ensures Contribution(sorted, name)(h) == Contribution(results, name)(h) {
      var r := results[h];
      SortedIsValid(r, sort, cmp);
      NamedPermutation(sort(r.stats.value.requests), r.stats.value.requests, r.models.ids, r.patterns, name);
    }
    UnionOverEqual(results.Keys, Contribution(sorted, name), Contribution(results, name));
  }

  lemma GroupedAsUnsorted(perModel: map<nat, seq<Request>>, ids: seq<string>, patterns: seq<string>,
                          hosts: seq<(HostId, HostResult)>, sort: seq<Request> -> seq<Request>,
                          cmp: (Timing, Timing) -> bool)
    requires Sorts(sort, cmp)
    requires IsGroupedByName(perModel, ids, patterns, ResultsOf(MapBy(hosts, SortHost(sort))), cmp)
    ensures IsGroupedByName(perModel, ids, patterns, ResultsOf(hosts), cmp)
  {
    forall m | m in perModel
      ensures multiset(Meanings(perModel[m], ids, patterns))
           == UnionOver(ResultsOf(hosts).Keys, Contribution(ResultsOf(hosts), NameOf(ids, m)))
    {
      SortedContribution(hosts, sort, cmp, NameOf(ids, m));
    }
  }

  lemma SortedNames(ids: seq<string>, hosts: seq<(HostId, HostResult)>, sort: seq<Request> -> seq<Request>)
    requires ListsNamesOf(ids, MapBy(hosts, SortHost(sort)))
    ensures ListsNamesOf(ids, hosts)
  {
    var sorted := MapBy(hosts, SortHost(sort));
    forall name ensures name in ids <==> exists h :: h in hosts && name in h.1.models.ids {
      if h :| h in sorted && name in h.1.models.ids {
        var i :| 0 <= i < |sorted| && sorted[i] == h;
        assert hosts[i] in hosts;
      }
      if h :| h in hosts && name in h.1.models.ids {
        var i :| 0 <= i < |hosts| && hosts[i] == h;
        assert sorted[i] in sorted;
      }
    }
  }

  lemma SortedAreReady(hosts: seq<(HostId, HostResult)>, sort: seq<Request> -> seq<Request>,
                       cmp: (Timing, Timing) -> bool)
    requires Sorts(sort, cmp) && DistinctHosts(hosts) && forall h :: h in hosts ==> ValidResult(h.1)
    ensures var sorted := MapBy(hosts, SortHost(sort));
      && DistinctHosts(sorted)
      && forall h :: h in sorted ==>
           ValidResult(h.1) && (h.1.stats.Some? ==> Sorted(h.1.stats.value.requests, ByTiming(cmp)))
  {
    var sorted := MapBy(hosts, SortHost(sort));
    forall h | h in sorted
      ensures ValidResult(h.1) && (h.1.stats.Some? ==> Sorted(h.1.stats.value.requests, ByTiming(cmp)))
    {
      var i :| 0 <= i < |sorted| && sorted[i] == h;
      assert hosts[i] in hosts;
      SortedIsValid(hosts[i].1, sort, cmp);
    }
  }

  /** Combines sorted hosts, then regroups their requests. */
  method CombineSorted(hosts: seq<(HostId, HostResult)>, cmp: (Timing, Timing) -> bool)
    returns (stats: InferenceStats, ghost ids: seq<string>)
    requires StrictWeakOrder(cmp) && DistinctHosts(hosts)
    requires forall h :: h in hosts ==>
               ValidResult(h.1) && (h.1.stats.Some? ==> Sorted(h.1.stats.value.requests, ByTiming(cmp)))
    ensures fresh(stats)
    ensures ResultsOf(hosts) != map[] ==>
              && ListsNamesOf(ids, hosts)
              && stats.modelIdDb.ids == (if ids == [] then ["ALL"] else ids)
              && IsGroupedByName(stats.perModel, ids, stats.tensorPatterns, ResultsOf(hosts), cmp)
  {
    stats := CombineHosts(hosts);
    ResultsAreHosts(hosts);
    forall h | h in stats.perHost ensures Sorted(stats.perHost[h].requests, ByTiming(cmp)) {
      assert (h, stats.results[h]) in hosts;
      StoredIsSorted(stats, h, cmp);
    }
    ids := stats.modelIdDb.ids;
    RegroupInferenceStatsByModel(stats, cmp);
  }

  /** The whole pipeline: each host's requests are sorted by duration, then all hosts
      are combined and their requests regrouped. */
  method CombineAndRegroup(hosts: seq<(HostId, HostResult)>, sort: seq<Request> -> seq<Request>,
                           cmp: (Timing, Timing) -> bool)
    returns (stats: InferenceStats)
    requires StrictWeakOrder(cmp) && Sorts(sort, cmp)
    requires DistinctHosts(hosts) && forall h :: h in hosts ==> ValidResult(h.1)
    ensures fresh(stats)
    ensures ResultsOf(hosts) != map[] ==> exists ids ::
              && ListsNamesOf(ids, hosts)
              && stats.modelIdDb.ids == (if ids == [] then ["ALL"] else ids)
              && IsGroupedByName(stats.perModel, ids, stats.tensorPatterns, ResultsOf(hosts), cmp)
  {
    SortedAreReady(hosts, sort, cmp);
    ResultsOfSorted(hosts, sort);
    ghost var ids;
    stats, ids := CombineSorted(MapBy(hosts, SortHost(sort)), cmp);
    if ResultsOf(hosts) != map[] {
      SortedNames(ids, hosts, sort);
      GroupedAsUnsorted(stats.perModel, ids, stats.tensorPatterns, hosts, sort, cmp);
    }
  }
}
