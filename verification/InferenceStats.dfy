/** The combined statistics of many hosts: databases grow, indices keep their meaning. */
module InferenceStatistics {
  import opened Collections
  import opened InferenceData
  import opened InferenceCombiner

  /** How indices of a source are rewritten once the databases are combined. */
  datatype Update = Update(needModel: bool, srcIds: seq<string>, idToIndex: map<string, int>,
                           needPattern: bool, srcPatterns: seq<string>, patternIndex: map<string, int>)

  function UpdateTensors(ts: seq<TensorEvent>, u: Update): (r: seq<TensorEvent>)
    requires forall t :: t in ts ==> ValidTensor(t, u.srcPatterns)
    ensures |r| == |ts|
    ensures forall k :: 0 <= k < |ts| ==> r[k] == UpdateTensorPatternIndex(ts[k], u.srcPatterns, u.patternIndex)
  {
    if ts == [] then []
    else UpdateTensors(ts[..|ts| - 1], u) + [UpdateTensorPatternIndex(ts[|ts| - 1], u.srcPatterns, u.patternIndex)]
  }

  /** The indices that are looked up in the source are valid there. */
  predicate Rewritable(r: Request, u: Update) {
    && (u.needModel ==> ValidModelIndex(r.modelIdIndex, u.srcIds))
    && (u.needPattern ==> forall t :: t in r.tensors ==> ValidTensor(t, u.srcPatterns))
  }

  function UpdateRequest(r: Request, u: Update): Request
    requires Rewritable(r, u)
  {
    if u.needModel && r.modelIdIndex != -1 && u.srcIds[r.modelIdIndex] !in u.idToIndex then r
    else
      var index := if u.needModel && r.modelIdIndex != -1 then u.idToIndex[u.srcIds[r.modelIdIndex]]
                   else r.modelIdIndex;
      r.(modelIdIndex := index, tensors := if u.needPattern then UpdateTensors(r.tensors, u) else r.tensors)
  }

  /** A batch without a tensor event gets one, with the first pattern of the source. */
  function UpdateBatch(b: Batch, u: Update): Batch
    requires u.needPattern ==> |u.srcPatterns| > 0
    requires u.needPattern && b.tensor.Some? ==> ValidTensor(b.tensor.value, u.srcPatterns)
  {
    if !u.needPattern then b
    else
      var t := if b.tensor.Some? then b.tensor.value else TensorEvent(0, 0);
      b.(tensor := Some(UpdateTensorPatternIndex(t, u.srcPatterns, u.patternIndex)))
  }

  /** The update was computed for combining `src` into databases `models` and
      `patterns`, which gave `ids` and `names`. */
  ghost predicate UpdateFor(u: Update, src: HostResult, models: ModelDb, patterns: seq<string>,
                            combined: ModelDb, names: seq<string>) {
    && Inverse(models) && Inverse(combined) && Inverse(src.models)
    && u.srcIds == src.models.ids && u.srcPatterns == src.patterns && u.idToIndex == combined.idToIndex
    && models.ids <= combined.ids && patterns <= names
    && (forall name :: name in src.models.idToIndex ==> name in combined.idToIndex)
    && (forall name :: name in src.patterns ==> name in names)
    && (u.needModel <==> NeedsModelUpdate(src.models, models)) && (models.ids == [] ==> combined == src.models)
    && (u.needPattern <==> NeedsPatternUpdate(src.patterns, patterns)) && (patterns == [] ==> names == src.patterns)
    && (u.needPattern ==> Indexes(u.patternIndex, names) && src.patterns != [])
  }

  lemma UpdatedModel(r: Request, u: Update, src: HostResult, models: ModelDb, patterns: seq<string>,
                     combined: ModelDb, names: seq<string>)
    requires UpdateFor(u, src, models, patterns, combined, names)
    requires ValidModelIndex(r.modelIdIndex, src.models.ids) && Rewritable(r, u)
    ensures ValidModelIndex(UpdateRequest(r, u).modelIdIndex, combined.ids)
    ensures ModelOf(UpdateRequest(r, u), combined.ids) == ModelOf(r, src.models.ids)
  {
    if r.modelIdIndex != -1 {
      if u.needModel {
        IndexedAreDistinct(combined.idToIndex, combined.ids);
        assert src.models.ids[r.modelIdIndex] in src.models.idToIndex;
      } else {
        KeptModel(r.modelIdIndex, src.models, models, combined);
      }
    }
  }

  /** A rewritten request says the same as before: same model, patterns and timing. */
  lemma UpdatedRequest(r: Request, u: Update, src: HostResult, models: ModelDb, patterns: seq<string>,
                       combined: ModelDb, names: seq<string>)
    requires UpdateFor(u, src, models, patterns, combined, names)
    requires ValidRequest(r, src.models.ids, src.patterns)
    ensures SameRequest(UpdateRequest(r, u), combined.ids, names, r, src.models.ids, src.patterns)
  {
    UpdatedModel(r, u, src, models, patterns, combined, names);
    var after := UpdateRequest(r, u);
    assert r.modelIdIndex != -1 ==> src.models.ids[r.modelIdIndex] in src.models.idToIndex;
    forall k | 0 <= k < |r.tensors| ensures SameTensor(after.tensors[k], names, r.tensors[k], src.patterns) {
      assert r.tensors[k] in r.tensors;
      if u.needPattern {
        UpdatedTensor(r.tensors[k], src.patterns, names, u.patternIndex);
      } else {
        KeptTensor(r.tensors[k], src.patterns, patterns, names);
      }
    }
    forall t | t in after.tensors ensures ValidTensor(t, names) {
      var k :| 0 <= k < |after.tensors| && after.tensors[k] == t;
      assert SameTensor(after.tensors[k], names, r.tensors[k], src.patterns);
    }
  }

  /** Growing the databases changes no meaning. */
  lemma GrownRequest(r: Request, ids: seq<string>, patterns: seq<string>, moreIds: seq<string>,
                     morePatterns: seq<string>, b: Request, idsB: seq<string>, patternsB: seq<string>)
    requires SameRequest(r, ids, patterns, b, idsB, patternsB) && ids <= moreIds && patterns <= morePatterns
    ensures SameRequest(r, moreIds, morePatterns, b, idsB, patternsB)
  {
    forall k | 0 <= k < |r.tensors| ensures SameTensor(r.tensors[k], morePatterns, b.tensors[k], patternsB) {
      assert SameTensor(r.tensors[k], patterns, b.tensors[k], patternsB);
    }
  }

  ghost predicate SameBatch(a: Batch, patternsA: seq<string>, b: Batch, patternsB: seq<string>) {
    && a.batchId == b.batchId && a.tensor.Some? == b.tensor.Some?
    && (a.tensor.Some? ==> SameTensor(a.tensor.value, patternsA, b.tensor.value, patternsB))
  }

  /** A batch keeps its meaning exactly when it has a tensor event, or no pattern
      index needs updating; otherwise an event is made up for it. */
  lemma BatchKeepsMeaning(b: Batch, u: Update, src: HostResult, models: ModelDb, patterns: seq<string>,
                          combined: ModelDb, names: seq<string>)
    requires UpdateFor(u, src, models, patterns, combined, names)
    requires b.tensor.Some? ==> ValidTensor(b.tensor.value, src.patterns)
    ensures SameBatch(UpdateBatch(b, u), names, b, src.patterns) <==> b.tensor.Some? || !u.needPattern
  {
    if b.tensor.Some? {
      if u.needPattern {
        UpdatedTensor(b.tensor.value, src.patterns, names, u.patternIndex);
      } else {
        KeptTensor(b.tensor.value, src.patterns, patterns, names);
      }
    }
  }

  /** A batch without a tensor event comes out with one. */
  lemma BatchEventIsMadeUp(batchId: int)
    ensures var b, u := Batch(batchId, None), Update(false, [], map[], true, ["b"], map["a" := 0, "b" := 1]);
      && UpdateFor(u, HostResult(NoModels, ["b"], None), NoModels, ["a"], NoModels, ["a", "b"])
      && UpdateBatch(b, u) == Batch(batchId, Some(TensorEvent(1, 0)))
      && !SameBatch(UpdateBatch(b, u), ["a", "b"], b, ["b"])
  {
    assert !AgreesAt(["b"], ["a"], 0);
  }

  /** What became of a batch: one with a tensor event still names the same pattern; one
      without gets an event that names the first pattern of the source, if events are
      made up, and none otherwise. */
  ghost predicate CombinedBatch(a: Batch, patternsA: seq<string>, b: Batch, patternsB: seq<string>, madeUp: bool) {
    && a.batchId == b.batchId
    && if b.tensor.Some? then a.tensor.Some? && SameTensor(a.tensor.value, patternsA, b.tensor.value, patternsB)
       else if madeUp then
         && a.tensor.Some? && patternsB != [] && ValidTensor(a.tensor.value, patternsA)
         && PatternOf(a.tensor.value, patternsA) == patternsB[0] && a.tensor.value.linearizeTime == 0
       else a.tensor.None?
  }

  ghost predicate CombinedBatches(a: seq<Batch>, patternsA: seq<string>, b: seq<Batch>, patternsB: seq<string>,
                                  madeUp: bool) {
    |a| == |b| && forall k :: 0 <= k < |a| ==> CombinedBatch(a[k], patternsA, b[k], patternsB, madeUp)
  }

  /** Combining gives a batch exactly what it should have, for every source. */
  lemma BatchIsCombined(b: Batch, u: Update, src: HostResult, models: ModelDb, patterns: seq<string>,
                        combined: ModelDb, names: seq<string>)
    requires UpdateFor(u, src, models, patterns, combined, names)
    requires b.tensor.Some? ==> ValidTensor(b.tensor.value, src.patterns)
    ensures CombinedBatch(UpdateBatch(b, u), names, b, src.patterns, NeedsPatternUpdate(src.patterns, patterns))
  {
    if u.needPattern {
      var t := if b.tensor.Some? then b.tensor.value else TensorEvent(0, 0);
      UpdatedTensor(t, src.patterns, names, u.patternIndex);
    } else if b.tensor.Some? {
      KeptTensor(b.tensor.value, src.patterns, patterns, names);
    }
  }

  lemma GrownBatch(a: Batch, patterns: seq<string>, morePatterns: seq<string>, b: Batch, own: seq<string>, madeUp: bool)
    requires CombinedBatch(a, patterns, b, own, madeUp) && patterns <= morePatterns
    ensures CombinedBatch(a, morePatterns, b, own, madeUp)
  {
  }

  /** The stored requests and batches say what the host's own result said. */
  ghost predicate IsRight(stats: HostStats, result: HostResult, ids: seq<string>, patterns: seq<string>, madeUp: bool) {
    && result.stats.Some? && ValidResult(result)
    && SameRequests(stats.requests, ids, patterns, result.stats.value.requests, result.models.ids, result.patterns)
    && CombinedBatches(stats.batches, patterns, result.stats.value.batches, result.patterns, madeUp)
  }

  class InferenceStats {
    var modelIdDb: ModelDb
    var tensorPatterns: seq<string>
    var perHost: map<HostId, HostStats>
    var perModel: map<nat, seq<Request>>
    ghost var results: map<HostId, HostResult>
    ghost var madeUp: set<HostId>

    /** Every stored request and batch still says what its host's own result said; batches
        of the hosts in `madeUp` that had no tensor event have got one. */
    ghost predicate Valid()
      reads this
    {
      && Inverse(modelIdDb) && Distinct(tensorPatterns) && perHost.Keys == results.Keys
      && forall h :: h in perHost ==>
           IsRight(perHost[h], results[h], modelIdDb.ids, tensorPatterns, h in madeUp)
    }

    constructor ()
      ensures Valid() && perHost == map[] && results == map[] && perModel == map[] && madeUp == {}
      ensures modelIdDb == NoModels && tensorPatterns == []
    {
      modelIdDb, tensorPatterns, perHost, results := NoModels, [], map[], map[];
      perModel, madeUp := map[], {};
    }

    /** Combines the databases and works out how indices must change. */
    method CombineDatabases(src: HostResult) returns (u: Update)
      requires Valid() && ValidResult(src)
      modifies this`modelIdDb, this`tensorPatterns
      ensures Valid()
      ensures UpdateFor(u, src, old(modelIdDb), old(tensorPatterns), modelIdDb, tensorPatterns)
      ensures forall name :: name in modelIdDb.idToIndex
                <==> name in src.models.idToIndex || name in old(modelIdDb).idToIndex
    {
      var models, needModel := CombineModelIdDatabases(src.models, modelIdDb);
      var index := PatternPositions(tensorPatterns);
      var names, patternIndex, needPattern := CombineTensorPatternDatabase(src.patterns, tensorPatterns, index);
      u := Update(needModel, src.models.ids, models.idToIndex, needPattern, src.patterns, patternIndex);
      StillSame(models.ids, names);
      modelIdDb, tensorPatterns := models, names;
    }

    /** Combines the result of one host into this one. A host whose number comes again
        keeps its first statistics, with their indices rewritten for the new source. */
    method CombineInferenceStatsResult(srcHostId: HostId, src: HostResult)
      requires Valid() && ValidResult(src)
      requires srcHostId in perHost && src.stats.Some? ==>
                 CanRewrite(perHost[srcHostId], src, modelIdDb, tensorPatterns)
      modifies this`modelIdDb, this`tensorPatterns, this`perHost, this`results, this`madeUp
      ensures src.stats.None? ==>
                Valid() && perHost == old(perHost) && results == old(results) && madeUp == old(madeUp)
      ensures src.stats.Some? && srcHostId !in old(perHost) ==> Valid() && results == old(results)[srcHostId := src]
      ensures src.stats.Some? && srcHostId !in old(perHost) ==>
                madeUp - {srcHostId} == old(madeUp) - {srcHostId}
                && (srcHostId in madeUp <==> NeedsPatternUpdate(src.patterns, old(tensorPatterns)))
      ensures src.stats.Some? && srcHostId in old(perHost) ==> results == old(results) && madeUp == old(madeUp)
      ensures src.stats.Some? && srcHostId in old(perHost) ==>
                (Valid() <==> AllAgree(old(perHost)[srcHostId], src, old(modelIdDb), old(tensorPatterns)))
      ensures src.stats.Some? ==> perHost.Keys == old(perHost).Keys + {srcHostId}
      ensures forall h :: h in old(perHost) && h != srcHostId ==> perHost[h] == old(perHost)[h]
      ensures old(modelIdDb).ids <= modelIdDb.ids && old(tensorPatterns) <= tensorPatterns
      ensures forall name :: name in modelIdDb.idToIndex
                <==> name in src.models.idToIndex || name in old(modelIdDb).idToIndex
      ensures src.stats.Some? && srcHostId in old(perHost) ==>
                Rewritten(old(perHost)[srcHostId].requests, perHost[srcHostId].requests, src,
                          old(modelIdDb), old(tensorPatterns), modelIdDb, tensorPatterns)
      ensures src.stats.Some? && srcHostId in old(perHost) ==>
                if NeedsPatternUpdate(src.patterns, old(tensorPatterns)) then
                  CombinedBatches(perHost[srcHostId].batches, tensorPatterns, old(perHost)[srcHostId].batches,
                                  src.patterns, true)
                else perHost[srcHostId].batches == old(perHost)[srcHostId].batches
    {
      ghost var models, patterns := modelIdDb, tensorPatterns;
      var u := CombineDatabases(src);
      if src.stats.None? { return; }
      if srcHostId in perHost {
        RewriteHost(srcHostId, src, u, models, patterns);
      } else {
        AddHost(srcHostId, src, u, models, patterns);
      }
    }

    /** The second part for a host whose number is new. */
    method AddHost(srcHostId: HostId, src: HostResult, u: Update, ghost models: ModelDb, ghost patterns: seq<string>)
      requires Valid() && ValidResult(src) && src.stats.Some? && srcHostId !in perHost
      requires UpdateFor(u, src, models, patterns, modelIdDb, tensorPatterns)
      modifies this`perHost, this`results, this`madeUp
      ensures Valid() && results == old(results)[srcHostId := src]
      ensures madeUp - {srcHostId} == old(madeUp) - {srcHostId}
      ensures srcHostId in madeUp <==> NeedsPatternUpdate(src.patterns, patterns)
      ensures perHost.Keys == old(perHost).Keys + {srcHostId}
      ensures forall h :: h in old(perHost) ==> perHost[h] == old(perHost)[h]
    {
      var stats := RewriteStats(src.stats.value, u);
      UpdatedStats(stats, u, src, models, patterns, modelIdDb, tensorPatterns);
      results := results[srcHostId := src];
      perHost := perHost[srcHostId := stats];
      madeUp := if NeedsPatternUpdate(src.patterns, patterns) then madeUp + {srcHostId} else madeUp - {srcHostId};
    }

    /** The second part for a host whose number has come before. */
    method RewriteHost(srcHostId: HostId, src: HostResult, u: Update, ghost models: ModelDb,
                       ghost patterns: seq<string>)
      requires Valid() && srcHostId in perHost
      requires UpdateFor(u, src, models, patterns, modelIdDb, tensorPatterns)
      requires CanRewrite(perHost[srcHostId], src, models, patterns)
      requires IsRight(perHost[srcHostId], results[srcHostId], models.ids, patterns, srcHostId in madeUp)
      modifies this`perHost
      ensures Valid() <==> AllAgree(old(perHost)[srcHostId], src, models, patterns)
      ensures perHost.Keys == old(perHost).Keys
      ensures forall h :: h in old(perHost) && h != srcHostId ==> perHost[h] == old(perHost)[h]
      ensures AreUpdated(old(perHost)[srcHostId].requests, perHost[srcHostId].requests, u)
      ensures if NeedsPatternUpdate(src.patterns, patterns) then
                CombinedBatches(perHost[srcHostId].batches, tensorPatterns, old(perHost)[srcHostId].batches,
                                src.patterns, true)
              else perHost[srcHostId].batches == old(perHost)[srcHostId].batches
    {
      var before := perHost[srcHostId];
      var stats := RewriteStats(before, u);
      RewrittenIsRight(before, stats, u, src, models, patterns, modelIdDb, tensorPatterns, results[srcHostId],
                       srcHostId in madeUp);
      perHost := perHost[srcHostId := stats];
    }

    lemma StillSame(moreIds: seq<string>, morePatterns: seq<string>)
      requires Valid() && modelIdDb.ids <= moreIds && tensorPatterns <= morePatterns
      ensures forall h :: h in perHost ==> IsRight(perHost[h], results[h], moreIds, morePatterns, h in madeUp)
    {
      forall h | h in perHost ensures IsRight(perHost[h], results[h], moreIds, morePatterns, h in madeUp) {
        GrownIsRight(perHost[h], results[h], modelIdDb.ids, tensorPatterns, moreIds, morePatterns, h in madeUp);
      }
    }
  }

  lemma GrownIsRight(stats: HostStats, result: HostResult, ids: seq<string>, patterns: seq<string>,
                     moreIds: seq<string>, morePatterns: seq<string>, madeUp: bool)
    requires IsRight(stats, result, ids, patterns, madeUp) && ids <= moreIds && patterns <= morePatterns
    ensures IsRight(stats, result, moreIds, morePatterns, madeUp)
  {
    var own := result.stats.value;
    forall k | 0 <= k < |stats.requests|
      ensures SameRequest(stats.requests[k], moreIds, morePatterns, own.requests[k], result.models.ids, result.patterns)
    {
      GrownRequest(stats.requests[k], ids, patterns, moreIds, morePatterns, own.requests[k], result.models.ids,
                   result.patterns);
    }
    forall k | 0 <= k < |stats.batches|
      ensures CombinedBatch(stats.batches[k], morePatterns, own.batches[k], result.patterns, madeUp)
    {
      GrownBatch(stats.batches[k], patterns, morePatterns, own.batches[k], result.patterns, madeUp);
    }
  }

  method PatternPositions(patterns: seq<string>) returns (index: map<string, int>)
    requires Distinct(patterns)
    ensures Indexes(index, patterns)
  {
    index := map[];
    for i := 0 to |patterns|
      invariant Indexes(index, patterns[..i])
    {
      assert patterns[..i + 1] == patterns[..i] + [patterns[i]];
      IndexAppend(index, patterns[..i], patterns[i]);
      index := index[patterns[i] := i];
    }
    assert patterns[..|patterns|] == patterns;
  }

  /** The requests were rewritten for some update from `src`. */
  ghost predicate Rewritten(before: seq<Request>, after: seq<Request>, src: HostResult, models: ModelDb,
                            patterns: seq<string>, combined: ModelDb, names: seq<string>) {
    exists u :: UpdateFor(u, src, models, patterns, combined, names) && AreUpdated(before, after, u)
  }

  ghost predicate AreUpdated(before: seq<Request>, after: seq<Request>, u: Update) {
    && |after| == |before|
    && forall k :: 0 <= k < |before| ==> Rewritable(before[k], u) && after[k] == UpdateRequest(before[k], u)
  }

  /** The requests of a new host say what its result says. */
  lemma UpdatedRequests(before: seq<Request>, after: seq<Request>, u: Update, src: HostResult, models: ModelDb,
                        patterns: seq<string>, combined: ModelDb, names: seq<string>)
    requires UpdateFor(u, src, models, patterns, combined, names) && AreUpdated(before, after, u)
    requires forall r :: r in before ==> ValidRequest(r, src.models.ids, src.patterns)
    ensures SameRequests(after, combined.ids, names, before, src.models.ids, src.patterns)
  {
    forall k | 0 <= k < |after|
      ensures SameRequest(after[k], combined.ids, names, before[k], src.models.ids, src.patterns)
    {
      assert before[k] in before;
      UpdatedRequest(before[k], u, src, models, patterns, combined, names);
    }
  }

  ghost predicate BatchesAreUpdated(before: seq<Batch>, after: seq<Batch>, u: Update) {
    && (u.needPattern ==> |u.srcPatterns| > 0) && |after| == |before|
    && forall k :: 0 <= k < |before| ==>
         (u.needPattern && before[k].tensor.Some? ==> ValidTensor(before[k].tensor.value, u.srcPatterns))
         && after[k] == UpdateBatch(before[k], u)
  }

  /** The statistics of a new host say what its result says. */
  lemma UpdatedStats(stats: HostStats, u: Update, src: HostResult, models: ModelDb, patterns: seq<string>,
                     combined: ModelDb, names: seq<string>)
    requires UpdateFor(u, src, models, patterns, combined, names) && ValidResult(src) && src.stats.Some?
    requires AreUpdated(src.stats.value.requests, stats.requests, u)
    requires BatchesAreUpdated(src.stats.value.batches, stats.batches, u)
    ensures IsRight(stats, src, combined.ids, names, NeedsPatternUpdate(src.patterns, patterns))
  {
    var own := src.stats.value;
    UpdatedRequests(own.requests, stats.requests, u, src, models, patterns, combined, names);
    forall k | 0 <= k < |own.batches|
      ensures CombinedBatch(stats.batches[k], names, own.batches[k], src.patterns,
                            NeedsPatternUpdate(src.patterns, patterns))
    {
      assert own.batches[k] in own.batches;
      BatchIsCombined(own.batches[k], u, src, models, patterns, combined, names);
    }
  }

  /** Rewrites the indices of a host's requests and batches, as far as needed. */
  method RewriteStats(stats: HostStats, u: Update) returns (updated: HostStats)
    requires u.needPattern ==> |u.srcPatterns| > 0
    requires forall r :: r in stats.requests ==> Rewritable(r, u)
    requires u.needPattern ==>
               forall b :: b in stats.batches && b.tensor.Some? ==> ValidTensor(b.tensor.value, u.srcPatterns)
    ensures AreUpdated(stats.requests, updated.requests, u)
    ensures BatchesAreUpdated(stats.batches, updated.batches, u)
  {
    updated := stats;
    forall k | 0 <= k < |stats.requests| ensures Rewritable(stats.requests[k], u) {
      assert stats.requests[k] in stats.requests;
    }
    if u.needModel || u.needPattern {
      var requests := RewriteRequests(stats.requests, u);
      updated := updated.(requests := requests);
    }
    if u.needPattern {
      var batches := RewriteBatches(stats.batches, u);
      updated := updated.(batches := batches);
    }
  }

  method RewriteRequests(requests: seq<Request>, u: Update) returns (updated: seq<Request>)
    requires forall r :: r in requests ==> Rewritable(r, u)
    ensures AreUpdated(requests, updated, u)
  {
    updated := [];
    for i := 0 to |requests|
      invariant |updated| == i
      invariant forall k :: 0 <= k < i ==> Rewritable(requests[k], u) && updated[k] == UpdateRequest(requests[k], u)
    {
      assert requests[i] in requests;
      var request := RewriteRequest(requests[i], u);
      updated := updated + [request];
    }
  }

  /** Rewrites the indices of one request; an unknown model leaves it untouched. */
  method RewriteRequest(request: Request, u: Update) returns (updated: Request)
    requires Rewritable(request, u)
    ensures updated == UpdateRequest(request, u)
  {
    updated := request;
    if u.needModel && request.modelIdIndex != -1 {
      var modelId := u.srcIds[request.modelIdIndex];
      if modelId !in u.idToIndex { return; }
      updated := updated.(modelIdIndex := u.idToIndex[modelId]);
    }
    if u.needPattern {
      var tensors: seq<TensorEvent> := [];
      for k := 0 to |request.tensors|
        invariant |tensors| == k
        invariant tensors == UpdateTensors(request.tensors, u)[..k]
      {
        assert request.tensors[k] in request.tensors;
        tensors := tensors + [UpdateTensorPatternIndex(request.tensors[k], u.srcPatterns, u.patternIndex)];
      }
      updated := updated.(tensors := tensors);
    }
  }

  method RewriteBatches(batches: seq<Batch>, u: Update) returns (updated: seq<Batch>)
    requires u.needPattern && |u.srcPatterns| > 0
    requires forall b :: b in batches && b.tensor.Some? ==> ValidTensor(b.tensor.value, u.srcPatterns)
    ensures |updated| == |batches|
    ensures forall k :: 0 <= k < |batches| ==> updated[k] == UpdateBatch(batches[k], u)
  {
    updated := [];
    for i := 0 to |batches|
      invariant |updated| == i
      invariant forall k :: 0 <= k < i ==> updated[k] == UpdateBatch(batches[k], u)
    {
      updated := updated + [UpdateBatch(batches[i], u)];
    }
  }

  /** Combining a second result under a known host number rewrites the requests that
      are already there: one keeps its model exactly when model indices need no update
      or its own index names the same model in the new source as it did before. */
  lemma DuplicateHostKeepsModel(r: Request, u: Update, src: HostResult, models: ModelDb, patterns: seq<string>,
                                combined: ModelDb, names: seq<string>)
    requires UpdateFor(u, src, models, patterns, combined, names)
    requires ValidModelIndex(r.modelIdIndex, models.ids) && Rewritable(r, u)
    ensures ValidModelIndex(UpdateRequest(r, u).modelIdIndex, combined.ids)
    ensures ModelOf(UpdateRequest(r, u), combined.ids) == ModelOf(r, models.ids)
       <==> !NeedsModelUpdate(src.models, models) || r.modelIdIndex == -1
            || src.models.ids[r.modelIdIndex] == models.ids[r.modelIdIndex]
  {
    if u.needModel { UpdatedModel(r, u, src, models, patterns, combined, names); }
  }

  /** Likewise a tensor event that is already there keeps its pattern exactly when pattern
      indices need no update or its own names the same pattern in the new source. */
  lemma DuplicateHostKeepsPattern(t: TensorEvent, u: Update, src: HostResult, models: ModelDb, patterns: seq<string>,
                                  combined: ModelDb, names: seq<string>)
    requires UpdateFor(u, src, models, patterns, combined, names)
    requires ValidTensor(t, patterns) && (u.needPattern ==> ValidTensor(t, src.patterns))
    ensures SameTensor(RewrittenTensor(t, u), names, t, patterns)
       <==> !NeedsPatternUpdate(src.patterns, patterns) || src.patterns[t.patternIndex] == patterns[t.patternIndex]
  {
    if u.needPattern { UpdatedTensor(t, src.patterns, names, u.patternIndex); }
  }

  function RewrittenTensor(t: TensorEvent, u: Update): TensorEvent
    requires u.needPattern ==> ValidTensor(t, u.srcPatterns)
  {
    if u.needPattern then UpdateTensorPatternIndex(t, u.srcPatterns, u.patternIndex) else t
  }

  /** Where an update is needed, the new source and the databases so far agree on every
      index of the request. */
  ghost predicate AgreesOn(r: Request, src: HostResult, models: ModelDb, patterns: seq<string>)
    requires ValidRequest(r, models.ids, patterns)
  {
    && (NeedsModelUpdate(src.models, models) && r.modelIdIndex != -1 ==>
          r.modelIdIndex < |src.models.ids| && src.models.ids[r.modelIdIndex] == models.ids[r.modelIdIndex])
    && (NeedsPatternUpdate(src.patterns, patterns) ==>
          forall t :: t in r.tensors ==>
            ValidTensor(t, src.patterns) && PatternOf(t, src.patterns) == PatternOf(t, patterns))
  }

  /** So a request that is already there means the same afterwards exactly when the new
      source and the databases so far agree on all indices that are rewritten. */
  lemma DuplicateHostKeepsRequest(r: Request, u: Update, src: HostResult, models: ModelDb, patterns: seq<string>,
                                  combined: ModelDb, names: seq<string>)
    requires UpdateFor(u, src, models, patterns, combined, names)
    requires ValidRequest(r, models.ids, patterns) && Rewritable(r, u)
    ensures SameRequest(UpdateRequest(r, u), combined.ids, names, r, models.ids, patterns)
       <==> AgreesOn(r, src, models, patterns)
  {
    DuplicateHostKeepsModel(r, u, src, models, patterns, combined, names);
    var after := UpdateRequest(r, u);
    forall k | 0 <= k < |r.tensors|
      ensures ValidTensor(after.tensors[k], names)
      ensures SameTensor(after.tensors[k], names, r.tensors[k], patterns)
         <==> !u.needPattern || PatternOf(r.tensors[k], src.patterns) == PatternOf(r.tensors[k], patterns)
    {
      assert r.tensors[k] in r.tensors;
      if u.needPattern { UpdatedTensor(r.tensors[k], src.patterns, names, u.patternIndex); }
      DuplicateHostKeepsPattern(r.tensors[k], u, src, models, patterns, combined, names);
    }
    forall t | t in after.tensors ensures ValidTensor(t, names) {
      var k :| 0 <= k < |after.tensors| && after.tensors[k] == t;
    }
    if SameRequest(after, combined.ids, names, r, models.ids, patterns) && u.needPattern {
      forall t | t in r.tensors ensures PatternOf(t, src.patterns) == PatternOf(t, patterns) {
        var k :| 0 <= k < |r.tensors| && r.tensors[k] == t;
        assert SameTensor(after.tensors[k], names, r.tensors[k], patterns);
      }
    }
  }

  /** Two requests that say the same agree with a third one alike. */
  lemma SameAsOwn(a: Request, idsA: seq<string>, patternsA: seq<string>,
                  b: Request, idsB: seq<string>, patternsB: seq<string>,
                  own: Request, ownIds: seq<string>, ownPatterns: seq<string>)
    requires SameRequest(b, idsB, patternsB, own, ownIds, ownPatterns)
    ensures SameRequest(a, idsA, patternsA, own, ownIds, ownPatterns)
       <==> SameRequest(a, idsA, patternsA, b, idsB, patternsB)
  {
    forall k | 0 <= k < |a.tensors| && |a.tensors| == |b.tensors|
      ensures SameTensor(a.tensors[k], patternsA, own.tensors[k], ownPatterns)
         <==> SameTensor(a.tensors[k], patternsA, b.tensors[k], patternsB)
    {
      assert SameTensor(b.tensors[k], patternsB, own.tensors[k], ownPatterns);
    }
  }

  /** The stored requests of a host whose number comes again still say what its first
      result said exactly when the new source agrees on all indices that are rewritten. */
  lemma DuplicateHostKeepsRequests(before: seq<Request>, after: seq<Request>, u: Update, src: HostResult,
                                   models: ModelDb, patterns: seq<string>, combined: ModelDb, names: seq<string>,
                                   own: seq<Request>, ownIds: seq<string>, ownPatterns: seq<string>)
    requires UpdateFor(u, src, models, patterns, combined, names) && AreUpdated(before, after, u)
    requires SameRequests(before, models.ids, patterns, own, ownIds, ownPatterns)
    ensures SameRequests(after, combined.ids, names, own, ownIds, ownPatterns)
       <==> RequestsAgree(before, src, models, patterns)
  {
    forall k | 0 <= k < |before|
      ensures ValidRequest(before[k], models.ids, patterns)
      ensures SameRequest(after[k], combined.ids, names, own[k], ownIds, ownPatterns)
         <==> AgreesOn(before[k], src, models, patterns)
    {
      assert SameRequest(before[k], models.ids, patterns, own[k], ownIds, ownPatterns);
      DuplicateHostKeepsRequest(before[k], u, src, models, patterns, combined, names);
      SameAsOwn(after[k], combined.ids, names, before[k], models.ids, patterns, own[k], ownIds, ownPatterns);
    }
  }

  /** A batch keeps what it says when its pattern index needs no update, or it has a
      tensor event whose index names the same pattern in the new source. */
  ghost predicate BatchAgrees(b: Batch, src: HostResult, patterns: seq<string>) {
    NeedsPatternUpdate(src.patterns, patterns) ==>
      && b.tensor.Some? && ValidTensor(b.tensor.value, src.patterns) && ValidTensor(b.tensor.value, patterns)
      && PatternOf(b.tensor.value, src.patterns) == PatternOf(b.tensor.value, patterns)
  }

  ghost predicate RequestsAgree(requests: seq<Request>, src: HostResult, models: ModelDb, patterns: seq<string>) {
    forall k :: 0 <= k < |requests| ==>
      ValidRequest(requests[k], models.ids, patterns) && AgreesOn(requests[k], src, models, patterns)
  }

  ghost predicate AllAgree(stats: HostStats, src: HostResult, models: ModelDb, patterns: seq<string>) {
    && RequestsAgree(stats.requests, src, models, patterns)
    && forall k :: 0 <= k < |stats.batches| ==> BatchAgrees(stats.batches[k], src, patterns)
  }

  /** What rewriting does to a stored batch of a host whose number comes again. */
  lemma DuplicateHostRewritesBatch(b: Batch, u: Update, src: HostResult, models: ModelDb, patterns: seq<string>,
                                   combined: ModelDb, names: seq<string>)
    requires UpdateFor(u, src, models, patterns, combined, names)
    requires u.needPattern && b.tensor.Some? ==> ValidTensor(b.tensor.value, src.patterns)
    ensures if NeedsPatternUpdate(src.patterns, patterns) then
              CombinedBatch(UpdateBatch(b, u), names, b, src.patterns, true)
            else UpdateBatch(b, u) == b
  {
    if u.needPattern { BatchIsCombined(b, u, src, models, patterns, combined, names); }
  }

  lemma DuplicateHostKeepsBatch(b: Batch, u: Update, src: HostResult, models: ModelDb, patterns: seq<string>,
                                combined: ModelDb, names: seq<string>, own: Batch, ownPatterns: seq<string>,
                                madeUp: bool)
    requires UpdateFor(u, src, models, patterns, combined, names)
    requires u.needPattern && b.tensor.Some? ==> ValidTensor(b.tensor.value, src.patterns)
    requires CombinedBatch(b, patterns, own, ownPatterns, madeUp)
    ensures CombinedBatch(UpdateBatch(b, u), names, own, ownPatterns, madeUp) <==> BatchAgrees(b, src, patterns)
  {
    DuplicateHostRewritesBatch(b, u, src, models, patterns, combined, names);
  }

  /** All that is stored for a host whose number comes again. */
  lemma RewrittenIsRight(before: HostStats, after: HostStats, u: Update, src: HostResult, models: ModelDb,
                         patterns: seq<string>, combined: ModelDb, names: seq<string>, result: HostResult, madeUp: bool)
    requires UpdateFor(u, src, models, patterns, combined, names) && CanRewrite(before, src, models, patterns)
    requires AreUpdated(before.requests, after.requests, u) && BatchesAreUpdated(before.batches, after.batches, u)
    requires IsRight(before, result, models.ids, patterns, madeUp)
    ensures IsRight(after, result, combined.ids, names, madeUp) <==> AllAgree(before, src, models, patterns)
    ensures if NeedsPatternUpdate(src.patterns, patterns) then
              CombinedBatches(after.batches, names, before.batches, src.patterns, true)
            else after.batches == before.batches
  {
    var own := result.stats.value;
    DuplicateHostKeepsRequests(before.requests, after.requests, u, src, models, patterns, combined, names,
                               own.requests, result.models.ids, result.patterns);
    forall k | 0 <= k < |before.batches|
      ensures CombinedBatch(after.batches[k], names, own.batches[k], result.patterns, madeUp)
         <==> BatchAgrees(before.batches[k], src, patterns)
      ensures if u.needPattern then CombinedBatch(after.batches[k], names, before.batches[k], src.patterns, true)
              else after.batches[k] == before.batches[k]
    {
      DuplicateHostRewritesBatch(before.batches[k], u, src, models, patterns, combined, names);
      DuplicateHostKeepsBatch(before.batches[k], u, src, models, patterns, combined, names, own.batches[k],
                              result.patterns, madeUp);
    }
  }

  /** The indices that will be looked up in the new source are valid there. */
  ghost predicate CanRewrite(stats: HostStats, src: HostResult, models: ModelDb, patterns: seq<string>) {
    && (NeedsModelUpdate(src.models, models) ==>
          forall r :: r in stats.requests ==> ValidModelIndex(r.modelIdIndex, src.models.ids))
    && (NeedsPatternUpdate(src.patterns, patterns) ==>
          && (forall r, t :: r in stats.requests && t in r.tensors ==> ValidTensor(t, src.patterns))
          && (forall b :: b in stats.batches && b.tensor.Some? ==> ValidTensor(b.tensor.value, src.patterns)))
  }

  /** A request of model x that comes to belong to model y, and a pattern likewise. */
  lemma DuplicateHostCanMisplace(timing: Timing)
    ensures var models, srcModels := ModelDb(["x"], map["x" := 0]), ModelDb(["y", "x"], map["y" := 0, "x" := 1]);
      var combined := ModelDb(["x", "y"], map["x" := 0, "y" := 1]);
      var u := Update(true, ["y", "x"], combined.idToIndex, true, ["b", "a"], map["a" := 0, "b" := 1]);
      var r := Request(0, [TensorEvent(0, 0)], timing);
      && UpdateFor(u, HostResult(srcModels, ["b", "a"], None), models, ["a"], combined, ["a", "b"])
      && ModelOf(r, models.ids) == Some("x") && ModelOf(UpdateRequest(r, u), combined.ids) == Some("y")
      && PatternOf(r.tensors[0], ["a"]) == "a" && PatternOf(UpdateRequest(r, u).tensors[0], ["a", "b"]) == "b"
  {
    assert !AgreesAt(["b", "a"], ["a"], 0);
  }
}
