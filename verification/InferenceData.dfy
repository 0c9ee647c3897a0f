/** Requests of inference servers, and the databases their indices point into. */
module InferenceData {
  import opened Collections

  /** Model names with their indices: a list, and a map back into it. */
  datatype ModelDb = ModelDb(ids: seq<string>, idToIndex: map<string, int>)

  const NoModels := ModelDb([], map[])

  ghost predicate Distinct(s: seq<string>) {
    forall i, j :: 0 <= i < j < |s| ==> s[i] != s[j]
  }

  /** The map gives each listed name its position, and no other name any. */
  ghost predicate Indexes(index: map<string, int>, names: seq<string>) {
    && (forall i :: 0 <= i < |names| ==> names[i] in index && index[names[i]] == i)
    && (forall name :: name in index ==> name in names)
  }

  /** List and map are mutually inverse. */
  ghost predicate Inverse(db: ModelDb) {
    Indexes(db.idToIndex, db.ids)
  }

  lemma IndexedAreDistinct(index: map<string, int>, names: seq<string>)
    requires Indexes(index, names)
    ensures Distinct(names)
    ensures forall name :: name in index ==> 0 <= index[name] < |names| && names[index[name]] == name
    ensures |index| == |names|
  {
    IndexSize(index, names);
  }

  /** A database lists a name exactly when it maps it. */
  lemma ListedIsMapped(db: ModelDb, name: string)
    requires Inverse(db)
    ensures name in db.ids <==> name in db.idToIndex
  {
  }

  lemma {:induction false} IndexSize(index: map<string, int>, names: seq<string>)
    requires Indexes(index, names)
    ensures |index| == |names|
    decreases |names|
  {
    if names == [] {
      assert index == map[];
    } else {
      var n := |names| - 1;
      var smaller := index - {names[n]};
      assert names == names[..n] + [names[n]];
      IndexSize(smaller, names[..n]);
      assert index == smaller[names[n] := n];
    }
  }

  lemma IndexAppend(index: map<string, int>, names: seq<string>, name: string)
    requires Indexes(index, names) && name !in index
    ensures Indexes(index[name := |names|], names + [name])
  {
  }

  /** Interns a model name; an empty name has no index. */
  method AssignIndexToModelId(modelId: string, db: ModelDb) returns (index: int, after: ModelDb)
    requires Inverse(db)
    ensures Inverse(after) && db.ids <= after.ids
    ensures ValidModelIndex(index, after.ids)
    ensures modelId == "" ==> index == -1 && after == db
    ensures modelId != "" ==> 0 <= index < |after.ids| && after.ids[index] == modelId
    ensures modelId in db.idToIndex ==> after == db
  {
    after := db;
    if modelId == "" { return -1, db; }
    IndexedAreDistinct(db.idToIndex, db.ids);
    if modelId !in db.idToIndex {
      IndexAppend(db.idToIndex, db.ids, modelId);
      after := ModelDb(db.ids + [modelId], db.idToIndex[modelId := |db.ids|]);
    }
    index := after.idToIndex[modelId];
  }

  /** The tensor patterns met so far, numbered in the order they were met. */
  class PatternInterner {
    var tensorPatterns: map<string, int>
    ghost var names: seq<string>

    ghost predicate Valid()
      reads this
    {
      Indexes(tensorPatterns, names)
    }

    constructor ()
      ensures Valid() && names == []
    {
      tensorPatterns, names := map[], [];
    }

    method GetTensorPatternIndex(pattern: string) returns (index: int)
      requires Valid()
      modifies this
      ensures Valid() && old(names) <= names
      ensures 0 <= index < |names| && names[index] == pattern
      ensures pattern in old(tensorPatterns) ==> names == old(names)
    {
      IndexedAreDistinct(tensorPatterns, names);
      if pattern in tensorPatterns {
        return tensorPatterns[pattern];
      }
      index := |tensorPatterns|;
      IndexAppend(tensorPatterns, names, pattern);
      tensorPatterns := tensorPatterns[pattern := index];
      names := names + [pattern];
    }

    /** Writes the patterns out by number: every index handed out finds its pattern. */
    method GenerateDatabase() returns (database: seq<string>)
      requires Valid()
      ensures database == names && Distinct(database)
    {
      IndexedAreDistinct(tensorPatterns, names);
      var reversed: map<int, string> := map[];
      var left := tensorPatterns.Keys;
      while left != {}
        invariant left <= tensorPatterns.Keys
        invariant forall p :: p in tensorPatterns && p !in left
                    ==> tensorPatterns[p] in reversed && reversed[tensorPatterns[p]] == p
        decreases left
      {
        var pattern :| pattern in left;
        reversed := reversed[tensorPatterns[pattern] := pattern];
        left := left - {pattern};
      }
      database := [];
      for i := 0 to |tensorPatterns|
        invariant database == names[..i]
      {
        assert names[i] in tensorPatterns && tensorPatterns[names[i]] == i;
        database := database + [reversed[i]];
      }
    }
  }

  /** What the profiler knows of a request apart from its indices. */
  datatype Timing = Timing(requestId: int, start: nat, end: nat)

  datatype TensorEvent = TensorEvent(patternIndex: int, linearizeTime: nat)

  datatype Request = Request(modelIdIndex: int, tensors: seq<TensorEvent>, timing: Timing)

  datatype Batch = Batch(batchId: int, tensor: Option<TensorEvent>)

  datatype HostStats = HostStats(requests: seq<Request>, batches: seq<Batch>)

  /** Hosts are numbered by 32-bit integers. */
  type HostId = h: int | -0x8000_0000 <= h < 0x8000_0000

  /** The result of one host: its own databases, and statistics if it sent any. */
  datatype HostResult = HostResult(models: ModelDb, patterns: seq<string>, stats: Option<HostStats>)

  predicate ValidTensor(t: TensorEvent, patterns: seq<string>) {
    0 <= t.patternIndex < |patterns|
  }

  predicate ValidModelIndex(index: int, ids: seq<string>) {
    index == -1 || 0 <= index < |ids|
  }

  ghost predicate ValidRequest(r: Request, ids: seq<string>, patterns: seq<string>) {
    ValidModelIndex(r.modelIdIndex, ids) && forall t :: t in r.tensors ==> ValidTensor(t, patterns)
  }

  ghost predicate ValidStats(stats: HostStats, ids: seq<string>, patterns: seq<string>) {
    && (forall r :: r in stats.requests ==> ValidRequest(r, ids, patterns))
    && (forall b :: b in stats.batches && b.tensor.Some? ==> ValidTensor(b.tensor.value, patterns))
  }

  /** What the checks and loops of a host's own profile guarantee. */
  ghost predicate ValidResult(r: HostResult) {
    && Inverse(r.models) && Distinct(r.patterns)
    && (r.stats.Some? ==> ValidStats(r.stats.value, r.models.ids, r.patterns))
  }

  /** The name of a request's model, if it has one. */
  function ModelOf(r: Request, ids: seq<string>): Option<string>
    requires ValidModelIndex(r.modelIdIndex, ids)
  {
    if r.modelIdIndex == -1 then None else Some(ids[r.modelIdIndex])
  }

  function PatternOf(t: TensorEvent, patterns: seq<string>): string
    requires ValidTensor(t, patterns)
  {
    patterns[t.patternIndex]
  }

  /** Two requests, each with its own databases, say the same. */
  ghost predicate SameRequest(a: Request, idsA: seq<string>, patternsA: seq<string>,
                              b: Request, idsB: seq<string>, patternsB: seq<string>) {
    && ValidRequest(a, idsA, patternsA) && ValidRequest(b, idsB, patternsB)
    && ModelOf(a, idsA) == ModelOf(b, idsB)
    && |a.tensors| == |b.tensors|
    && (forall k :: 0 <= k < |a.tensors| ==> SameTensor(a.tensors[k], patternsA, b.tensors[k], patternsB))
    && a.timing == b.timing
  }

  ghost predicate SameTensor(a: TensorEvent, patternsA: seq<string>, b: TensorEvent, patternsB: seq<string>) {
    && ValidTensor(a, patternsA) && ValidTensor(b, patternsB)
    && PatternOf(a, patternsA) == PatternOf(b, patternsB) && a.linearizeTime == b.linearizeTime
  }

  ghost predicate SameRequests(a: seq<Request>, idsA: seq<string>, patternsA: seq<string>,
                               b: seq<Request>, idsB: seq<string>, patternsB: seq<string>) {
    && |a| == |b|
    && (forall k :: 0 <= k < |a| ==> SameRequest(a[k], idsA, patternsA, b[k], idsB, patternsB))
  }
}
