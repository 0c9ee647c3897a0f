/** Combining the inference results of many hosts into one. */
module InferenceCombiner {
  import opened InferenceData

  /** Some name of `src` is missing from `dst` or has another index there. */
  ghost predicate Differs(src: map<string, int>, dst: map<string, int>) {
    exists name :: name in src && (name !in dst || dst[name] != src[name])
  }

  /** Indices into `src` must be rewritten once it is added to `dst`. */
  ghost predicate NeedsModelUpdate(src: ModelDb, dst: ModelDb) {
    dst.ids != [] && Differs(src.idToIndex, dst.idToIndex)
  }

  /** Adds one name, unless it is there already. */
  method InsertName(name: string, names: seq<string>, index: map<string, int>)
    returns (newNames: seq<string>, newIndex: map<string, int>)
    requires Indexes(index, names)
    ensures Indexes(newIndex, newNames) && names <= newNames
    ensures forall x :: x in newNames <==> x in names || x == name
    ensures name in index ==> newNames == names
    ensures forall x :: x in index ==> x in newIndex && newIndex[x] == index[x]
    ensures forall x :: x in newIndex <==> x in index || x == name
  {
    newNames, newIndex := names, index;
    if name !in index {
      IndexedAreDistinct(index, names);
      IndexAppend(index, names, name);
      newNames, newIndex := names + [name], index[name := |index|];
    }
  }

  lemma DiffersStep(seen: map<string, int>, dst: map<string, int>, id: string, index: int)
    requires id !in seen
    ensures Differs(seen[id := index], dst) <==> Differs(seen, dst) || id !in dst || dst[id] != index
  {
    if id !in dst || dst[id] != index {
      assert id in seen[id := index];
    }
    if Differs(seen, dst) {
      var name :| name in seen && (name !in dst || dst[name] != seen[name]);
      assert name in seen[id := index];
    }
  }

  /** Adds the models of `src` to `dst`; says whether indices of `src` must change. */
  method CombineModelIdDatabases(src: ModelDb, dst: ModelDb) returns (combined: ModelDb, needUpdate: bool)
    requires Inverse(src) && Inverse(dst)
    ensures Inverse(combined) && dst.ids <= combined.ids
    ensures forall name :: name in combined.idToIndex <==> name in src.idToIndex || name in dst.idToIndex
    ensures dst.ids == [] ==> combined == src
    ensures needUpdate <==> NeedsModelUpdate(src, dst)
  {
    if |dst.ids| == 0 {
      IndexedAreDistinct(dst.idToIndex, dst.ids);
      combined, needUpdate := src, false;
    } else {
      combined, needUpdate := InsertModels(src.idToIndex, dst);
    }
  }

  /** Inserts the names in whatever order the hash map yields them. */
  method InsertModels(src: map<string, int>, dst: ModelDb) returns (combined: ModelDb, needUpdate: bool)
    requires Inverse(dst)
    ensures Inverse(combined) && dst.ids <= combined.ids
    ensures forall name :: name in combined.idToIndex <==> name in src || name in dst.idToIndex
    ensures needUpdate <==> Differs(src, dst.idToIndex)
  {
    combined, needUpdate := dst, false;
    var left := src.Keys;
    while left != {}
      invariant left <= src.Keys
      invariant Inverse(combined) && dst.ids <= combined.ids
      invariant forall name :: name in combined.idToIndex <==> (name in src && name !in left) || name in dst.idToIndex
      invariant forall name :: name in dst.idToIndex ==> combined.idToIndex[name] == dst.idToIndex[name]
      invariant needUpdate <==> Differs(src - left, dst.idToIndex)
      decreases left
    {
      var id :| id in left;
      var index := src[id];
      DiffersStep(src - left, dst.idToIndex, id, index);
      assert src - (left - {id}) == (src - left)[id := index];
      if id !in combined.idToIndex || combined.idToIndex[id] != index {
        needUpdate := true;
      }
      var ids, idToIndex := InsertName(id, combined.ids, combined.idToIndex);
      combined := ModelDb(ids, idToIndex);
      left := left - {id};
    }
    assert src - left == src;
  }

  predicate AgreesAt(src: seq<string>, dst: seq<string>, k: nat)
    requires k < |src|
  {
    k < |dst| && dst[k] == src[k]
  }

  ghost predicate AgreesUpTo(src: seq<string>, dst: seq<string>, n: nat)
    requires n <= |src|
  {
    forall k :: 0 <= k < n ==> AgreesAt(src, dst, k)
  }

  ghost predicate NeedsPatternUpdate(src: seq<string>, dst: seq<string>) {
    dst != [] && !AgreesUpTo(src, dst, |src|)
  }

  /** Adds the patterns of `src` to `dst`, whose positions `index` knows. */
  method CombineTensorPatternDatabase(src: seq<string>, dst: seq<string>, index: map<string, int>)
    returns (combined: seq<string>, combinedIndex: map<string, int>, needUpdate: bool)
    requires Distinct(src) && Indexes(index, dst)
    ensures Distinct(combined) && dst <= combined
    ensures forall name :: name in combined <==> name in src || name in dst
    ensures dst == [] ==> combined == src
    ensures needUpdate <==> NeedsPatternUpdate(src, dst)
    ensures needUpdate ==> Indexes(combinedIndex, combined)
  {
    if dst == [] {
      combined, combinedIndex, needUpdate := src, index, false;
    } else {
      combined, combinedIndex, needUpdate := InsertPatterns(src, dst, index);
      IndexedAreDistinct(combinedIndex, combined);
    }
  }

  method InsertPatterns(src: seq<string>, dst: seq<string>, index: map<string, int>)
    returns (combined: seq<string>, combinedIndex: map<string, int>, needUpdate: bool)
    requires Distinct(src) && Indexes(index, dst)
    ensures Indexes(combinedIndex, combined) && dst <= combined
    ensures forall name :: name in combined <==> name in src || name in dst
    ensures needUpdate <==> !AgreesUpTo(src, dst, |src|)
  {
    combined, combinedIndex, needUpdate := dst, index, false;
    for i := 0 to |src|
      invariant Indexes(combinedIndex, combined) && dst <= combined
      invariant forall name :: name in combined <==> name in src[..i] || name in dst
      invariant needUpdate <==> !AgreesUpTo(src, dst, i)
    {
      assert src[..i + 1] == src[..i] + [src[i]];
      FoundWhereExpected(src, dst, combined, combinedIndex, i);
      if src[i] !in combinedIndex || combinedIndex[src[i]] != i {
        needUpdate := true;
      }
      combined, combinedIndex := InsertName(src[i], combined, combinedIndex);
    }
    assert src[..|src|] == src;
  }

  lemma FoundWhereExpected(src: seq<string>, dst: seq<string>, combined: seq<string>, index: map<string, int>, i: nat)
    requires Distinct(src) && i < |src| && Indexes(index, combined) && dst <= combined
    requires forall name :: name in combined <==> name in src[..i] || name in dst
    ensures AgreesAt(src, dst, i) <==> src[i] in index && index[src[i]] == i
  {
    IndexedAreDistinct(index, combined);
    if src[i] in index && index[src[i]] == i {
      assert src[i] !in src[..i];
      assert src[i] in dst;
      var k :| 0 <= k < |dst| && dst[k] == src[i];
      assert combined[k] == src[i] && combined[i] == src[i];
    }
    if AgreesAt(src, dst, i) { assert combined[i] == dst[i]; }
  }

  /** Moves an index of a source's patterns to the combined database. */
  function UpdateTensorPatternIndex(t: TensorEvent, src: seq<string>, index: map<string, int>): TensorEvent
    requires ValidTensor(t, src)
  {
    if src[t.patternIndex] in index then t.(patternIndex := index[src[t.patternIndex]]) else t
  }

  lemma UpdatedTensor(t: TensorEvent, src: seq<string>, combined: seq<string>, index: map<string, int>)
    requires ValidTensor(t, src) && Indexes(index, combined) && forall name :: name in src ==> name in combined
    ensures SameTensor(t, src, UpdateTensorPatternIndex(t, src, index), combined)
  {
    IndexedAreDistinct(index, combined);
    assert src[t.patternIndex] in src;
  }

  /** The same index means the same pattern when no update is needed. */
  lemma KeptTensor(t: TensorEvent, src: seq<string>, dst: seq<string>, combined: seq<string>)
    requires ValidTensor(t, src) && dst <= combined
    requires if dst == [] then combined == src else AgreesUpTo(src, dst, |src|)
    ensures SameTensor(t, src, t, combined)
  {
    assert dst != [] ==> AgreesAt(src, dst, t.patternIndex);
  }

  /** The same index means the same model when no update is needed. */
  lemma KeptModel(index: int, src: ModelDb, dst: ModelDb, combined: ModelDb)
    requires Inverse(src) && Inverse(dst) && Inverse(combined) && ValidModelIndex(index, src.ids) && index != -1
    requires dst.ids <= combined.ids
    requires if dst.ids == [] then combined == src else !Differs(src.idToIndex, dst.idToIndex)
    ensures ValidModelIndex(index, combined.ids) && combined.ids[index] == src.ids[index]
  {
    IndexedAreDistinct(dst.idToIndex, dst.ids);
    if dst.ids != [] {
      var name := src.ids[index];
      assert name in src.idToIndex && src.idToIndex[name] == index;
      assert name in dst.idToIndex && dst.idToIndex[name] == index;
    }
  }
}
