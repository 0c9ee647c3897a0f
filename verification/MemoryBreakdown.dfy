/** Merging breakdowns of memory accesses: once by scanning, once through a hash map. */
module MemoryBreakdown {
  import opened Collections

  datatype OperationType = Unknown | Read | Write

  datatype Key = Key(memorySpace: nat, operation: OperationType)

  datatype MemoryAccessed = MemoryAccessed(key: Key, bytes: nat)

  type Breakdown = seq<MemoryAccessed>

  /** The bytes a breakdown holds under a key, however many entries share it. */
  function BytesOf(b: Breakdown, k: Key): nat {
    if b == [] then 0
    else
      var n := |b| - 1;
      BytesOf(b[..n], k) + if b[n].key == k then b[n].bytes else 0
  }

  predicate Has(b: Breakdown, k: Key) {
    exists i :: 0 <= i < |b| && b[i].key == k
  }

  ghost predicate DistinctKeys(b: Breakdown) {
    forall i, j :: 0 <= i < j < |b| ==> b[i].key != b[j].key
  }

  /** The first entry under a key, which a scan finds. */
  function First(b: Breakdown, k: Key): (r: Option<nat>)
    ensures r.Some? ==> r.value < |b| && b[r.value].key == k
    ensures r.None? <==> !Has(b, k)
    ensures r.Some? ==> forall i :: 0 <= i < r.value ==> b[i].key != k
  {
    if b == [] then None
    else
      var n := |b| - 1;
      var earlier := First(b[..n], k);
      if earlier.Some? then earlier else if b[n].key == k then Some(n) else None
  }

  /** The last entry under a key, which a map filled in order remembers. */
  function Last(b: Breakdown, k: Key): (r: Option<nat>)
    ensures r.Some? ==> r.value < |b| && b[r.value].key == k
    ensures r.None? <==> !Has(b, k)
    ensures r.Some? ==> forall i :: r.value < i < |b| ==> b[i].key != k
  {
    if b == [] then None
    else
      var n := |b| - 1;
      if b[n].key == k then Some(n) else Last(b[..n], k)
  }

  function Find(b: Breakdown, k: Key, last: bool): Option<nat> {
    if last then Last(b, k) else First(b, k)
  }

  function Grow(b: Breakdown, i: nat, bytes: nat): Breakdown
    requires i < |b|
  {
    b[i := b[i].(bytes := b[i].bytes + bytes)]
  }

  function AddTo(b: Breakdown, e: MemoryAccessed, last: bool): Breakdown {
    match Find(b, e.key, last)
    case Some(i) => Grow(b, i, e.bytes)
    case None => b + [e]
  }

  /** Merging entry by entry; the flag says which of several entries grows. */
  function Merge(src: Breakdown, dst: Breakdown, last: bool): Breakdown {
    if src == [] then dst else AddTo(Merge(src[..|src| - 1], dst, last), src[|src| - 1], last)
  }

  // Totals.

  lemma {:induction false} GrowBytes(b: Breakdown, i: nat, bytes: nat, k: Key)
    requires i < |b|
    ensures BytesOf(Grow(b, i, bytes), k) == BytesOf(b, k) + if b[i].key == k then bytes else 0
    decreases |b|
  {
    var n, after := |b| - 1, Grow(b, i, bytes);
    if i == n {
      assert after[..n] == b[..n];
    } else {
      GrowBytes(b[..n], i, bytes, k);
      assert after[..n] == Grow(b[..n], i, bytes);
    }
  }

  /** Merging adds the bytes under every key. */
  lemma {:induction false} MergeAddsBytes(src: Breakdown, dst: Breakdown, last: bool, k: Key)
    ensures BytesOf(Merge(src, dst, last), k) == BytesOf(src, k) + BytesOf(dst, k)
    decreases |src|
  {
    if src != [] {
      var n := |src| - 1;
      var before, e := Merge(src[..n], dst, last), src[n];
      MergeAddsBytes(src[..n], dst, last, k);
      match Find(before, e.key, last)
      case Some(i) => GrowBytes(before, i, e.bytes, k);
      case None => assert (before + [e])[..|before|] == before;
    }
  }

  function MergeAll(parts: seq<Breakdown>, last: bool): Breakdown {
    if parts == [] then [] else Merge(parts[|parts| - 1], MergeAll(parts[..|parts| - 1], last), last)
  }

  function BytesUnder(k: Key): Breakdown -> int { (b: Breakdown) => BytesOf(b, k) }

  lemma {:induction false} MergeAllAddsBytes(parts: seq<Breakdown>, last: bool, k: Key)
    ensures BytesOf(MergeAll(parts, last), k) == SumBy(parts, BytesUnder(k))
    decreases |parts|
  {
    if parts != [] {
      var n := |parts| - 1;
      MergeAllAddsBytes(parts[..n], last, k);
      MergeAddsBytes(parts[n], MergeAll(parts[..n], last), last, k);
      SumByAppend(parts[..n], parts[n], BytesUnder(k));
      assert parts == parts[..n] + [parts[n]];
    }
  }

  /** Neither the order of merging nor the kind of lookup changes any total. */
  lemma MergeOrderDoesNotMatter(parts: seq<Breakdown>, other: seq<Breakdown>, last: bool, otherLast: bool, k: Key)
    requires multiset(parts) == multiset(other)
    ensures BytesOf(MergeAll(parts, last), k) == BytesOf(MergeAll(other, otherLast), k)
  {
    MergeAllAddsBytes(parts, last, k);
    MergeAllAddsBytes(other, otherLast, k);
    SumByPermutation(parts, other, BytesUnder(k));
  }

  // Positions.

  /** What an entry of `dst` gains: all bytes under its key, if it is the one found. */
  function Share(src: Breakdown, dst: Breakdown, i: nat, last: bool): nat
    requires i < |dst|
  {
    if Find(dst, dst[i].key, last) == Some(i) then BytesOf(src, dst[i].key) else 0
  }

  ghost predicate HasGrown(front: Breakdown, src: Breakdown, dst: Breakdown, last: bool) {
    && |front| == |dst|
    && forall i :: 0 <= i < |dst| ==> front[i] == dst[i].(bytes := dst[i].bytes + Share(src, dst, i, last))
  }

  /** The entries for keys that `dst` does not have, in order of appearance. */
  function Added(src: Breakdown, dst: Breakdown): Breakdown {
    if src == [] then []
    else
      var before, e := Added(src[..|src| - 1], dst), src[|src| - 1];
      if Has(dst, e.key) then before else AddTo(before, e, false)
  }

  /** Adding an entry changes no key and repeats none. */
  lemma AddToKeys(b: Breakdown, e: MemoryAccessed)
    requires DistinctKeys(b)
    ensures DistinctKeys(AddTo(b, e, false)) && |AddTo(b, e, false)| >= |b|
    ensures forall i :: 0 <= i < |AddTo(b, e, false)| ==>
              AddTo(b, e, false)[i].key == if i < |b| then b[i].key else e.key
  {
    assert First(b, e.key).None? ==> forall i :: 0 <= i < |b| ==> b[i].key != e.key;
  }

  lemma {:induction false} AddedIsDistinct(src: Breakdown, dst: Breakdown)
    ensures DistinctKeys(Added(src, dst))
    ensures forall i :: 0 <= i < |Added(src, dst)| ==> !Has(dst, Added(src, dst)[i].key)
    decreases |src|
  {
    if src != [] {
      var before, e := Added(src[..|src| - 1], dst), src[|src| - 1];
      AddedIsDistinct(src[..|src| - 1], dst);
      if !Has(dst, e.key) { AddToKeys(before, e); }
    }
  }

  /** With distinct keys the first entry under a key is the last. */
  lemma FirstIsLast(b: Breakdown, k: Key)
    requires DistinctKeys(b)
    ensures First(b, k) == Last(b, k)
  {
  }

  lemma FindSameKeys(a: Breakdown, b: Breakdown, k: Key, last: bool)
    requires |a| == |b| && forall i :: 0 <= i < |a| ==> a[i].key == b[i].key
    ensures Find(a, k, last) == Find(b, k, last)
  {
    if last {
      assert Has(a, k) <==> Has(b, k);
    } else {
      SameFirst(a, b, k);
    }
  }

  lemma {:induction false} SameFirst(a: Breakdown, b: Breakdown, k: Key)
    requires |a| == |b| && forall i :: 0 <= i < |a| ==> a[i].key == b[i].key
    ensures First(a, k) == First(b, k)
    decreases |a|
  {
    if a != [] { SameFirst(a[..|a| - 1], b[..|b| - 1], k); }
  }

  /** The position found is the only one that qualifies. */
  lemma FindIs(b: Breakdown, k: Key, last: bool, i: nat)
    requires i < |b| && b[i].key == k
    requires forall j :: 0 <= j < |b| && (if last then i < j else j < i) ==> b[j].key != k
    ensures Find(b, k, last) == Some(i)
  {
    assert Has(b, k);
  }

  lemma HasConcat(a: Breakdown, b: Breakdown, k: Key)
    ensures Has(a + b, k) <==> Has(a, k) || Has(b, k)
  {
    if i :| 0 <= i < |a| && a[i].key == k { assert (a + b)[i].key == k; }
    if i :| 0 <= i < |b| && b[i].key == k { assert (a + b)[|a| + i].key == k; }
  }

  lemma FindConcat(a: Breakdown, b: Breakdown, k: Key, last: bool)
    requires !Has(a, k) || !Has(b, k)
    ensures Find(a + b, k, last) == if Has(a, k) then Find(a, k, last)
                                    else if Find(b, k, last).Some? then Some(|a| + Find(b, k, last).value) else None
  {
    HasConcat(a, b, k);
    if Has(a, k) {
      FindIs(a + b, k, last, Find(a, k, last).value);
    } else if Has(b, k) {
      FindIs(a + b, k, last, |a| + Find(b, k, last).value);
    }
  }

  lemma AddToConcat(a: Breakdown, b: Breakdown, e: MemoryAccessed, last: bool)
    requires !Has(a, e.key) || !Has(b, e.key)
    ensures AddTo(a + b, e, last)
         == if Has(a, e.key) then AddTo(a, e, last) + b else a + AddTo(b, e, last)
  {
    FindConcat(a, b, e.key, last);
    if !Has(a, e.key) && Find(b, e.key, last).None? { ConcatAssociates(a, b, [e]); }
  }

  lemma ShareStep(src: Breakdown, dst: Breakdown, e: MemoryAccessed, i: nat, last: bool)
    requires i < |dst|
    ensures Share(src + [e], dst, i, last)
         == Share(src, dst, i, last) + if Find(dst, e.key, last) == Some(i) then e.bytes else 0
  {
    assert (src + [e])[..|src|] == src;
  }

  lemma GrownStep(front: Breakdown, src: Breakdown, dst: Breakdown, e: MemoryAccessed, last: bool)
    requires HasGrown(front, src, dst, last)
    ensures Has(front, e.key) <==> Has(dst, e.key)
    ensures HasGrown(if Has(dst, e.key) then AddTo(front, e, last) else front, src + [e], dst, last)
  {
    FindSameKeys(front, dst, e.key, last);
    assert Has(dst, e.key) <==> Find(dst, e.key, last).Some?;
    assert Has(front, e.key) <==> Find(front, e.key, last).Some?;
    var after := if Has(dst, e.key) then AddTo(front, e, last) else front;
    forall i | 0 <= i < |dst|
      ensures after[i] == dst[i].(bytes := dst[i].bytes + Share(src + [e], dst, i, last))
    {
      ShareStep(src, dst, e, i, last);
    }
  }

  /** Either merge grows entries of `dst` in place and appends the same new entries. */
  lemma {:induction false} MergeLayout(src: Breakdown, dst: Breakdown, last: bool) returns (front: Breakdown)
    ensures HasGrown(front, src, dst, last) && Merge(src, dst, last) == front + Added(src, dst)
    decreases |src|
  {
    if src == [] {
      front := dst;
    } else {
      var n := |src| - 1;
      var e, added := src[n], Added(src[..n], dst);
      front := MergeLayout(src[..n], dst, last);
      assert src == src[..n] + [e];
      GrownStep(front, src[..n], dst, e, last);
      AddedIsDistinct(src[..n], dst);
      assert !Has(dst, e.key) || !Has(added, e.key);
      AddToConcat(front, added, e, last);
      FirstIsLast(added, e.key);
      if Has(dst, e.key) { front := AddTo(front, e, last); }
    }
  }

  /** The hash-indexed merge yields the sequence of the scanning merge exactly when
      every key that `dst` holds several times gains no bytes. */
  lemma HashMergeIsScanMerge(src: Breakdown, dst: Breakdown)
    ensures Merge(src, dst, true) == Merge(src, dst, false)
       <==> forall i :: 0 <= i < |dst| && First(dst, dst[i].key) != Last(dst, dst[i].key) ==>
              BytesOf(src, dst[i].key) == 0
  {
    var hashed := MergeLayout(src, dst, true);
    var scanned := MergeLayout(src, dst, false);
    SameFronts(hashed, scanned, Added(src, dst));
    forall i | 0 <= i < |dst|
      ensures hashed[i] == scanned[i] <==> Share(src, dst, i, true) == Share(src, dst, i, false)
    {
    }
    if hashed == scanned {
      forall i | 0 <= i < |dst| && First(dst, dst[i].key) != Last(dst, dst[i].key)
        ensures BytesOf(src, dst[i].key) == 0
      {
        var k := Last(dst, dst[i].key).value;
        assert dst[k].key == dst[i].key;
        assert Share(src, dst, k, true) == BytesOf(src, dst[i].key) && Share(src, dst, k, false) == 0;
      }
    } else {
      var i :| 0 <= i < |dst| && hashed[i] != scanned[i];
      assert First(dst, dst[i].key) != Last(dst, dst[i].key);
    }
  }

  lemma SameFronts(a: Breakdown, b: Breakdown, rest: Breakdown)
    requires |a| == |b|
    ensures a + rest == b + rest <==> a == b
  {
    assert (a + rest)[..|a|] == a && (b + rest)[..|b|] == b;
  }

  lemma DistinctMergesAgree(src: Breakdown, dst: Breakdown)
    requires DistinctKeys(dst)
    ensures Merge(src, dst, true) == Merge(src, dst, false)
  {
    forall i | 0 <= i < |dst| ensures First(dst, dst[i].key) == Last(dst, dst[i].key) {
      FirstIsLast(dst, dst[i].key);
    }
    HashMergeIsScanMerge(src, dst);
  }

  // The two programs.

  /** Looks every entry up in a hash map over the destination. */
  method CombineMemoryAccessedBreakdown(src: Breakdown, dst: Breakdown) returns (combined: Breakdown)
    ensures combined == Merge(src, dst, true)
  {
    combined := dst;
    if |src| == 0 { return; }
    var index: map<Key, nat> := map[];
    for i := 0 to |dst|
      invariant Remembers(index, dst[..i])
    {
      assert dst[..i + 1] == dst[..i] + [dst[i]];
      index := index[dst[i].key := i];
    }
    assert dst[..|dst|] == dst;
    for i := 0 to |src|
      invariant combined == Merge(src[..i], dst, true) && Remembers(index, combined)
    {
      var e := src[i];
      assert src[..i + 1] == src[..i] + [e];
      if e.key in index {
        RemembersGrown(index, combined, index[e.key], e.bytes);
        combined := Grow(combined, index[e.key], e.bytes);
      } else {
        index := index[e.key := |combined|];
        combined := combined + [e];
      }
    }
    assert src[..|src|] == src;
  }

  /** The map knows the last entry under each key. */
  ghost predicate Remembers(index: map<Key, nat>, b: Breakdown) {
    forall k :: if k in index then Last(b, k) == Some(index[k]) else Last(b, k) == None
  }

  lemma RemembersGrown(index: map<Key, nat>, b: Breakdown, i: nat, bytes: nat)
    requires Remembers(index, b) && i < |b|
    ensures Remembers(index, Grow(b, i, bytes))
  {
    forall k ensures Last(Grow(b, i, bytes), k) == Last(b, k) { FindSameKeys(Grow(b, i, bytes), b, k, true); }
  }

  /** Scans the destination for every entry. */
  method CombineMemoryAccessed(src: Breakdown, dst: Breakdown) returns (combined: Breakdown)
    ensures combined == Merge(src, dst, false)
  {
    combined := dst;
    for i := 0 to |src|
      invariant combined == Merge(src[..i], dst, false)
    {
      assert src[..i + 1][..i] == src[..i];
      combined := AddByScan(combined, src[i]);
    }
    assert src[..|src|] == src;
  }

  method AddByScan(b: Breakdown, e: MemoryAccessed) returns (after: Breakdown)
    ensures after == AddTo(b, e, false)
  {
    for j := 0 to |b|
      invariant forall i :: 0 <= i < j ==> b[i].key != e.key
    {
      if b[j].key == e.key {
        assert Has(b, e.key) && First(b, e.key) == Some(j);
        return Grow(b, j, e.bytes);
      }
    }
    after := b + [e];
  }
}
