/** What holds at every node of a built op profile, read off the tree itself. */
module OpProfileTheorems {
  import opened Collections
  import opened MemoryBreakdown
  import opened OpProfileTree
  import opened OpProfilePlaces
  import opened OpProfileBuilding

  function At(metrics: map<nat, Metrics>, q: Quantity): nat -> int {
    (n: nat) => Get(MetricsAt(metrics, n), q)
  }

  ghost predicate AreKeysOf(under: set<NodeKey>, children: seq<nat>, keys: seq<NodeKey>) {
    && (forall c :: c in children ==> c < |keys| && keys[c] in under)
    && (forall key :: key in under ==> exists c :: c in children && c < |keys| && keys[c] == key)
  }

  lemma {:induction false} SumOfNodes(o: Options, ops: seq<Op>, keys: seq<NodeKey>, metrics: map<nat, Metrics>,
                                      children: seq<nat>, under: set<NodeKey>, q: Quantity)
    requires Settled(o, ops, keys, metrics) && NoKeyTwice(keys)
    requires NoDuplicates(children) && AreKeysOf(under, children, keys)
    ensures SumBy(children, At(metrics, q)) == SumOver(under, TotalsOf(o, ops, q))
    decreases |children|
  {
    if children == [] {
      assert forall key :: key !in under;
      assert under == {};
    } else {
      var first, rest := children[0], children[1..];
      assert children == [first] + rest && first in children;
      var below := under - {keys[first]};
      RestAreKeys(keys, children, under);
      SumOfNodes(o, ops, keys, metrics, rest, below, q);
      SumOverPick(under, keys[first], TotalsOf(o, ops, q));
    }
  }

  lemma RestAreKeys(keys: seq<NodeKey>, children: seq<nat>, under: set<NodeKey>)
    requires NoKeyTwice(keys) && NoDuplicates(children) && AreKeysOf(under, children, keys) && children != []
    ensures children[0] < |keys| && keys[children[0]] in under
    ensures AreKeysOf(under - {keys[children[0]]}, children[1..], keys)
  {
    var first, rest := children[0], children[1..];
    assert children == [first] + rest && first in children;
    forall c | c in rest ensures c < |keys| && keys[c] in under - {keys[first]} {
      assert c in children;
      var i :| 0 <= i < |rest| && rest[i] == c;
      assert children[i + 1] == c;
    }
    forall key | key in under - {keys[first]} ensures exists c :: c in rest && c < |keys| && keys[c] == key {
      var c :| c in children && c < |keys| && keys[c] == key;
      assert c in rest;
    }
  }

  /** The children in the tree are the children the operations call for. */
  lemma ChildrenAreCalledFor(b: OpProfileBuilder, n: nat)
    requires b.Valid() && n < |b.nodes|
    ensures AreKeysOf(Children(b.options, b.ops, b.keys[n]), b.nodes[n].children, b.keys)
  {
    var under := Children(b.options, b.ops, b.keys[n]);
    forall c | c in b.nodes[n].children ensures c < |b.keys| && b.keys[c] in under {
      assert IsChild(b.keys, n, c);
    }
    forall key | key in under ensures exists c :: c in b.nodes[n].children && c < |b.keys| && b.keys[c] == key {
      assert key in b.keys;
      var c :| 0 <= c < |b.keys| && b.keys[c] == key;
      assert IsChild(b.keys, n, c);
    }
  }

  /** Each node of the tree holds what the operations it accounts for add to it. */
  lemma NodeHolds(b: OpProfileBuilder, n: nat, q: Quantity)
    requires b.Valid() && n < |b.nodes|
    ensures At(b.metrics, q)(n) == TakenIn(b.options, b.ops, b.keys[n], q)
  {
    TotalIsTakenIn(b.options, b.ops, b.keys[n], q);
  }

  /** The same, field by field. */
  lemma FieldsHold(b: OpProfileBuilder, n: nat, m: Metrics, key: NodeKey)
    requires b.Valid() && n < |b.nodes| && m == MetricsAt(b.metrics, n) && key == b.keys[n]
    ensures m.timePs == TakenIn(b.options, b.ops, key, TimePs)
    ensures m.selfTimePs == TakenIn(b.options, b.ops, key, SelfTimePs)
    ensures m.normalizedTimePs == TakenIn(b.options, b.ops, key, NormalizedTimePs)
    ensures m.occurrences == TakenIn(b.options, b.ops, key, Occurrences)
    ensures m.flops == TakenIn(b.options, b.ops, key, Flops)
    ensures m.modelFlops == TakenIn(b.options, b.ops, key, ModelFlops)
    ensures m.flopsV2 == TakenIn(b.options, b.ops, key, FlopsV2)
    ensures m.modelFlopsV2 == TakenIn(b.options, b.ops, key, ModelFlopsV2)
    ensures m.bytesAccessed == TakenIn(b.options, b.ops, key, BytesAccessed)
    ensures m.dmaStallPs == TakenIn(b.options, b.ops, key, DmaStallPs)
  {
    FieldsAre(m);
    QuantityHolds(b, n, TimePs);
    QuantityHolds(b, n, SelfTimePs);
    QuantityHolds(b, n, NormalizedTimePs);
    QuantityHolds(b, n, Occurrences);
    QuantityHolds(b, n, Flops);
    QuantityHolds(b, n, ModelFlops);
    QuantityHolds(b, n, FlopsV2);
    QuantityHolds(b, n, ModelFlopsV2);
    QuantityHolds(b, n, BytesAccessed);
    QuantityHolds(b, n, DmaStallPs);
  }

  /** And for the bytes of its memory breakdown under each key. */
  lemma MemoryHolds(b: OpProfileBuilder, n: nat, memory: MemoryBreakdown.Key)
    requires b.Valid() && n < |b.nodes|
    ensures BytesOf(MetricsAt(b.metrics, n).memory, memory)
         == TakenIn(b.options, b.ops, b.keys[n], MemoryBytes(memory))
  {
    QuantityHolds(b, n, MemoryBytes(memory));
  }

  lemma QuantityHolds(b: OpProfileBuilder, n: nat, q: Quantity)
    requires b.Valid() && n < |b.nodes|
    ensures Get(MetricsAt(b.metrics, n), q) == TakenIn(b.options, b.ops, b.keys[n], q)
  {
    NodeHolds(b, n, q);
  }

  lemma FieldsAre(m: Metrics)
    ensures Get(m, TimePs) == m.timePs && Get(m, SelfTimePs) == m.selfTimePs
    ensures Get(m, NormalizedTimePs) == m.normalizedTimePs && Get(m, Occurrences) == m.occurrences
    ensures Get(m, Flops) == m.flops && Get(m, ModelFlops) == m.modelFlops
    ensures Get(m, FlopsV2) == m.flopsV2 && Get(m, ModelFlopsV2) == m.modelFlopsV2
    ensures Get(m, BytesAccessed) == m.bytesAccessed && Get(m, DmaStallPs) == m.dmaStallPs
  {
  }

  ghost predicate HasChild(b: OpProfileBuilder, n: nat, key: NodeKey)
    reads b
    requires n < |b.nodes|
  {
    exists c :: c in b.nodes[n].children && c < |b.keys| && b.keys[c] == key
  }

  ghost predicate CalledForBelow(b: OpProfileBuilder, parent: NodeKey, key: NodeKey)
    reads b
  {
    !key.RootKey? && key.parent == parent && exists k :: 0 <= k < |b.ops| && Takes(b.options, b.ops[k], k, key)
  }

  /** The children of a node are exactly those its operations call for. */
  lemma ChildrenAre(b: OpProfileBuilder, n: nat, key: NodeKey)
    requires b.Valid() && n < |b.nodes|
    ensures HasChild(b, n, key) <==> CalledForBelow(b, b.keys[n], key)
  {
    ChildrenAreCalledFor(b, n);
    NodesAreCalledFor(b.options, b.ops, key);
  }

  /** Below the root hang the leaves of the idle operations without children, and of the
      others the programs, or the categories of the childless ones when only grouping by
      category. */
  lemma RootChildren(b: OpProfileBuilder, key: NodeKey)
    requires b.Valid()
    ensures |b.nodes| > 0 && b.keys[0] == RootKey
    ensures HasChild(b, 0, key)
       <==> exists k :: 0 <= k < |b.ops| &&
              var op := b.ops[k];
              if op.category == "IDLE" then op.metrics.timePs == op.metrics.selfTimePs && key == LeafKey(RootKey, k)
              else if b.options.groupBy == ByCategory then
                op.metrics.timePs == op.metrics.selfTimePs && key == CategoryKey(RootKey, false, op.category)
              else key == ProgramKey(RootKey, op.programId)
  {
    ChildrenAre(b, 0, key);
    if !key.RootKey? && key.parent == RootKey {
      forall k | 0 <= k < |b.ops| { BelowRoot(b.options, b.ops[k], k, key); }
    }
  }

  /** Flops, bytes, memory accesses and stalls of a node are the sums over its children. */
  lemma NodeConserves(b: OpProfileBuilder, n: nat, q: Quantity)
    requires b.Valid() && n < |b.nodes| && !b.keys[n].LeafKey?
    requires !IsTime(q) && (q.Occurrences? ==> IsGroup(b.keys[n]))
    ensures At(b.metrics, q)(n) == SumBy(b.nodes[n].children, At(b.metrics, q))
  {
    ChildrenAreCalledFor(b, n);
    SumOfNodes(b.options, b.ops, b.keys, b.metrics, b.nodes[n].children,
               Children(b.options, b.ops, b.keys[n]), q);
    QuantitiesAreConserved(b.options, b.ops, b.keys[n], q);
  }

  /** The time of a node exceeds that of its children by the own time of the
      operations with children that end at the node. */
  lemma NodeTimeExceeds(b: OpProfileBuilder, n: nat)
    requires b.Valid() && n < |b.nodes| && !b.keys[n].LeafKey?
    ensures At(b.metrics, TimePs)(n)
         == SumBy(b.nodes[n].children, At(b.metrics, TimePs)) + ParentTime(b.options, b.ops, b.keys[n])
  {
    ChildrenAreCalledFor(b, n);
    SumOfNodes(b.options, b.ops, b.keys, b.metrics, b.nodes[n].children,
               Children(b.options, b.ops, b.keys[n]), TimePs);
    TimeExceedsByParents(b.options, b.ops, b.keys[n]);
  }

  /** Adding operations in any order gives a node that belongs to no single
      operation the same total. */
  lemma OrderDoesNotMatter(o: Options, ops: seq<Op>, other: seq<Op>, key: NodeKey, q: Quantity)
    requires multiset(ops) == multiset(other) && !key.LeafKey?
    ensures Total(o, ops, key, q) == Total(o, other, key, q)
  {
    TotalIsSum(o, ops, key, q);
    TotalIsSum(o, other, key, q);
    SumByPermutation(ops, other, PartOf(o, key, q));
  }

  function PartOf(o: Options, key: NodeKey, q: Quantity): Op -> int {
    (op: Op) => Part(o, op, 0, key, q)
  }

  lemma {:induction false} TotalIsSum(o: Options, ops: seq<Op>, key: NodeKey, q: Quantity)
    requires !key.LeafKey?
    ensures Total(o, ops, key, q) == SumBy(ops, PartOf(o, key, q))
    decreases |ops|
  {
    if ops != [] {
      var n := |ops| - 1;
      TotalIsSum(o, ops[..n], key, q);
      SumByAppend(ops[..n], ops[n], PartOf(o, key, q));
      assert ops == ops[..n] + [ops[n]];
      PlaceAncestors(o, ops[n], n);
      PlaceAncestors(o, ops[n], 0);
    }
  }
}
