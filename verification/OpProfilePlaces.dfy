/** Which operations a node accounts for, read off the node's key alone. */
module OpProfilePlaces {
  import opened Collections
  import opened MemoryBreakdown
  import opened OpProfileTree

  /** The program and the provenance path that a key stands for. */
  function PathFrom(key: NodeKey): Option<(nat, seq<string>)> {
    match key
    case ProgramKey(parent, id) => if parent.RootKey? then Some((id, [])) else None
    case ProvenanceKey(parent, name) =>
      if PathFrom(parent).Some? then Some((PathFrom(parent).value.0, PathFrom(parent).value.1 + [name])) else None
    case _ => None
  }

  /** The node under which the category of an operation hangs. */
  predicate HoldsCategory(o: Options, op: Op, parent: NodeKey, viaProvenance: bool) {
    match o.groupBy
    case ByCategory => parent.RootKey? && !viaProvenance
    case ByProgram => PathFrom(parent) == Some((op.programId, [])) && !viaProvenance
    case ByProvenance =>
      && viaProvenance == op.provenance.Some?
      && PathFrom(parent) == Some((op.programId, if op.provenance.Some? then op.provenance.value else []))
  }

  /** A node accounts for the `k`-th operation. The root accounts for all, a program for
      its own that are not idle. The rest account for operations without children only:
      provenance nodes, categories and groups of duplicates for those that are not
      idle, and one leaf for each. */
  predicate Takes(o: Options, op: Op, k: nat, key: NodeKey) {
    var idle, childless := op.category == "IDLE", op.metrics.timePs == op.metrics.selfTimePs;
    match key
    case RootKey => true
    case ProgramKey(parent, id) =>
      (o.groupBy == ByProgram || o.groupBy == ByProvenance) && !idle && parent.RootKey? && id == op.programId
    case ProvenanceKey(_, _) =>
      && o.groupBy == ByProvenance && !idle && childless && op.provenance.Some?
      && PathFrom(key).Some? && PathFrom(key).value.0 == op.programId
      && PathFrom(key).value.1 <= op.provenance.value
    case CategoryKey(parent, viaProvenance, category) =>
      !idle && childless && category == op.category && HoldsCategory(o, op, parent, viaProvenance)
    case DeduplicatedKey(parent, name) =>
      && o.groupByDeduplicatedName && parent.CategoryKey? && Takes(o, op, k, parent)
      && name == (if op.deduplicatedName != "" then op.deduplicatedName else op.hloName)
    case LeafKey(parent, n) =>
      && childless && n == k
      && if idle then parent.RootKey?
         else (if o.groupByDeduplicatedName then parent.DeduplicatedKey? else parent.CategoryKey?)
              && Takes(o, op, k, parent)
  }

  lemma {:induction false} PathFromPath(id: nat, path: seq<string>)
    ensures PathFrom(ProvenancePath(ProgramKey(RootKey, id), path)) == Some((id, path))
    decreases |path|
  {
    if path != [] {
      PathFromPath(id, path[..|path| - 1]);
      assert path == path[..|path| - 1] + [path[|path| - 1]];
    }
  }

  /** A key is read as a program and a path exactly when it stands for them. */
  lemma {:induction false} PathIsRead(key: NodeKey)
    requires PathFrom(key).Some?
    ensures key == ProvenancePath(ProgramKey(RootKey, PathFrom(key).value.0), PathFrom(key).value.1)
  {
    if key.ProvenanceKey? {
      PathIsRead(key.parent);
      var path := PathFrom(key).value.1;
      assert path[..|path| - 1] == PathFrom(key.parent).value.1;
    }
  }

  lemma PathStandsFor(key: NodeKey, id: nat, path: seq<string>)
    ensures PathFrom(key) == Some((id, path)) <==> key == ProvenancePath(ProgramKey(RootKey, id), path)
  {
    PathFromPath(id, path);
    if PathFrom(key) == Some((id, path)) { PathIsRead(key); }
  }

  lemma CategoryHangs(o: Options, op: Op, parent: NodeKey, viaProvenance: bool)
    requires op.category != "IDLE"
    ensures HoldsCategory(o, op, parent, viaProvenance)
       <==> parent == PathKey(o, op) && viaProvenance == ViaProvenance(o, op)
  {
    PathStandsFor(parent, op.programId, []);
    if op.provenance.Some? { PathStandsFor(parent, op.programId, op.provenance.value); }
  }

  lemma ProgramTakes(o: Options, op: Op, k: nat, key: NodeKey)
    requires key.ProgramKey?
    ensures key in Ancestors(Place(o, op, k)) <==> Takes(o, op, k, key)
  {
    PlaceAncestors(o, op, k);
    if op.provenance.Some? { PathAncestors(TopKey(o, op), op.provenance.value, key); }
  }

  lemma ProvenanceTakes(o: Options, op: Op, k: nat, key: NodeKey)
    requires key.ProvenanceKey?
    ensures key in Ancestors(Place(o, op, k)) <==> Takes(o, op, k, key)
  {
    if PathFrom(key).Some? {
      var (id, path) := PathFrom(key).value;
      PathIsRead(key);
      ProvenanceNodeAccounts(o, op, k, id, path);
    } else {
      PlaceAncestors(o, op, k);
      if ViaProvenance(o, op) && !IsIdleOp(op) && !HasChildren(op) {
        var parts := op.provenance.value;
        PathAncestors(TopKey(o, op), parts, key);
        forall n | 0 < n <= |parts| ensures key != ProvenancePath(TopKey(o, op), parts[..n]) {
          PathFromPath(op.programId, parts[..n]);
        }
      }
    }
  }

  lemma GroupTakes(o: Options, op: Op, k: nat, key: NodeKey)
    requires key.CategoryKey? || key.DeduplicatedKey?
    ensures key in Ancestors(Place(o, op, k)) <==> Takes(o, op, k, key)
  {
    if key.CategoryKey? {
      CategoryAccounts(o, op, k, key.parent, key.viaProvenance, key.category);
      if !IsIdleOp(op) { CategoryHangs(o, op, key.parent, key.viaProvenance); }
    } else {
      DeduplicatedAccounts(o, op, k, key.parent, key.name);
      if key.parent.CategoryKey? {
        GroupTakes(o, op, k, key.parent);
        CategoryAccounts(o, op, k, key.parent.parent, key.parent.viaProvenance, key.parent.category);
      }
    }
  }

  lemma LeafTakes(o: Options, op: Op, k: nat, key: NodeKey)
    requires key.LeafKey?
    ensures key in Ancestors(Place(o, op, k)) <==> Takes(o, op, k, key)
  {
    PlaceAncestors(o, op, k);
    PathIsNoGroup(o, op);
    if key.parent.CategoryKey? || key.parent.DeduplicatedKey? {
      GroupTakes(o, op, k, key.parent);
      if key.parent.CategoryKey? {
        CategoryAccounts(o, op, k, key.parent.parent, key.parent.viaProvenance, key.parent.category);
      } else {
        DeduplicatedAccounts(o, op, k, key.parent.parent, key.parent.name);
      }
    }
  }

  /** An operation is accounted for exactly at the nodes whose keys call for it. */
  lemma PlaceIsRight(o: Options, op: Op, k: nat, key: NodeKey)
    ensures key in Ancestors(Place(o, op, k)) <==> Takes(o, op, k, key)
  {
    match key
    case RootKey => TopNodesAccount(o, op, k, 0);
    case ProgramKey(_, _) => ProgramTakes(o, op, k, key);
    case ProvenanceKey(_, _) => ProvenanceTakes(o, op, k, key);
    case CategoryKey(_, _, _) => GroupTakes(o, op, k, key);
    case DeduplicatedKey(_, _) => GroupTakes(o, op, k, key);
    case LeafKey(_, _) => LeafTakes(o, op, k, key);
  }

  /** What hangs directly below the root. */
  lemma BelowRoot(o: Options, op: Op, k: nat, key: NodeKey)
    requires !key.RootKey? && key.parent == RootKey
    ensures Takes(o, op, k, key)
       <==> if op.category == "IDLE" then op.metrics.timePs == op.metrics.selfTimePs && key == LeafKey(RootKey, k)
            else if o.groupBy == ByCategory then
              op.metrics.timePs == op.metrics.selfTimePs && key == CategoryKey(RootKey, false, op.category)
            else key == ProgramKey(RootKey, op.programId)
  {
    assert PathFrom(RootKey).None?;
    if key.ProvenanceKey? { assert PathFrom(key).None?; }
  }

  /** The tree has a node exactly when it is the root or some operation calls for it. */
  lemma {:induction false} NodesAreCalledFor(o: Options, ops: seq<Op>, key: NodeKey)
    ensures key in Nodes(o, ops) <==> key == RootKey || exists k :: 0 <= k < |ops| && Takes(o, ops[k], k, key)
    decreases |ops|
  {
    if ops != [] {
      var n := |ops| - 1;
      NodesAreCalledFor(o, ops[..n], key);
      PlaceIsRight(o, ops[n], n, key);
      forall k | 0 <= k < n ensures ops[..n][k] == ops[k] {}
    }
  }

  /** Operations with one deduplicated name share a group, others go by their own name. */
  lemma DuplicatesShareGroup(o: Options, a: Op, j: nat, b: Op, k: nat, category: NodeKey, name: string)
    requires o.groupByDeduplicatedName && category.CategoryKey?
    requires Takes(o, a, j, category) && Takes(o, b, k, category)
    ensures a.deduplicatedName == b.deduplicatedName != "" && Takes(o, a, j, DeduplicatedKey(category, name)) ==>
              name == a.deduplicatedName && Takes(o, b, k, DeduplicatedKey(category, name))
    ensures a.deduplicatedName == "" && Takes(o, a, j, DeduplicatedKey(category, name)) ==> name == a.hloName
  {
  }

  /** What an operation adds to a node that accounts for it: own time always, and of
      childless operations everything else, but occurrences to groups only. */
  function Adds(op: Op, key: NodeKey, q: Quantity): nat {
    var m := op.metrics;
    var childless, group := m.timePs == m.selfTimePs, key.CategoryKey? || key.DeduplicatedKey? || key.LeafKey?;
    match q
    case TimePs => m.selfTimePs
    case SelfTimePs => m.selfTimePs
    case NormalizedTimePs => m.normalizedTimePs
    case Occurrences => if childless && group then m.occurrences else 0
    case Flops => if childless then m.flops else 0
    case ModelFlops => if childless then m.modelFlops else 0
    case FlopsV2 => if childless then m.flopsV2 else 0
    case ModelFlopsV2 => if childless then m.modelFlopsV2 else 0
    case BytesAccessed => if childless then m.bytesAccessed else 0
    case DmaStallPs => if childless then m.dmaStallPs else 0
    case MemoryBytes(memory) => if childless then BytesOf(m.memory, memory) else 0
  }

  function TakenIn(o: Options, ops: seq<Op>, key: NodeKey, q: Quantity): nat {
    if ops == [] then 0
    else
      var n := |ops| - 1;
      TakenIn(o, ops[..n], key, q) + if Takes(o, ops[n], n, key) then Adds(ops[n], key, q) else 0
  }

  /** A node's total is what the operations it accounts for add to it. */
  lemma {:induction false} TotalIsTakenIn(o: Options, ops: seq<Op>, key: NodeKey, q: Quantity)
    ensures Total(o, ops, key, q) == TakenIn(o, ops, key, q)
    decreases |ops|
  {
    if ops != [] {
      var n := |ops| - 1;
      TotalIsTakenIn(o, ops[..n], key, q);
      PlaceIsRight(o, ops[n], n, key);
      AddsContribution(ops[n], key, q);
    }
  }

  lemma AddsContribution(op: Op, key: NodeKey, q: Quantity)
    ensures Contribution(op, key, q) == Adds(op, key, q)
  {
  }
}
