/** Op profiles: where each operation is accounted, and what every node adds up to. */
module OpProfileTree {
  import opened Collections
  import opened MemoryBreakdown

  datatype Grouping = ByProgram | ByCategory | ByProvenance

  datatype Options = Options(groupBy: Grouping, groupByDeduplicatedName: bool)

  datatype Metrics = Metrics(timePs: nat, selfTimePs: nat, normalizedTimePs: nat, occurrences: nat,
                             flops: nat, modelFlops: nat, flopsV2: nat, modelFlopsV2: nat,
                             bytesAccessed: nat, dmaStallPs: nat, memory: Breakdown)

  const NoMetrics := Metrics(0, 0, 0, 0, 0, 0, 0, 0, 0, 0, [])

  /** Everything that is added up. */
  datatype Quantity = TimePs | SelfTimePs | NormalizedTimePs | Occurrences
                    | Flops | ModelFlops | FlopsV2 | ModelFlopsV2 | BytesAccessed | DmaStallPs
                    | MemoryBytes(key: MemoryBreakdown.Key)

  function Get(m: Metrics, q: Quantity): nat {
    match q
    case TimePs => m.timePs
    case SelfTimePs => m.selfTimePs
    case NormalizedTimePs => m.normalizedTimePs
    case Occurrences => m.occurrences
    case Flops => m.flops
    case ModelFlops => m.modelFlops
    case FlopsV2 => m.flopsV2
    case ModelFlopsV2 => m.modelFlopsV2
    case BytesAccessed => m.bytesAccessed
    case DmaStallPs => m.dmaStallPs
    case MemoryBytes(key) => BytesOf(m.memory, key)
  }

  predicate IsTime(q: Quantity) {
    q.TimePs? || q.SelfTimePs? || q.NormalizedTimePs?
  }

  /** An operation. Its provenance, when it has one, comes as a path of names. */
  datatype Op = Op(hloName: string, programId: nat, category: string, deduplicatedName: string,
                   provenance: Option<seq<string>>, metrics: Metrics)

  predicate IsIdleOp(op: Op) {
    op.category == "IDLE"
  }

  /** An operation whose time is not all its own has child operations. */
  predicate HasChildren(op: Op) {
    op.metrics.timePs != op.metrics.selfTimePs
  }

  // Nodes, known by their place in the tree.

  datatype NodeKey =
    | RootKey
    | ProgramKey(parent: NodeKey, id: nat)
    | ProvenanceKey(parent: NodeKey, name: string)
    | CategoryKey(parent: NodeKey, viaProvenance: bool, category: string)
    | DeduplicatedKey(parent: NodeKey, name: string)
    | LeafKey(parent: NodeKey, op: nat)

  /** Categories, groups of duplicates and leaves only take in childless operations. */
  predicate IsGroup(key: NodeKey) {
    key.CategoryKey? || key.DeduplicatedKey? || key.LeafKey?
  }

  function Ancestors(key: NodeKey): set<NodeKey> {
    if key.RootKey? then {key} else {key} + Ancestors(key.parent)
  }

  predicate GroupsByProgram(o: Options) {
    o.groupBy != ByCategory
  }

  function TopKey(o: Options, op: Op): NodeKey {
    if !IsIdleOp(op) && GroupsByProgram(o) then ProgramKey(RootKey, op.programId) else RootKey
  }

  function ProvenancePath(parent: NodeKey, parts: seq<string>): NodeKey {
    if parts == [] then parent
    else ProvenanceKey(ProvenancePath(parent, parts[..|parts| - 1]), parts[|parts| - 1])
  }

  predicate ViaProvenance(o: Options, op: Op) {
    o.groupBy == ByProvenance && op.provenance.Some?
  }

  function PathKey(o: Options, op: Op): NodeKey {
    if ViaProvenance(o, op) then ProvenancePath(TopKey(o, op), op.provenance.value) else TopKey(o, op)
  }

  function CategoryOf(o: Options, op: Op): NodeKey {
    CategoryKey(PathKey(o, op), ViaProvenance(o, op), op.category)
  }

  function DeduplicatedNameOf(op: Op): string {
    if op.deduplicatedName == "" then op.hloName else op.deduplicatedName
  }

  function GroupKey(o: Options, op: Op): NodeKey {
    if IsIdleOp(op) then RootKey
    else if o.groupByDeduplicatedName then DeduplicatedKey(CategoryOf(o, op), DeduplicatedNameOf(op))
    else CategoryOf(o, op)
  }

  /** The deepest node that accounts for the `k`-th operation: its own leaf if it is
      childless. All ancestors of that node account for it too. */
  function Place(o: Options, op: Op, k: nat): NodeKey {
    if HasChildren(op) then TopKey(o, op) else LeafKey(GroupKey(o, op), k)
  }

  /** What an operation adds to a node that accounts for it. */
  function Contribution(op: Op, key: NodeKey, q: Quantity): nat {
    if q.TimePs? then op.metrics.selfTimePs
    else if IsTime(q) then Get(op.metrics, q)
    else if HasChildren(op) || (q.Occurrences? && !IsGroup(key)) then 0
    else Get(op.metrics, q)
  }

  function Part(o: Options, op: Op, k: nat, key: NodeKey, q: Quantity): nat {
    if key in Ancestors(Place(o, op, k)) then Contribution(op, key, q) else 0
  }

  /** What all operations add to a node. */
  function Total(o: Options, ops: seq<Op>, key: NodeKey, q: Quantity): nat {
    if ops == [] then 0
    else Total(o, ops[..|ops| - 1], key, q) + Part(o, ops[|ops| - 1], |ops| - 1, key, q)
  }

  /** All nodes the operations call for. */
  function Nodes(o: Options, ops: seq<Op>): set<NodeKey> {
    if ops == [] then {RootKey}
    else Nodes(o, ops[..|ops| - 1]) + Ancestors(Place(o, ops[|ops| - 1], |ops| - 1))
  }

  function Children(o: Options, ops: seq<Op>, key: NodeKey): set<NodeKey> {
    set c | c in Nodes(o, ops) && !c.RootKey? && c.parent == key
  }

  /** What operations add to the node where they have their place, and to none of its children. */
  function Kept(o: Options, ops: seq<Op>, key: NodeKey, q: Quantity): nat {
    if ops == [] then 0
    else
      var n := |ops| - 1;
      Kept(o, ops[..n], key, q) + if Place(o, ops[n], n) == key then Contribution(ops[n], key, q) else 0
  }

  function Depth(key: NodeKey): nat {
    if key.RootKey? then 0 else 1 + Depth(key.parent)
  }

  lemma {:induction false} AncestorsAreHigher(key: NodeKey, a: NodeKey)
    requires a in Ancestors(key)
    ensures Depth(a) <= Depth(key) && (a == key || Depth(a) < Depth(key))
    ensures !a.RootKey? ==> a.parent in Ancestors(key)
  {
    if a != key { AncestorsAreHigher(key.parent, a); } else if !key.RootKey? { Self(key.parent); }
  }

  lemma Self(key: NodeKey)
    ensures key in Ancestors(key)
  {
  }

  /** Between a node and one of its descendants lies exactly one of its children. */
  lemma {:induction false} ChildToward(key: NodeKey, place: NodeKey) returns (child: NodeKey)
    requires key in Ancestors(place) && key != place
    ensures child in Ancestors(place) && !child.RootKey? && child.parent == key
    ensures forall c :: c in Ancestors(place) && !c.RootKey? && c.parent == key ==> c == child
  {
    Self(place);
    if place.parent == key {
      child := place;
      forall c | c in Ancestors(place) && !c.RootKey? && c.parent == key ensures c == child {
        if c != place { AncestorsAreHigher(place.parent, c); }
      }
    } else {
      child := ChildToward(key, place.parent);
    }
  }

  lemma NoChildAbove(key: NodeKey, place: NodeKey, c: NodeKey)
    requires c in Ancestors(place) && !c.RootKey? && c.parent == key
    ensures key in Ancestors(place) && key != place
  {
    AncestorsAreHigher(place, c);
  }

  lemma {:induction false} OutsideIsZero(o: Options, ops: seq<Op>, key: NodeKey, q: Quantity)
    requires key !in Nodes(o, ops)
    ensures Total(o, ops, key, q) == 0
    decreases |ops|
  {
    if ops != [] { OutsideIsZero(o, ops[..|ops| - 1], key, q); }
  }

  function TotalsOf(o: Options, ops: seq<Op>, q: Quantity): NodeKey -> int {
    (key: NodeKey) => Total(o, ops, key, q)
  }

  /** The children of a node after one more operation. */
  lemma ChildrenStep(o: Options, ops: seq<Op>, op: Op, key: NodeKey, place: NodeKey)
    requires place == Place(o, op, |ops|)
    ensures key in Ancestors(place) && key != place ==>
              exists child :: IsChildToward(child, key, place)
                           && Children(o, ops + [op], key) == Children(o, ops, key) + {child}
    ensures key !in Ancestors(place) || key == place ==> Children(o, ops + [op], key) == Children(o, ops, key)
  {
    assert (ops + [op])[..|ops|] == ops;
    if key in Ancestors(place) && key != place {
      var child := ChildToward(key, place);
      assert IsChildToward(child, key, place);
      assert Children(o, ops + [op], key) == Children(o, ops, key) + {child};
    } else {
      forall c | c in Ancestors(place) && !c.RootKey? && c.parent == key ensures false {
        NoChildAbove(key, place, c);
      }
    }
  }

  ghost predicate IsChildToward(child: NodeKey, key: NodeKey, place: NodeKey) {
    && child in Ancestors(place) && !child.RootKey? && child.parent == key
    && forall c :: c in Ancestors(place) && !c.RootKey? && c.parent == key ==> c == child
  }

  lemma TotalStep(o: Options, ops: seq<Op>, op: Op, key: NodeKey, q: Quantity)
    ensures Total(o, ops + [op], key, q) == Total(o, ops, key, q) + Part(o, op, |ops|, key, q)
  {
    assert (ops + [op])[..|ops|] == ops;
  }

  /** One more operation adds the same to the children of a node as to the node,
      unless it has its place there. */
  lemma ChildrenGrow(o: Options, ops: seq<Op>, op: Op, key: NodeKey, q: Quantity)
    requires q.Occurrences? ==> IsGroup(key)
    ensures SumOver(Children(o, ops + [op], key), TotalsOf(o, ops + [op], q))
         == SumOver(Children(o, ops, key), TotalsOf(o, ops, q))
            + if Place(o, op, |ops|) == key then 0 else Part(o, op, |ops|, key, q)
  {
    var place, before := Place(o, op, |ops|), Children(o, ops, key);
    ChildrenStep(o, ops, op, key, place);
    if key in Ancestors(place) && key != place {
      var child :| IsChildToward(child, key, place) && Children(o, ops + [op], key) == before + {child};
      SamePart(o, op, |ops|, key, child, q);
      if child !in before { OutsideIsZero(o, ops, child, q); }
      GrowToward(o, ops, op, key, q, before, child);
    } else {
      GrowElsewhere(o, ops, op, key, q, before);
    }
  }

  lemma GrowToward(o: Options, ops: seq<Op>, op: Op, key: NodeKey, q: Quantity, before: set<NodeKey>, child: NodeKey)
    requires IsChildToward(child, key, Place(o, op, |ops|))
    requires forall c :: c in before ==> !c.RootKey? && c.parent == key
    requires child in before || Total(o, ops, child, q) == 0
    ensures SumOver(before + {child}, TotalsOf(o, ops + [op], q))
         == SumOver(before, TotalsOf(o, ops, q)) + Part(o, op, |ops|, child, q)
  {
    var was, now := TotalsOf(o, ops, q), TotalsOf(o, ops + [op], q);
    forall c | c in before && c != child ensures now(c) == was(c) {
      TotalStep(o, ops, op, c, q);
    }
    TotalStep(o, ops, op, child, q);
    OneGrows(before, child, was, now);
  }

  lemma GrowElsewhere(o: Options, ops: seq<Op>, op: Op, key: NodeKey, q: Quantity, before: set<NodeKey>)
    requires key !in Ancestors(Place(o, op, |ops|)) || key == Place(o, op, |ops|)
    requires forall c :: c in before ==> !c.RootKey? && c.parent == key
    ensures SumOver(before, TotalsOf(o, ops + [op], q)) == SumOver(before, TotalsOf(o, ops, q))
  {
    var was, now := TotalsOf(o, ops, q), TotalsOf(o, ops + [op], q);
    forall c | c in before ensures now(c) == was(c) {
      TotalStep(o, ops, op, c, q);
      if c in Ancestors(Place(o, op, |ops|)) { NoChildAbove(key, Place(o, op, |ops|), c); }
    }
    SumOverEqual(before, now, was);
  }

  lemma SamePart(o: Options, op: Op, k: nat, key: NodeKey, child: NodeKey, q: Quantity)
    requires IsChildToward(child, key, Place(o, op, k)) && (q.Occurrences? ==> IsGroup(key))
    ensures Part(o, op, k, child, q) == Part(o, op, k, key, q)
  {
    GroupsBelow(o, op, k, key, child);
    NoChildAbove(key, Place(o, op, k), child);
  }

  lemma OneGrows<K>(keys: set<K>, x: K, was: K -> int, now: K -> int)
    requires forall k :: k in keys && k != x ==> now(k) == was(k)
    requires x in keys || was(x) == 0
    ensures SumOver(keys + {x}, now) == SumOver(keys, was) + now(x) - was(x)
  {
    SumOverPick(keys + {x}, x, now);
    assert keys + {x} - {x} == keys - {x};
    SumOverEqual(keys - {x}, was, now);
    if x in keys {
      SumOverPick(keys, x, was);
    } else {
      assert keys - {x} == keys;
    }
  }

  // Below a group there are only groups.

  predicate GroupsSink(key: NodeKey) {
    key.RootKey? || ((IsGroup(key.parent) ==> IsGroup(key)) && GroupsSink(key.parent))
  }

  lemma {:induction false} GroupsSinkAbove(key: NodeKey, a: NodeKey)
    requires GroupsSink(key) && a in Ancestors(key)
    ensures GroupsSink(a)
  {
    if a != key { GroupsSinkAbove(key.parent, a); }
  }

  lemma {:induction false} PathHasNoGroups(parent: NodeKey, parts: seq<string>)
    requires GroupsSink(parent) && !IsGroup(parent)
    ensures GroupsSink(ProvenancePath(parent, parts)) && !IsGroup(ProvenancePath(parent, parts))
    decreases |parts|
  {
    if parts != [] { PathHasNoGroups(parent, parts[..|parts| - 1]); }
  }

  lemma GroupsBelow(o: Options, op: Op, k: nat, key: NodeKey, child: NodeKey)
    requires child in Ancestors(Place(o, op, k)) && !child.RootKey? && child.parent == key
    ensures IsGroup(key) ==> IsGroup(child)
  {
    if op.provenance.Some? { PathHasNoGroups(TopKey(o, op), op.provenance.value); }
    assert GroupsSink(PathKey(o, op));
    assert GroupsSink(Place(o, op, k));
    GroupsSinkAbove(Place(o, op, k), child);
  }

  /** Every node adds up to its children, and to what the operations keep that have
      their place at the node itself. */
  lemma {:induction false} NodeIsSumOfChildren(o: Options, ops: seq<Op>, key: NodeKey, q: Quantity)
    requires q.Occurrences? ==> IsGroup(key)
    ensures Total(o, ops, key, q)
         == SumOver(Children(o, ops, key), TotalsOf(o, ops, q)) + Kept(o, ops, key, q)
    decreases |ops|
  {
    if ops == [] {
      assert Children(o, ops, key) == {};
    } else {
      var n := |ops| - 1;
      NodeIsSumOfChildren(o, ops[..n], key, q);
      ChildrenGrow(o, ops[..n], ops[n], key, q);
      assert ops[..n] + [ops[n]] == ops;
      Self(Place(o, ops[n], n));
    }
  }

  /** Nothing but time stays behind at a node that is not a leaf. */
  lemma {:induction false} OnlyTimeIsKept(o: Options, ops: seq<Op>, key: NodeKey, q: Quantity)
    requires !key.LeafKey? && !IsTime(q)
    ensures Kept(o, ops, key, q) == 0
    decreases |ops|
  {
    if ops != [] { OnlyTimeIsKept(o, ops[..|ops| - 1], key, q); }
  }

  /** Flops and bytes are conserved at every node that is not a leaf. */
  lemma QuantitiesAreConserved(o: Options, ops: seq<Op>, key: NodeKey, q: Quantity)
    requires !key.LeafKey? && !IsTime(q) && (q.Occurrences? ==> IsGroup(key))
    ensures Total(o, ops, key, q) == SumOver(Children(o, ops, key), TotalsOf(o, ops, q))
  {
    NodeIsSumOfChildren(o, ops, key, q);
    OnlyTimeIsKept(o, ops, key, q);
  }

  /** The own time of the operations with children that are counted at a node. */
  function ParentTime(o: Options, ops: seq<Op>, key: NodeKey): nat {
    if ops == [] then 0
    else
      var op := ops[|ops| - 1];
      ParentTime(o, ops[..|ops| - 1], key)
      + if HasChildren(op) && TopKey(o, op) == key then op.metrics.selfTimePs else 0
  }

  lemma {:induction false} KeptTime(o: Options, ops: seq<Op>, key: NodeKey)
    requires !key.LeafKey?
    ensures Kept(o, ops, key, TimePs) == ParentTime(o, ops, key)
    decreases |ops|
  {
    if ops != [] { KeptTime(o, ops[..|ops| - 1], key); }
  }

  /** The time of a node exceeds that of its children by exactly the own time of the
      operations with children that end there: at programs those of the program, at
      the root the idle ones, or all of them when nothing is grouped by program. */
  lemma TimeExceedsByParents(o: Options, ops: seq<Op>, key: NodeKey)
    requires !key.LeafKey?
    ensures Total(o, ops, key, TimePs)
         == SumOver(Children(o, ops, key), TotalsOf(o, ops, TimePs)) + ParentTime(o, ops, key)
  {
    NodeIsSumOfChildren(o, ops, key, TimePs);
    KeptTime(o, ops, key);
  }

  // Which operations a node accounts for.

  /** The nodes that account for an operation, from its place to the root. */
  lemma PlaceAncestors(o: Options, op: Op, k: nat)
    ensures Ancestors(TopKey(o, op)) == {TopKey(o, op), RootKey}
    ensures Ancestors(Place(o, op, k))
         == if HasChildren(op) then Ancestors(TopKey(o, op))
            else if IsIdleOp(op) then {Place(o, op, k), RootKey}
            else {Place(o, op, k)} + {GroupKey(o, op)} + {CategoryOf(o, op)} + Ancestors(PathKey(o, op))
  {
    assert Ancestors(CategoryOf(o, op)) == {CategoryOf(o, op)} + Ancestors(PathKey(o, op));
    if !IsIdleOp(op) && o.groupByDeduplicatedName {
      assert Ancestors(GroupKey(o, op)) == {GroupKey(o, op)} + Ancestors(CategoryOf(o, op));
    }
    assert !HasChildren(op) ==> Ancestors(Place(o, op, k)) == {Place(o, op, k)} + Ancestors(GroupKey(o, op));
  }

  lemma {:induction false} GroupsReachDown(key: NodeKey, a: NodeKey)
    requires GroupsSink(key) && a in Ancestors(key) && IsGroup(a)
    ensures IsGroup(key)
  {
    if a != key { GroupsReachDown(key.parent, a); }
  }

  lemma PathIsNoGroup(o: Options, op: Op)
    ensures GroupsSink(PathKey(o, op)) && !IsGroup(PathKey(o, op))
    ensures forall a :: a in Ancestors(PathKey(o, op)) ==> !IsGroup(a)
  {
    if op.provenance.Some? { PathHasNoGroups(TopKey(o, op), op.provenance.value); }
    forall a | a in Ancestors(PathKey(o, op)) ensures !IsGroup(a) {
      if IsGroup(a) { GroupsReachDown(PathKey(o, op), a); }
    }
  }

  lemma {:induction false} PathAncestors(parent: NodeKey, parts: seq<string>, key: NodeKey)
    ensures key in Ancestors(ProvenancePath(parent, parts))
       <==> key in Ancestors(parent) || exists n :: 0 < n <= |parts| && key == ProvenancePath(parent, parts[..n])
    decreases |parts|
  {
    if parts != [] {
      var m := |parts| - 1;
      PathAncestors(parent, parts[..m], key);
      assert parts[..|parts|] == parts;
      forall n | 0 < n <= m ensures parts[..m][..n] == parts[..n] {}
    }
  }

  lemma {:induction false} PathsAreUnique(parent: NodeKey, a: seq<string>, other: NodeKey, b: seq<string>)
    requires !parent.ProvenanceKey? && !other.ProvenanceKey?
    requires ProvenancePath(parent, a) == ProvenancePath(other, b)
    ensures a == b && parent == other
    decreases |a|
  {
    if a != [] && b != [] {
      PathsAreUnique(parent, a[..|a| - 1], other, b[..|b| - 1]);
      assert a == a[..|a| - 1] + [a[|a| - 1]] && b == b[..|b| - 1] + [b[|b| - 1]];
    }
  }

  /** The root accounts for every operation, a program for its own that are not idle. */
  lemma TopNodesAccount(o: Options, op: Op, k: nat, id: nat)
    ensures RootKey in Ancestors(Place(o, op, k))
    ensures ProgramKey(RootKey, id) in Ancestors(Place(o, op, k))
       <==> (o.groupBy == ByProgram || o.groupBy == ByProvenance) && op.category != "IDLE" && op.programId == id
  {
    PlaceAncestors(o, op, k);
    if op.provenance.Some? {
      PathAncestors(TopKey(o, op), op.provenance.value, RootKey);
      PathAncestors(TopKey(o, op), op.provenance.value, ProgramKey(RootKey, id));
    }
  }

  /** A provenance node accounts for exactly the childless operations of its program
      whose provenance begins with its path. */
  lemma ProvenanceNodeAccounts(o: Options, op: Op, k: nat, id: nat, path: seq<string>)
    requires path != []
    ensures ProvenancePath(ProgramKey(RootKey, id), path) in Ancestors(Place(o, op, k))
       <==> o.groupBy == ByProvenance && !HasChildren(op) && !IsIdleOp(op) && op.programId == id
            && op.provenance.Some? && path <= op.provenance.value
  {
    var key := ProvenancePath(ProgramKey(RootKey, id), path);
    PlaceAncestors(o, op, k);
    if !HasChildren(op) && !IsIdleOp(op) && ViaProvenance(o, op) {
      var parts := op.provenance.value;
      PathAncestors(TopKey(o, op), parts, key);
      forall n | 0 < n <= |parts| && key == ProvenancePath(TopKey(o, op), parts[..n])
        ensures path == parts[..n] && op.programId == id
      {
        PathsAreUnique(ProgramKey(RootKey, id), path, TopKey(o, op), parts[..n]);
      }
      if path <= parts { assert path == parts[..|path|]; }
    }
  }

  /** A category accounts for exactly the childless operations of that category at its place. */
  lemma CategoryAccounts(o: Options, op: Op, k: nat, parent: NodeKey, viaProvenance: bool, category: string)
    ensures CategoryKey(parent, viaProvenance, category) in Ancestors(Place(o, op, k))
       <==> !HasChildren(op) && !IsIdleOp(op) && op.category == category
            && parent == PathKey(o, op) && viaProvenance == ViaProvenance(o, op)
  {
    PlaceAncestors(o, op, k);
    PathIsNoGroup(o, op);
  }

  /** A group of duplicates accounts for exactly the childless operations of its
      category that go by its name. */
  lemma DeduplicatedAccounts(o: Options, op: Op, k: nat, category: NodeKey, name: string)
    ensures DeduplicatedKey(category, name) in Ancestors(Place(o, op, k))
       <==> o.groupByDeduplicatedName && !HasChildren(op) && !IsIdleOp(op)
            && category == CategoryOf(o, op) && name == DeduplicatedNameOf(op)
  {
    PlaceAncestors(o, op, k);
    PathIsNoGroup(o, op);
  }
}
