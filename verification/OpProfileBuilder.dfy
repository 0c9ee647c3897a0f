/** Building an op profile: nodes are looked up or added, and their metrics grow. */
module OpProfileBuilding {
  import opened MemoryBreakdown
  import opened OpProfileTree

  /** A node; nodes are numbered in the order in which they are added. */
  datatype Node = Node(name: string, children: seq<nat>)

  type NameMap = map<(nat, string), nat>

  /** The tables in which nodes are found by the node above them and a name. */
  datatype Table = ProvenanceTable | CategoryTable | ProvenanceCategoryTable | DeduplicatedTable

  function Entry(t: Table, parent: NodeKey, name: string): NodeKey {
    match t
    case ProvenanceTable => ProvenanceKey(parent, name)
    case CategoryTable => CategoryKey(parent, false, name)
    case ProvenanceCategoryTable => CategoryKey(parent, true, name)
    case DeduplicatedTable => DeduplicatedKey(parent, name)
  }

  predicate BelongsIn(key: NodeKey, t: Table) {
    match t
    case ProvenanceTable => key.ProvenanceKey?
    case CategoryTable => key.CategoryKey? && !key.viaProvenance
    case ProvenanceCategoryTable => key.CategoryKey? && key.viaProvenance
    case DeduplicatedTable => key.DeduplicatedKey?
  }

  ghost predicate NoKeyTwice(keys: seq<NodeKey>) {
    forall i, j :: 0 <= i < j < |keys| ==> keys[i] != keys[j]
  }

  ghost predicate NoDuplicates(s: seq<nat>) {
    forall i, j :: 0 <= i < j < |s| ==> s[i] != s[j]
  }

  predicate IsChild(keys: seq<NodeKey>, n: nat, c: nat)
    requires n < |keys|
  {
    c < |keys| && !keys[c].RootKey? && keys[c].parent == keys[n]
  }

  /** Every node but the first hangs below the node its key names, and only there. */
  ghost predicate IsTree(nodes: seq<Node>, keys: seq<NodeKey>) {
    && |nodes| == |keys| > 0 && keys[0] == RootKey && NoKeyTwice(keys)
    && (forall c :: 0 < c < |keys| ==> !keys[c].RootKey? && keys[c].parent in keys)
    && (forall n :: 0 <= n < |nodes| ==> NoDuplicates(nodes[n].children))
    && (forall n, c: nat :: 0 <= n < |nodes| ==> (c in nodes[n].children <==> IsChild(keys, n, c)))
  }

  function WithChild(nodes: seq<Node>, p: nat, name: string): seq<Node>
    requires p < |nodes|
  {
    nodes[p := nodes[p].(children := nodes[p].children + [|nodes|])] + [Node(name, [])]
  }

  function RootName(o: Options): string {
    match o.groupBy
    case ByProgram => "by_program"
    case ByProvenance => "by_provenance"
    case ByCategory => "by_category"
  }

  /** The name of a program, with its number, or that of any unknown one. */
  function ProgramName(programNames: map<nat, string>, id: nat): string {
    if id in programNames then programNames[id] else "main"
  }

  /** The root is named after the grouping, a program as the map of programs says. A
      category, provenance node or group of duplicates goes by the name in its key, a
      leaf by that of its operation. */
  predicate IsNamed(o: Options, programNames: map<nat, string>, node: Node, key: NodeKey, ops: seq<Op>) {
    match key
    case RootKey =>
      && (node.name == "by_program" <==> o.groupBy == ByProgram)
      && (node.name == "by_provenance" <==> o.groupBy == ByProvenance)
      && (node.name == "by_category" <==> o.groupBy == ByCategory)
    case ProgramKey(_, id) =>
      (id in programNames ==> node.name == programNames[id]) && (id !in programNames ==> node.name == "main")
    case CategoryKey(_, _, category) => node.name == category
    case ProvenanceKey(_, name) => node.name == name
    case DeduplicatedKey(_, name) => node.name == name
    case LeafKey(_, k) => k < |ops| && node.name == ops[k].hloName
  }

  ghost predicate AreNamed(o: Options, programNames: map<nat, string>, nodes: seq<Node>, keys: seq<NodeKey>,
                           ops: seq<Op>) {
    |nodes| == |keys| && forall n :: 0 <= n < |nodes| ==> IsNamed(o, programNames, nodes[n], keys[n], ops)
  }

  lemma NamesGrow(o: Options, programNames: map<nat, string>, nodes: seq<Node>, keys: seq<NodeKey>,
                  ops: seq<Op>, p: nat, name: string, key: NodeKey)
    requires AreNamed(o, programNames, nodes, keys, ops) && p < |nodes|
    requires IsNamed(o, programNames, Node(name, []), key, ops)
    ensures AreNamed(o, programNames, WithChild(nodes, p, name), keys + [key], ops)
  {
  }

  /** Below a key that is not there yet there is nothing. */
  lemma NothingBelow(nodes: seq<Node>, keys: seq<NodeKey>, key: NodeKey, c: NodeKey)
    requires IsTree(nodes, keys) && key !in keys && c in keys && !c.RootKey?
    ensures c.parent != key
  {
    var k :| 0 <= k < |keys| && keys[k] == c;
    assert keys[k].parent in keys;
  }

  lemma ChildrenGrow(nodes: seq<Node>, keys: seq<NodeKey>, p: nat, name: string, key: NodeKey, n: nat, c: nat)
    requires IsTree(nodes, keys) && p < |nodes| && !key.RootKey? && key.parent == keys[p] && key !in keys
    requires n <= |nodes|
    ensures c in WithChild(nodes, p, name)[n].children <==> IsChild(keys + [key], n, c)
  {
    if n < |nodes| {
      assert c in nodes[n].children <==> IsChild(keys, n, c);
      assert c == |keys| ==> (keys[n] == keys[p] <==> n == p);
    } else if c < |keys| && !keys[c].RootKey? {
      NothingBelow(nodes, keys, key, keys[c]);
    }
  }

  lemma TreeGrows(nodes: seq<Node>, keys: seq<NodeKey>, p: nat, name: string, key: NodeKey)
    requires IsTree(nodes, keys) && p < |nodes| && !key.RootKey? && key.parent == keys[p] && key !in keys
    ensures IsTree(WithChild(nodes, p, name), keys + [key])
  {
    var after, more := WithChild(nodes, p, name), keys + [key];
    assert |nodes| !in nodes[p].children by { assert !IsChild(keys, p, |nodes|); }
    forall c | 0 < c < |more| ensures !more[c].RootKey? && more[c].parent in more {
      if c < |keys| { assert keys[c].parent in keys; }
    }
    forall n, c: nat | 0 <= n < |after| ensures c in after[n].children <==> IsChild(more, n, c) {
      ChildrenGrow(nodes, keys, p, name, key, n, c);
    }
  }

  /** The table finds each of its nodes, and nothing else. */
  ghost predicate Finds(t: Table, m: NameMap, keys: seq<NodeKey>) {
    && (forall e :: e in m ==> e.0 < |keys| && m[e] < |keys| && keys[m[e]] == Entry(t, keys[e.0], e.1))
    && (forall p, name :: 0 <= p < |keys| && Entry(t, keys[p], name) in keys ==> (p, name) in m)
  }

  ghost predicate FindsPrograms(m: map<nat, nat>, keys: seq<NodeKey>) {
    && (forall id :: id in m ==> m[id] < |keys| && keys[m[id]] == ProgramKey(RootKey, id))
    && (forall id: nat :: ProgramKey(RootKey, id) in keys ==> id in m)
  }

  lemma StillFinds(t: Table, m: NameMap, nodes: seq<Node>, keys: seq<NodeKey>, key: NodeKey)
    requires Finds(t, m, keys) && IsTree(nodes, keys) && key !in keys && !BelongsIn(key, t)
    ensures Finds(t, m, keys + [key])
  {
    var more := keys + [key];
    forall p, name | 0 <= p < |more| && Entry(t, more[p], name) in more ensures (p, name) in m {
      assert Entry(t, more[p], name) in keys;
      NothingBelow(nodes, keys, key, Entry(t, more[p], name));
    }
  }

  lemma NowFinds(t: Table, m: NameMap, nodes: seq<Node>, keys: seq<NodeKey>, p: nat, name: string)
    requires Finds(t, m, keys) && IsTree(nodes, keys) && p < |keys| && Entry(t, keys[p], name) !in keys
    ensures Finds(t, m[(p, name) := |keys|], keys + [Entry(t, keys[p], name)])
  {
    var key := Entry(t, keys[p], name);
    var more, after := keys + [key], m[(p, name) := |keys|];
    forall i, other | 0 <= i < |more| && Entry(t, more[i], other) in more ensures (i, other) in after {
      FoundAfter(t, m, nodes, keys, p, name, i, other);
    }
    forall e | e in after ensures e.0 < |more| && after[e] < |more| && more[after[e]] == Entry(t, more[e.0], e.1) {}
  }

  lemma FoundAfter(t: Table, m: NameMap, nodes: seq<Node>, keys: seq<NodeKey>, p: nat, name: string,
                   i: nat, other: string)
    requires Finds(t, m, keys) && IsTree(nodes, keys) && p < |keys| && Entry(t, keys[p], name) !in keys
    requires i <= |keys|
    requires Entry(t, (keys + [Entry(t, keys[p], name)])[i], other) in keys + [Entry(t, keys[p], name)]
    ensures (i, other) in m || (i == p && other == name)
  {
    var key := Entry(t, keys[p], name);
    var entry := Entry(t, (keys + [key])[i], other);
    if entry in keys {
      NothingBelow(nodes, keys, key, entry);
    } else {
      assert entry == key;
      assert entry.parent == keys[p];
    }
  }

  lemma ProgramsStillFound(m: map<nat, nat>, keys: seq<NodeKey>, key: NodeKey)
    requires FindsPrograms(m, keys) && !key.ProgramKey?
    ensures FindsPrograms(m, keys + [key])
  {
    forall id: nat | ProgramKey(RootKey, id) in keys + [key] ensures id in m {
      assert ProgramKey(RootKey, id) in keys;
    }
  }

  /** Takes an operation into a node above groups: its own time always, everything
      else only if it is childless. */
  method UpdateNodeMetrics(op: Op, parent: Metrics) returns (updated: Metrics)
    ensures forall q, key :: !IsGroup(key) ==> Get(updated, q) == Get(parent, q) + Contribution(op, key, q)
    ensures updated.memory == if HasChildren(op) then parent.memory else Merge(op.metrics.memory, parent.memory, false)
  {
    var child := op.metrics;
    updated := parent.(timePs := child.selfTimePs + parent.timePs,
                       normalizedTimePs := child.normalizedTimePs + parent.normalizedTimePs,
                       selfTimePs := child.selfTimePs + parent.selfTimePs);
    if !HasChildren(op) {
      updated := AddAmounts(child, updated);
    }
  }

  /** Two sets of metrics added up, but for times and occurrences. */
  function SumOfAmounts(child: Metrics, parent: Metrics, memory: Breakdown): Metrics {
    parent.(flops := child.flops + parent.flops,
            modelFlops := child.modelFlops + parent.modelFlops,
            flopsV2 := child.flopsV2 + parent.flopsV2,
            modelFlopsV2 := child.modelFlopsV2 + parent.modelFlopsV2,
            bytesAccessed := child.bytesAccessed + parent.bytesAccessed,
            dmaStallPs := child.dmaStallPs + parent.dmaStallPs,
            memory := memory)
  }

  lemma AmountsAdd(child: Metrics, parent: Metrics, q: Quantity)
    ensures Get(SumOfAmounts(child, parent, Merge(child.memory, parent.memory, false)), q)
         == Get(parent, q) + if IsTime(q) || q.Occurrences? then 0 else Get(child, q)
  {
    if q.MemoryBytes? { MergeAddsBytes(child.memory, parent.memory, false, q.key); }
  }

  method AddAmounts(child: Metrics, parent: Metrics) returns (updated: Metrics)
    ensures forall q :: Get(updated, q) == Get(parent, q) + if IsTime(q) || q.Occurrences? then 0 else Get(child, q)
    ensures updated.memory == Merge(child.memory, parent.memory, false)
  {
    var memory := CombineMemoryAccessed(child.memory, parent.memory);
    updated := SumOfAmounts(child, parent, memory);
    forall q ensures Get(updated, q) == Get(parent, q) + if IsTime(q) || q.Occurrences? then 0 else Get(child, q) {
      AmountsAdd(child, parent, q);
    }
  }

  /** Takes a childless operation into a group. */
  method CombineFlatOpMetricsToOpMetrics(op: Op, dst: Metrics) returns (combined: Metrics)
    requires !HasChildren(op)
    ensures forall q, key :: IsGroup(key) ==> Get(combined, q) == Get(dst, q) + Contribution(op, key, q)
    ensures combined.memory == Merge(op.metrics.memory, dst.memory, false)
  {
    var src := op.metrics;
    combined := AddAmounts(src, dst);
    combined := combined.(timePs := src.timePs + dst.timePs,
                          selfTimePs := src.selfTimePs + dst.selfTimePs,
                          normalizedTimePs := src.normalizedTimePs + dst.normalizedTimePs,
                          occurrences := src.occurrences + dst.occurrences);
  }

  /** All the tables of a builder. */
  datatype Tables = Tables(programs: map<nat, nat>, categories: NameMap, provenanceCategories: NameMap,
                           provenanceChildren: NameMap, deduplicated: NameMap)

  function TableOf(tables: Tables, t: Table): NameMap {
    match t
    case ProvenanceTable => tables.provenanceChildren
    case CategoryTable => tables.categories
    case ProvenanceCategoryTable => tables.provenanceCategories
    case DeduplicatedTable => tables.deduplicated
  }

  function WithEntry(tables: Tables, t: Table, entry: (nat, string), n: nat): Tables {
    match t
    case ProvenanceTable => tables.(provenanceChildren := tables.provenanceChildren[entry := n])
    case CategoryTable => tables.(categories := tables.categories[entry := n])
    case ProvenanceCategoryTable => tables.(provenanceCategories := tables.provenanceCategories[entry := n])
    case DeduplicatedTable => tables.(deduplicated := tables.deduplicated[entry := n])
  }

  /** A tree whose nodes are all found in their tables. */
  ghost predicate IsIndexed(nodes: seq<Node>, keys: seq<NodeKey>, tables: Tables) {
    && IsTree(nodes, keys) && FindsPrograms(tables.programs, keys)
    && forall t: Table :: Finds(t, TableOf(tables, t), keys)
  }

  lemma FoundIffPresent(nodes: seq<Node>, keys: seq<NodeKey>, tables: Tables, t: Table, p: nat, name: string)
    requires IsIndexed(nodes, keys, tables) && p < |keys|
    ensures var m := TableOf(tables, t);
      && ((p, name) in m <==> Entry(t, keys[p], name) in keys)
      && ((p, name) in m ==> m[(p, name)] < |keys| && keys[m[(p, name)]] == Entry(t, keys[p], name))
  {
    assert Finds(t, TableOf(tables, t), keys);
  }

  /** Tables that do not list such a node are right as they are. */
  lemma OtherTablesStillFind(nodes: seq<Node>, keys: seq<NodeKey>, tables: Tables, key: NodeKey)
    requires IsIndexed(nodes, keys, tables) && key !in keys
    ensures !key.ProgramKey? ==> FindsPrograms(tables.programs, keys + [key])
    ensures forall t: Table :: !BelongsIn(key, t) ==> Finds(t, TableOf(tables, t), keys + [key])
  {
    if !key.ProgramKey? { ProgramsStillFound(tables.programs, keys, key); }
    forall t: Table | !BelongsIn(key, t) ensures Finds(t, TableOf(tables, t), keys + [key]) {
      StillFinds(t, TableOf(tables, t), nodes, keys, key);
    }
  }

  lemma OneTableChanges(tables: Tables, t: Table, entry: (nat, string), n: nat, other: Table)
    ensures TableOf(WithEntry(tables, t, entry, n), other)
         == if other == t then TableOf(tables, t)[entry := n] else TableOf(tables, other)
    ensures WithEntry(tables, t, entry, n).programs == tables.programs
  {
  }

  lemma EntryAdded(nodes: seq<Node>, keys: seq<NodeKey>, tables: Tables, t: Table, p: nat, name: string)
    requires IsIndexed(nodes, keys, tables) && p < |keys| && Entry(t, keys[p], name) !in keys
    ensures IsIndexed(WithChild(nodes, p, name), keys + [Entry(t, keys[p], name)],
                      WithEntry(tables, t, (p, name), |keys|))
  {
    var key, after := Entry(t, keys[p], name), WithEntry(tables, t, (p, name), |keys|);
    TreeGrows(nodes, keys, p, name, key);
    OtherTablesStillFind(nodes, keys, tables, key);
    forall other: Table ensures Finds(other, TableOf(after, other), keys + [key]) {
      OneTableChanges(tables, t, (p, name), |keys|, other);
      if other == t { EntryFound(nodes, keys, tables, t, p, name); }
    }
    OneTableChanges(tables, t, (p, name), |keys|, t);
  }

  lemma EntryFound(nodes: seq<Node>, keys: seq<NodeKey>, tables: Tables, t: Table, p: nat, name: string)
    requires IsIndexed(nodes, keys, tables) && p < |keys| && Entry(t, keys[p], name) !in keys
    ensures Finds(t, TableOf(tables, t)[(p, name) := |keys|], keys + [Entry(t, keys[p], name)])
  {
    assert Finds(t, TableOf(tables, t), keys);
    NowFinds(t, TableOf(tables, t), nodes, keys, p, name);
  }

  lemma ProgramsAside(tables: Tables, programs: map<nat, nat>, t: Table)
    ensures TableOf(tables.(programs := programs), t) == TableOf(tables, t)
  {
  }

  lemma ProgramAdded(nodes: seq<Node>, keys: seq<NodeKey>, tables: Tables, id: nat, name: string)
    requires IsIndexed(nodes, keys, tables) && ProgramKey(RootKey, id) !in keys
    ensures IsIndexed(WithChild(nodes, 0, name), keys + [ProgramKey(RootKey, id)],
                      tables.(programs := tables.programs[id := |keys|]))
  {
    var key, after := ProgramKey(RootKey, id), tables.(programs := tables.programs[id := |keys|]);
    TreeGrows(nodes, keys, 0, name, key);
    OtherTablesStillFind(nodes, keys, tables, key);
    NowFindsProgram(tables.programs, keys, id);
    forall t: Table ensures Finds(t, TableOf(after, t), keys + [key]) {
      ProgramsAside(tables, after.programs, t);
      assert !BelongsIn(key, t);
    }
  }

  lemma NowFindsProgram(m: map<nat, nat>, keys: seq<NodeKey>, id: nat)
    requires FindsPrograms(m, keys) && ProgramKey(RootKey, id) !in keys
    ensures FindsPrograms(m[id := |keys|], keys + [ProgramKey(RootKey, id)])
  {
  }

  lemma LeafAdded(nodes: seq<Node>, keys: seq<NodeKey>, tables: Tables, p: nat, name: string, key: NodeKey)
    requires IsIndexed(nodes, keys, tables) && p < |keys|
    requires key.LeafKey? && key.parent == keys[p] && key !in keys
    ensures IsIndexed(WithChild(nodes, p, name), keys + [key], tables)
  {
    TreeGrows(nodes, keys, p, name, key);
    OtherTablesStillFind(nodes, keys, tables, key);
    forall t: Table ensures Finds(t, TableOf(tables, t), keys + [key]) { assert !BelongsIn(key, t); }
  }

  // Books kept while an operation is being added.

  function MetricsAt(metrics: map<nat, Metrics>, n: nat): Metrics {
    if n in metrics then metrics[n] else NoMetrics
  }

  /** Every node adds up to its total. */
  ghost predicate Settled(o: Options, ops: seq<Op>, keys: seq<NodeKey>, metrics: map<nat, Metrics>) {
    && (forall n :: n in metrics ==> n < |keys|)
    && forall n: nat, q :: n < |keys| ==> Get(MetricsAt(metrics, n), q) == Total(o, ops, keys[n], q)
  }

  /** As far as they are done, the nodes have also taken in one more operation. */
  ghost predicate Accounts(o: Options, ops: seq<Op>, keys: seq<NodeKey>, metrics: map<nat, Metrics>, op: Op,
                           done: set<NodeKey>) {
    && (forall n :: n in metrics ==> n < |keys|)
    && forall n: nat, q :: n < |keys| ==>
         Get(MetricsAt(metrics, n), q)
         == Total(o, ops, keys[n], q) + if keys[n] in done then Contribution(op, keys[n], q) else 0
  }

  /** The nodes are those of the operations so far and some that account for one more. */
  ghost predicate Reaches(o: Options, ops: seq<Op>, keys: seq<NodeKey>, op: Op, done: set<NodeKey>) {
    && (forall key :: key in Nodes(o, ops) || key in done ==> key in keys)
    && (forall key :: key in keys ==> key in Nodes(o, ops) || key in Ancestors(Place(o, op, |ops|)))
  }

  lemma KeyAdded(o: Options, ops: seq<Op>, keys: seq<NodeKey>, metrics: map<nat, Metrics>, op: Op,
                 done: set<NodeKey>, key: NodeKey)
    requires Accounts(o, ops, keys, metrics, op, done) && Reaches(o, ops, keys, op, done)
    requires key !in keys && key in Ancestors(Place(o, op, |ops|))
    ensures Accounts(o, ops, keys + [key], metrics, op, done) && Reaches(o, ops, keys + [key], op, done)
  {
    var more := keys + [key];
    forall n: nat, q | n < |more|
      ensures Get(MetricsAt(metrics, n), q)
           == Total(o, ops, more[n], q) + if more[n] in done then Contribution(op, more[n], q) else 0
    {
      if n < |keys| { assert more[n] == keys[n]; } else { OutsideIsZero(o, ops, key, q); }
    }
  }

  /** Another node than a leaf leaves the operation without one. */
  lemma StillNoLeaf(o: Options, op: Op, k: nat, keys: seq<NodeKey>, key: NodeKey)
    requires !key.LeafKey? && (HasChildren(op) || Place(o, op, k) !in keys)
    ensures HasChildren(op) || Place(o, op, k) !in keys + [key]
  {
  }

  lemma MetricsGrown(o: Options, ops: seq<Op>, keys: seq<NodeKey>, metrics: map<nat, Metrics>, op: Op,
                     done: set<NodeKey>, n: nat, updated: Metrics)
    requires Accounts(o, ops, keys, metrics, op, done) && NoKeyTwice(keys) && n < |keys| && keys[n] !in done
    requires forall q :: Get(updated, q) == Get(MetricsAt(metrics, n), q) + Contribution(op, keys[n], q)
    ensures Accounts(o, ops, keys, metrics[n := updated], op, done + {keys[n]})
  {
    var after := metrics[n := updated];
    forall m: nat, q | m < |keys|
      ensures Get(MetricsAt(after, m), q)
           == Total(o, ops, keys[m], q) + if keys[m] in done + {keys[n]} then Contribution(op, keys[m], q) else 0
    {
      assert Get(MetricsAt(metrics, m), q)
          == Total(o, ops, keys[m], q) + if keys[m] in done then Contribution(op, keys[m], q) else 0;
    }
  }

  /** Once all its nodes are done, the operation is one of the operations. */
  lemma Settles(o: Options, ops: seq<Op>, keys: seq<NodeKey>, metrics: map<nat, Metrics>, op: Op)
    requires Accounts(o, ops, keys, metrics, op, Ancestors(Place(o, op, |ops|)))
    requires Reaches(o, ops, keys, op, Ancestors(Place(o, op, |ops|)))
    ensures Settled(o, ops + [op], keys, metrics)
    ensures forall key :: key in keys <==> key in Nodes(o, ops + [op])
  {
    assert (ops + [op])[..|ops|] == ops;
    forall n: nat, q | n < |keys| ensures Get(MetricsAt(metrics, n), q) == Total(o, ops + [op], keys[n], q) {
      TotalStep(o, ops, op, keys[n], q);
    }
  }

  lemma {:induction false} LeavesAreNumbered(o: Options, ops: seq<Op>, key: NodeKey)
    requires key in Nodes(o, ops) && key.LeafKey?
    ensures key.op < |ops|
    decreases |ops|
  {
    if ops != [] {
      var n := |ops| - 1;
      PlaceAncestors(o, ops[n], n);
      PathIsNoGroup(o, ops[n]);
      if key in Nodes(o, ops[..n]) { LeavesAreNumbered(o, ops[..n], key); }
    }
  }

  lemma StartIsTree(o: Options)
    ensures IsIndexed([Node(RootName(o), [])], [RootKey], Tables(map[], map[], map[], map[], map[]))
    ensures Settled(o, [], [RootKey], map[]) && forall key :: key in [RootKey] <==> key in Nodes(o, [])
  {
  }

  /** The node above the groups of a childless operation. */
  function AboveGroups(o: Options, op: Op): NodeKey {
    if IsIdleOp(op) then RootKey else PathKey(o, op)
  }

  /** The groups of a childless operation, from its category down to its leaf. */
  function GroupsOf(o: Options, op: Op, k: nat): seq<NodeKey> {
    if IsIdleOp(op) then [Place(o, op, k)]
    else if o.groupByDeduplicatedName then [CategoryOf(o, op), GroupKey(o, op), Place(o, op, k)]
    else [CategoryOf(o, op), Place(o, op, k)]
  }

  predicate AreGroupsBelow(groups: seq<NodeKey>, above: set<NodeKey>) {
    forall i :: 0 <= i < |groups| ==> IsGroup(groups[i]) && groups[i] !in above
  }

  lemma GroupsAreBelow(o: Options, op: Op, k: nat)
    requires !HasChildren(op)
    ensures NoKeyTwice(GroupsOf(o, op, k))
    ensures AreGroupsBelow(GroupsOf(o, op, k), Ancestors(AboveGroups(o, op)))
    ensures Ancestors(Place(o, op, k))
         == WithFirst(Ancestors(AboveGroups(o, op)), GroupsOf(o, op, k), |GroupsOf(o, op, k)|)
  {
    PlaceAncestors(o, op, k);
    PathIsNoGroup(o, op);
    var above, groups := Ancestors(AboveGroups(o, op)), GroupsOf(o, op, k);
    assert WithFirst(above, groups, 1) == above + {groups[0]};
    if |groups| > 1 { assert WithFirst(above, groups, 2) == above + {groups[0], groups[1]}; }
  }

  /** A set with the first few elements of a list. */
  function WithFirst(above: set<NodeKey>, groups: seq<NodeKey>, i: nat): set<NodeKey>
    requires i <= |groups|
  {
    if i == 0 then above else WithFirst(above, groups, i - 1) + {groups[i - 1]}
  }

  lemma {:induction false} NotAmongFirst(above: set<NodeKey>, groups: seq<NodeKey>, i: nat, j: nat)
    requires j <= i < |groups| && NoKeyTwice(groups) && AreGroupsBelow(groups, above)
    ensures groups[i] !in WithFirst(above, groups, j)
  {
    if j > 0 { NotAmongFirst(above, groups, i, j - 1); }
  }

  ghost predicate ArePlaced(groups: seq<nat>, keys: seq<NodeKey>, expected: seq<NodeKey>) {
    |groups| == |expected| && forall i :: 0 <= i < |groups| ==> groups[i] < |keys| && keys[groups[i]] == expected[i]
  }

  lemma {:induction false} FirstAreKeys(keys: seq<NodeKey>, above: set<NodeKey>, groups: seq<nat>,
                                        expected: seq<NodeKey>, i: nat)
    requires ArePlaced(groups, keys, expected) && i <= |expected| && forall key :: key in above ==> key in keys
    ensures forall key :: key in WithFirst(above, expected, i) ==> key in keys
  {
    if i > 0 { FirstAreKeys(keys, above, groups, expected, i - 1); }
  }

  /** One group takes a childless operation in. */
  method CombineGroup(op: Op, group: nat, before: map<nat, Metrics>, ghost o: Options, ghost ops: seq<Op>,
                      ghost keys: seq<NodeKey>, ghost done: set<NodeKey>)
    returns (metrics: map<nat, Metrics>)
    requires Accounts(o, ops, keys, before, op, done) && NoKeyTwice(keys) && !HasChildren(op)
    requires group < |keys| && keys[group] !in done && IsGroup(keys[group])
    ensures Accounts(o, ops, keys, metrics, op, done + {keys[group]})
  {
    var combined := CombineFlatOpMetricsToOpMetrics(op, MetricsAt(before, group));
    MetricsGrown(o, ops, keys, before, op, done, group, combined);
    metrics := before[group := combined];
  }

  /** All groups take a childless operation in. */
  method CombineGroups(op: Op, groups: seq<nat>, before: map<nat, Metrics>, ghost o: Options, ghost ops: seq<Op>,
                       ghost keys: seq<NodeKey>, ghost expected: seq<NodeKey>, ghost above: set<NodeKey>)
    returns (metrics: map<nat, Metrics>)
    requires Accounts(o, ops, keys, before, op, above) && NoKeyTwice(keys) && !HasChildren(op)
    requires ArePlaced(groups, keys, expected) && NoKeyTwice(expected) && AreGroupsBelow(expected, above)
    ensures Accounts(o, ops, keys, metrics, op, WithFirst(above, expected, |expected|))
  {
    metrics := before;
    for i := 0 to |groups|
      invariant Accounts(o, ops, keys, metrics, op, WithFirst(above, expected, i))
    {
      NotAmongFirst(above, expected, i, i);
      metrics := CombineGroup(op, groups[i], metrics, o, ops, keys, WithFirst(above, expected, i));
    }
  }

  lemma OnThePath(o: Options, op: Op, k: nat, i: nat)
    requires !IsIdleOp(op) && !HasChildren(op) && ViaProvenance(o, op) && i < |op.provenance.value|
    ensures var parts := op.provenance.value;
      var above, key := ProvenancePath(TopKey(o, op), parts[..i]), ProvenancePath(TopKey(o, op), parts[..i + 1]);
      && key == ProvenanceKey(above, parts[i]) && key in Ancestors(Place(o, op, k)) && key !in Ancestors(above)
      && Ancestors(key) == Ancestors(above) + {key} && !IsGroup(key)
  {
    var parts := op.provenance.value;
    assert parts[..i + 1][..i] == parts[..i];
    PlaceAncestors(o, op, k);
    PathAncestors(TopKey(o, op), parts, ProvenancePath(TopKey(o, op), parts[..i + 1]));
    var above := ProvenancePath(TopKey(o, op), parts[..i]);
    if ProvenanceKey(above, parts[i]) in Ancestors(above) {
      AncestorsAreHigher(above, ProvenanceKey(above, parts[i]));
    }
  }

  /** What holds of nodes, keys and tables goes on holding with one more program. */
  lemma ProgramJoins(o: Options, programNames: map<nat, string>, ops: seq<Op>, nodes: seq<Node>, keys: seq<NodeKey>,
                     tables: Tables, metrics: map<nat, Metrics>, op: Op, done: set<NodeKey>)
    requires IsIndexed(nodes, keys, tables) && AreNamed(o, programNames, nodes, keys, ops + [op])
    requires Accounts(o, ops, keys, metrics, op, done) && Reaches(o, ops, keys, op, done)
    requires HasChildren(op) || Place(o, op, |ops|) !in keys
    requires !IsIdleOp(op) && GroupsByProgram(o) && op.programId !in tables.programs
    ensures var key, name := ProgramKey(RootKey, op.programId), ProgramName(programNames, op.programId);
      && key == TopKey(o, op)
      && IsIndexed(WithChild(nodes, 0, name), keys + [key],
                   tables.(programs := tables.programs[op.programId := |keys|]))
      && AreNamed(o, programNames, WithChild(nodes, 0, name), keys + [key], ops + [op])
      && Accounts(o, ops, keys + [key], metrics, op, done) && Reaches(o, ops, keys + [key], op, done)
      && (HasChildren(op) || Place(o, op, |ops|) !in keys + [key])
  {
    var key, name := ProgramKey(RootKey, op.programId), ProgramName(programNames, op.programId);
    TopNodesAccount(o, op, |ops|, op.programId);
    KeyAdded(o, ops, keys, metrics, op, done, key);
    StillNoLeaf(o, op, |ops|, keys, key);
    ProgramAdded(nodes, keys, tables, op.programId, name);
    NamesGrow(o, programNames, nodes, keys, ops + [op], 0, name, key);
  }

  class OpProfileBuilder {
    const options: Options
    const programNames: map<nat, string>
    var nodes: seq<Node>
    var programs: map<nat, nat>
    var categories: NameMap
    var provenanceCategories: NameMap
    var provenanceChildren: NameMap
    var deduplicated: NameMap
    var metrics: map<nat, Metrics>
    ghost var keys: seq<NodeKey>
    ghost var ops: seq<Op>

    function AllTables(): Tables
      reads this`programs, this`categories, this`provenanceCategories, this`provenanceChildren, this`deduplicated
    {
      Tables(programs, categories, provenanceCategories, provenanceChildren, deduplicated)
    }

    ghost predicate Shaped()
      reads this`nodes, this`keys
      reads this`programs, this`categories, this`provenanceCategories, this`provenanceChildren, this`deduplicated
    {
      IsIndexed(nodes, keys, AllTables())
    }

    /** The tree has exactly the nodes the operations call for, each with its total. */
    ghost predicate Valid()
      reads this
    {
      && Shaped() && Settled(options, ops, keys, metrics) && AreNamed(options, programNames, nodes, keys, ops)
      && forall key :: key in keys <==> key in Nodes(options, ops)
    }

    ghost predicate Named(op: Op)
      reads this`nodes, this`keys, this`ops
    {
      AreNamed(options, programNames, nodes, keys, ops + [op])
    }

    ghost predicate Working(op: Op, done: set<NodeKey>)
      reads this
    {
      && Shaped() && Named(op)
      && Accounts(options, ops, keys, metrics, op, done) && Reaches(options, ops, keys, op, done)
    }

    constructor (options: Options, programNames: map<nat, string>)
      ensures Valid() && this.options == options && this.programNames == programNames && ops == []
    {
      this.options, this.programNames := options, programNames;
      nodes, keys, ops, metrics, programs := [Node(RootName(options), [])], [RootKey], [], map[], map[];
      categories, provenanceCategories, provenanceChildren, deduplicated := map[], map[], map[], map[];
      new;
      StartIsTree(options);
    }

    /** The operation is being added and has no leaf yet. */
    ghost predicate Open(op: Op, done: set<NodeKey>)
      reads this
    {
      Working(op, done) && (HasChildren(op) || Place(options, op, |ops|) !in keys)
    }

    method LookupOrAddProgramNode(op: Op, ghost done: set<NodeKey>) returns (n: nat)
      requires Open(op, done) && !IsIdleOp(op) && GroupsByProgram(options)
      modifies `nodes, `keys, `programs
      ensures Open(op, done) && n < |keys| && keys[n] == TopKey(options, op)
    {
      if op.programId in programs {
        n := programs[op.programId];
      } else {
        n := AddProgram(op, done);
      }
    }

    method AddProgram(op: Op, ghost done: set<NodeKey>) returns (n: nat)
      requires Open(op, done) && !IsIdleOp(op) && GroupsByProgram(options) && op.programId !in programs
      modifies `nodes, `keys, `programs
      ensures Open(op, done) && n < |keys| && keys[n] == TopKey(options, op)
    {
      ghost var key := ProgramKey(RootKey, op.programId);
      ProgramJoins(options, programNames, ops, nodes, keys, AllTables(), metrics, op, done);
      var name := ProgramName(programNames, op.programId);
      n := |nodes|;
      nodes, keys := WithChild(nodes, 0, name), keys + [key];
      programs := programs[op.programId := n];
    }

    /** Adds a node to the tree and to its table. */
    method AddEntry(t: Table, p: nat, name: string) returns (n: nat)
      requires Shaped() && p < |keys| && Entry(t, keys[p], name) !in keys
      modifies `nodes, `keys, `categories, `provenanceCategories, `provenanceChildren, `deduplicated
      ensures Shaped() && n == |old(keys)| && keys == old(keys) + [Entry(t, old(keys)[p], name)]
      ensures p < |old(nodes)| && nodes == WithChild(old(nodes), p, name)
    {
      EntryAdded(nodes, keys, AllTables(), t, p, name);
      n := |nodes|;
      nodes, keys := WithChild(nodes, p, name), keys + [Entry(t, keys[p], name)];
      Store(t, (p, name), n);
    }

    method Store(t: Table, entry: (nat, string), n: nat)
      modifies `categories, `provenanceCategories, `provenanceChildren, `deduplicated
      ensures AllTables() == WithEntry(old(AllTables()), t, entry, n)
    {
      match t {
        case ProvenanceTable => provenanceChildren := provenanceChildren[entry := n];
        case CategoryTable => categories := categories[entry := n];
        case ProvenanceCategoryTable => provenanceCategories := provenanceCategories[entry := n];
        case DeduplicatedTable => deduplicated := deduplicated[entry := n];
      }
    }

    /** Finds a node in its table, or adds it. */
    method LookupOrAdd(t: Table, p: nat, name: string, op: Op, ghost done: set<NodeKey>) returns (n: nat)
      requires Open(op, done) && p < |keys| && Entry(t, keys[p], name) in Ancestors(Place(options, op, |ops|))
      modifies `nodes, `keys, `categories, `provenanceCategories, `provenanceChildren, `deduplicated
      ensures Open(op, done) && old(keys) <= keys && n < |keys| && keys[n] == Entry(t, old(keys)[p], name)
    {
      var table := TableOf(AllTables(), t);
      FoundIffPresent(nodes, keys, AllTables(), t, p, name);
      if (p, name) in table {
        n := table[(p, name)];
      } else {
        n := AddMissing(t, p, name, op, done);
      }
    }

    method AddMissing(t: Table, p: nat, name: string, op: Op, ghost done: set<NodeKey>) returns (n: nat)
      requires Open(op, done) && p < |keys| && Entry(t, keys[p], name) in Ancestors(Place(options, op, |ops|))
      requires Entry(t, keys[p], name) !in keys
      modifies `nodes, `keys, `categories, `provenanceCategories, `provenanceChildren, `deduplicated
      ensures Open(op, done) && n == |old(keys)| && keys == old(keys) + [Entry(t, old(keys)[p], name)]
    {
      KeyAdded(options, ops, keys, metrics, op, done, Entry(t, keys[p], name));
      StillNoLeaf(options, op, |ops|, keys, Entry(t, keys[p], name));
      NamesGrow(options, programNames, nodes, keys, ops + [op], p, name, Entry(t, keys[p], name));
      n := AddEntry(t, p, name);
    }

    method LookupOrAddCategoryNode(op: Op, p: nat, viaProvenance: bool, ghost done: set<NodeKey>) returns (n: nat)
      requires Open(op, done) && p < |keys| && !IsIdleOp(op) && !HasChildren(op)
      requires keys[p] == PathKey(options, op) && viaProvenance == ViaProvenance(options, op)
      modifies `nodes, `keys, `categories, `provenanceCategories, `provenanceChildren, `deduplicated
      ensures Open(op, done) && n < |keys| && keys[n] == CategoryOf(options, op)
    {
      PlaceAncestors(options, op, |ops|);
      n := LookupOrAdd(if viaProvenance then ProvenanceCategoryTable else CategoryTable, p, op.category, op, done);
    }

    method LookupOrAddDeduplicatedNode(op: Op, p: nat, ghost done: set<NodeKey>) returns (n: nat)
      requires Open(op, done) && p < |keys| && !IsIdleOp(op) && !HasChildren(op) && options.groupByDeduplicatedName
      requires keys[p] == CategoryOf(options, op)
      modifies `nodes, `keys, `categories, `provenanceCategories, `provenanceChildren, `deduplicated
      ensures Open(op, done) && old(keys) <= keys && n < |keys| && keys[n] == GroupKey(options, op)
    {
      PlaceAncestors(options, op, |ops|);
      var name := if op.deduplicatedName == "" then op.hloName else op.deduplicatedName;
      n := LookupOrAdd(DeduplicatedTable, p, name, op, done);
    }

    /** Every childless operation gets a leaf of its own. */
    method AddOpNode(op: Op, p: nat, ghost done: set<NodeKey>) returns (leaf: nat)
      requires Open(op, done) && p < |keys| && !HasChildren(op) && keys[p] == GroupKey(options, op)
      modifies `nodes, `keys
      ensures Working(op, done) && leaf < |keys| && old(keys) <= keys && keys[leaf] == Place(options, op, |ops|)
    {
      ghost var key := Place(options, op, |ops|);
      Self(key);
      KeyAdded(options, ops, keys, metrics, op, done, key);
      LeafAdded(nodes, keys, AllTables(), p, op.hloName, key);
      NamesGrow(options, programNames, nodes, keys, ops + [op], p, op.hloName, key);
      leaf := |nodes|;
      nodes, keys := WithChild(nodes, p, op.hloName), keys + [key];
    }

    /** Takes the operation into a node above groups. */
    method Update(op: Op, n: nat, ghost done: set<NodeKey>, ghost after: set<NodeKey>)
      requires Working(op, done) && n < |keys| && keys[n] !in done && !IsGroup(keys[n]) && after == done + {keys[n]}
      modifies `metrics
      ensures Working(op, after)
    {
      var updated := UpdateNodeMetrics(op, MetricsAt(metrics, n));
      MetricsGrown(options, ops, keys, metrics, op, done, n, updated);
      metrics := metrics[n := updated];
    }

    /** Walks down the provenance path; every node on it takes the operation in. */
    method GetOrAddProvenanceParentNode(op: Op, top: nat) returns (n: nat)
      requires Open(op, Ancestors(TopKey(options, op))) && top < |keys| && keys[top] == TopKey(options, op)
      requires !IsIdleOp(op) && !HasChildren(op) && ViaProvenance(options, op)
      modifies `nodes, `keys, `categories, `provenanceCategories, `provenanceChildren, `deduplicated, `metrics
      ensures Open(op, Ancestors(PathKey(options, op))) && n < |keys| && keys[n] == PathKey(options, op)
    {
      var parts := op.provenance.value;
      n := top;
      for i := 0 to |parts|
        invariant n < |keys| && keys[n] == ProvenancePath(TopKey(options, op), parts[..i])
        invariant Open(op, Ancestors(keys[n]))
      {
        OnThePath(options, op, |ops|, i);
        n := StepDown(op, n, parts[i], Ancestors(keys[n]),
                      Ancestors(ProvenancePath(TopKey(options, op), parts[..i + 1])));
      }
      assert parts[..|parts|] == parts;
    }

    method StepDown(op: Op, p: nat, name: string, ghost done: set<NodeKey>, ghost after: set<NodeKey>)
      returns (n: nat)
      requires p < |keys| && Open(op, done) && after == done + {ProvenanceKey(keys[p], name)}
      requires ProvenanceKey(keys[p], name) in Ancestors(Place(options, op, |ops|))
      requires ProvenanceKey(keys[p], name) !in done
      modifies `nodes, `keys, `categories, `provenanceCategories, `provenanceChildren, `deduplicated, `metrics
      ensures n < |keys| && keys[n] == ProvenanceKey(old(keys)[p], name) && Open(op, after)
    {
      n := LookupOrAdd(ProvenanceTable, p, name, op, done);
      Update(op, n, done, after);
    }

    /** Adds the groups of a childless operation; they have not taken it in yet. */
    method AddGroups(op: Op, p: nat) returns (groups: seq<nat>)
      requires Open(op, Ancestors(AboveGroups(options, op))) && !HasChildren(op)
      requires p < |keys| && keys[p] == AboveGroups(options, op)
      modifies `nodes, `keys, `categories, `provenanceCategories, `provenanceChildren, `deduplicated
      ensures Working(op, Ancestors(AboveGroups(options, op)))
      ensures ArePlaced(groups, keys, GroupsOf(options, op, |ops|))
    {
      if IsIdleOp(op) {
        var leaf := AddOpNode(op, p, Ancestors(RootKey));
        groups := [leaf];
      } else {
        groups := AddNestedGroups(op, p, Ancestors(PathKey(options, op)));
      }
    }

    method AddNestedGroups(op: Op, p: nat, ghost done: set<NodeKey>) returns (groups: seq<nat>)
      requires Open(op, done) && !HasChildren(op) && !IsIdleOp(op) && p < |keys| && keys[p] == PathKey(options, op)
      modifies `nodes, `keys, `categories, `provenanceCategories, `provenanceChildren, `deduplicated
      ensures Working(op, done) && ArePlaced(groups, keys, GroupsOf(options, op, |ops|))
    {
      var category := LookupOrAddCategoryNode(op, p, ViaProvenance(options, op), done);
      groups := AddBelowCategory(op, category, done);
    }

    method AddBelowCategory(op: Op, category: nat, ghost done: set<NodeKey>) returns (groups: seq<nat>)
      requires Open(op, done) && !HasChildren(op) && !IsIdleOp(op)
      requires category < |keys| && keys[category] == CategoryOf(options, op)
      modifies `nodes, `keys, `categories, `provenanceCategories, `provenanceChildren, `deduplicated
      ensures Working(op, done) && ArePlaced(groups, keys, GroupsOf(options, op, |ops|))
    {
      if options.groupByDeduplicatedName {
        groups := AddGroupAndLeaf(op, category, done);
      } else {
        var leaf := AddOpNode(op, category, done);
        groups := [category, leaf];
      }
    }

    method AddGroupAndLeaf(op: Op, category: nat, ghost done: set<NodeKey>) returns (groups: seq<nat>)
      requires Open(op, done) && !HasChildren(op) && !IsIdleOp(op) && options.groupByDeduplicatedName
      requires category < |keys| && keys[category] == CategoryOf(options, op)
      modifies `nodes, `keys, `categories, `provenanceCategories, `provenanceChildren, `deduplicated
      ensures Working(op, done)
      ensures ArePlaced(groups, keys, [CategoryOf(options, op), GroupKey(options, op), Place(options, op, |ops|)])
    {
      var group := LookupOrAddDeduplicatedNode(op, category, done);
      ghost var before := keys;
      var leaf := AddOpNode(op, group, done);
      assert keys[category] == before[category] && keys[group] == before[group];
      groups := [category, group, leaf];
    }

    /** All groups take the operation in. */
    method CombineAll(op: Op, groups: seq<nat>, ghost expected: seq<NodeKey>, ghost above: set<NodeKey>,
                      ghost all: set<NodeKey>)
      requires Working(op, above) && !HasChildren(op) && ArePlaced(groups, keys, expected)
      requires NoKeyTwice(expected) && AreGroupsBelow(expected, above) && all == WithFirst(above, expected, |expected|)
      modifies `metrics
      ensures Working(op, all)
    {
      metrics := CombineGroups(op, groups, metrics, options, ops, keys, expected, above);
      FirstAreKeys(keys, above, groups, expected, |expected|);
    }

    /** The nodes above groups take the operation in. */
    method UpdateTop(op: Op) returns (top: nat)
      requires Open(op, {}) && keys[0] == RootKey
      modifies `nodes, `keys, `programs, `metrics
      ensures Open(op, Ancestors(TopKey(options, op))) && top < |keys| && keys[top] == TopKey(options, op)
    {
      Update(op, 0, {}, {RootKey});
      top := 0;
      if !IsIdleOp(op) && GroupsByProgram(options) {
        top := UpdateProgram(op);
      }
    }

    method UpdateProgram(op: Op) returns (top: nat)
      requires Open(op, {RootKey}) && !IsIdleOp(op) && GroupsByProgram(options)
      modifies `nodes, `keys, `programs, `metrics
      ensures Open(op, Ancestors(TopKey(options, op))) && top < |keys| && keys[top] == TopKey(options, op)
    {
      assert Ancestors(TopKey(options, op)) == {RootKey} + {TopKey(options, op)};
      top := LookupOrAddProgramNode(op, {RootKey});
      Update(op, top, {RootKey}, Ancestors(TopKey(options, op)));
    }

    /** Adds one operation to the profile. */
    method AddOp(op: Op)
      requires Valid()
      modifies this
      ensures Valid() && ops == old(ops) + [op]
    {
      Opens(op);
      var top := UpdateTop(op);
      if !HasChildren(op) {
        var parent := top;
        if !IsIdleOp(op) && ViaProvenance(options, op) {
          parent := GetOrAddProvenanceParentNode(op, top);
        }
        var groups := AddGroups(op, parent);
        GroupsAreBelow(options, op, |ops|);
        CombineAll(op, groups, GroupsOf(options, op, |ops|), Ancestors(AboveGroups(options, op)),
                   Ancestors(Place(options, op, |ops|)));
      }
      Settles(options, ops, keys, metrics, op);
      ops := ops + [op];
    }

    lemma Opens(op: Op)
      requires Valid()
      ensures Open(op, {})
    {
      if !HasChildren(op) && Place(options, op, |ops|) in keys {
        LeavesAreNumbered(options, ops, Place(options, op, |ops|));
      }
    }
  }
}
