/** `getKpiTree` (apps/dashboard/lib/ledger-client.ts): the latest KPI row of each id, threaded by
    `parent_node_id` into one tree of shared, mutable nodes.

    The rows are the query's result: one per id, in the order the query returns them. */
module KpiTree {
  import opened Sequences
  import opened ParentForest

  datatype KpiRow = KpiRow(
    id: string, name: Option<string>, parent: Option<string>, confidence: Option<real>,
    source: Option<string>, classification: Option<string>, owner: Option<string>, hash: string)

  datatype KpiInfo = KpiInfo(
    id: string, displayName: string, owner: string, classification: string, confidence: real,
    receiptHash: string, receiptSource: string)

  class KpiNode {
    const info: KpiInfo
    var hasChildren: bool
    var children: seq<KpiNode>

    constructor (info: KpiInfo)
      ensures this.info == info && !hasChildren && children == []
    {
      this.info := info;
      hasChildren := false;
      children := [];
    }
  }

  function NonEmptyOr(s: Option<string>, default: string): string {
    if s.Some? && s.value != "" then s.value else default
  }

  function Clamp(confidence: Option<real>): real {
    if confidence.None? then 0.5
    else if confidence.value < 0.0 then 0.0
    else if confidence.value > 1.0 then 1.0
    else confidence.value
  }

  function Describe(r: KpiRow): KpiInfo {
    KpiInfo(r.id, if r.name.Some? then r.name.value else r.id, NonEmptyOr(r.owner, "system"),
            NonEmptyOr(r.classification, "internal"), Clamp(r.confidence),
            if |r.hash| <= 12 then r.hash else r.hash[..12], NonEmptyOr(r.source, "kpi-tree"))
  }

  /** `text` is what was given, or the default when nothing or the empty text was. */
  ghost predicate Fills(text: string, given: Option<string>, default: string) {
    if given in {None, Some("")} then text == default else given == Some(text)
  }

  /** `c` is the confidence given, brought into the unit interval, and a half when none was. */
  ghost predicate Confides(c: real, given: Option<real>) {
    && 0.0 <= c <= 1.0
    && (given == None ==> c == 0.5)
    && (given.Some? ==> (given.value > c ==> c == 1.0) && (given.value < c ==> c == 0.0))
  }

  /** What a node says of itself, against its row. */
  ghost predicate TellsOf(info: KpiInfo, r: KpiRow) {
    && info.id == r.id && (if r.name == None then info.displayName == r.id else Some(info.displayName) == r.name)
    && Fills(info.owner, r.owner, "system")
    && Fills(info.classification, r.classification, "internal")
    && Fills(info.receiptSource, r.source, "kpi-tree")
    && Confides(info.confidence, r.confidence)
    && info.receiptHash <= r.hash && |info.receiptHash| == Min(12, |r.hash|)
  }

  lemma DescribeTells(r: KpiRow)
    ensures TellsOf(Describe(r), r)
  {
  }

  const WRAPPER := KpiInfo("kpi_root", "KPI tree", "system", "internal", 1.0, "kpi_tree_root", "kpi-tree")

  ghost predicate DistinctIds(rows: seq<KpiRow>) {
    forall i, j :: 0 <= i < j < |rows| ==> rows[i].id != rows[j].id
  }

  // ---------------------------------------------------------------- the parent graph

  function IndexOf(rows: seq<KpiRow>, id: string): (r: Option<nat>)
    ensures r.Some? ==> r.value < |rows| && rows[r.value].id == id
    ensures r.None? ==> forall i :: 0 <= i < |rows| ==> rows[i].id != id
  {
    if rows == [] then None
    else if rows[|rows|-1].id == id then Some(|rows| - 1)
    else IndexOf(rows[..|rows|-1], id)
  }

  /** A row's parent is the row its parent id names; an absent, empty or unknown id names none. */
  function ParentIndex(rows: seq<KpiRow>, r: KpiRow): (p: Option<nat>)
    ensures p.Some? ==> p.value < |rows|
  {
    if r.parent.Some? && r.parent.value != "" then IndexOf(rows, r.parent.value) else None
  }

  function Up(rows: seq<KpiRow>): (up: Parents)
    ensures |up| == |rows| && Valid(up)
    ensures forall i :: 0 <= i < |rows| ==> up[i] == ParentIndex(rows, rows[i])
  {
    seq(|rows|, i requires 0 <= i < |rows| => ParentIndex(rows, rows[i]))
  }

  /** The parent is the row whose id the parent id is, unless that is empty. */
  lemma ParentsFollowIds(rows: seq<KpiRow>, i: nat, p: nat)
    requires DistinctIds(rows) && i < |rows|
    ensures Up(rows)[i] == Some(p) <==> p < |rows| && rows[i].parent == Some(rows[p].id) && rows[p].id != ""
  {
    if rows[i].parent.Some? {
      var q := IndexOf(rows, rows[i].parent.value);
      assert q.Some? && p < |rows| && p != q.value ==> rows[p].id != rows[q.value].id;
    }
  }

  // ---------------------------------------------------------------- the heap

  /** `row` lists the nodes with the given indices. */
  ghost predicate Lists(nodes: seq<KpiNode>, row: seq<KpiNode>, indices: seq<nat>) {
    |row| == |indices|
    && forall j :: 0 <= j < |indices| ==> indices[j] < |nodes| && row[j] == nodes[indices[j]]
  }

  /** Node `k` holds, as children, the nodes of the rows among the first `n` that name it. */
  ghost predicate WiredUpTo(nodes: seq<KpiNode>, up: Parents, n: nat)
    requires |nodes| == |up| && n <= |up|
    reads nodes
  {
    forall k: nat {:trigger Under(up, Some(k), n)} :: k < |nodes| ==> Wired(nodes, nodes[k], Under(up, Some(k), n))
  }

  ghost predicate Wired(nodes: seq<KpiNode>, node: KpiNode, children: seq<nat>)
    reads node
  {
    node.hasChildren == (children != []) && Lists(nodes, node.children, children)
  }

  /** The object graph below `node` is exactly the tree `t`, `hasChildren` flags included. */
  ghost predicate Shows(nodes: seq<KpiNode>, node: KpiNode, t: Tree)
    reads nodes, node
    decreases t, 0
  {
    t.node < |nodes| && node == nodes[t.node] && node.hasChildren == (t.children != [])
    && ShowsAll(nodes, node.children, t.children)
  }

  ghost predicate ShowsAll(nodes: seq<KpiNode>, row: seq<KpiNode>, ts: seq<Tree>)
    reads nodes
    decreases ts, 1
  {
    |row| == |ts| && forall j :: 0 <= j < |ts| ==> row[j] in nodes && Shows(nodes, row[j], ts[j])
  }

  lemma {:induction false} TreeShown(nodes: seq<KpiNode>, up: Parents, i: nat, d: nat, height: nat)
    requires |nodes| == |up| && Valid(up) && WiredUpTo(nodes, up, |up|)
    requires i < |up| && HasDepth(up, i, d) && height + d == |up|
    ensures Shows(nodes, nodes[i], TreeOf(up, i, height))
    decreases height, 0
  {
    DepthBound(up, i, d);
    ChildrenDepth(up, i, d);
    assert Wired(nodes, nodes[i], Children(up, i));
    ForestShown(nodes, up, Children(up, i), d + 1, height - 1, nodes[i].children);
  }

  lemma {:induction false} ForestShown(nodes: seq<KpiNode>, up: Parents, level: seq<nat>, d: nat, height: nat,
                                       row: seq<KpiNode>)
    requires |nodes| == |up| && Valid(up) && WiredUpTo(nodes, up, |up|)
    requires AllAtDepth(up, level, d) && height + d == |up|
    requires Lists(nodes, row, level)
    ensures ShowsAll(nodes, row, ForestOf(up, level, height))
    decreases height, 1
  {
    forall j | 0 <= j < |level| ensures Shows(nodes, row[j], ForestOf(up, level, height)[j]) {
      ForestAt(up, level, height, j);
      TreeShown(nodes, up, level[j], d, height);
    }
  }

  /** What is returned for a forest: nothing, its one tree, or a wrapper around its trees. */
  ghost predicate Result(nodes: seq<KpiNode>, root: KpiNode?, forest: seq<Tree>)
    reads nodes, if root == null then {} else {root}
  {
    if |forest| == 0 then root == null
    else if |forest| == 1 then root != null && ShowsAll(nodes, [root], forest)
    else
      && root != null && root !in nodes && root.info == WRAPPER && root.hasChildren
      && ShowsAll(nodes, root.children, forest)
  }

  // ---------------------------------------------------------------- the loops

  /** The tree, or null; `nodes` are the objects made for the rows, in order. */
  method GetKpiTree(rows: seq<KpiRow>) returns (root: KpiNode?, ghost nodes: seq<KpiNode>)
    requires DistinctIds(rows)
    ensures Distinct(nodes) && fresh(nodes) && AllTell(nodes, rows)
    ensures Result(nodes, root, Whole(Up(rows)))
    ensures |Whole(Up(rows))| > 1 ==>
              root.info == KpiInfo("kpi_root", "KPI tree", "system", "internal", 1.0, "kpi_tree_root", "kpi-tree")
  {
    var byId: map<string, KpiNode>;
    byId, nodes := MakeNodes(rows);
    BlanksTell(rows, nodes);
    ghost var up := Up(rows);
    IndexesLinks(rows, byId, nodes);
    assert WiredUpTo(nodes, up, 0);
    WireChildren(rows, byId, nodes, up);
    var roots := FindRoots(rows, byId, nodes, up);
    root := Wrap(roots, nodes, up);
  }

  method Wrap(roots: seq<KpiNode>, ghost nodes: seq<KpiNode>, ghost up: Parents) returns (root: KpiNode?)
    requires |nodes| == |up| && Valid(up) && WiredUpTo(nodes, up, |up|)
    requires Lists(nodes, roots, Roots(up))
    ensures Result(nodes, root, Whole(up))
  {
    if |roots| == 1 {
      RootsShown(nodes, up, roots);
      assert roots == [roots[0]];
      return roots[0];
    }
    if |roots| == 0 {
      return null;
    }
    root := new KpiNode(WRAPPER);
    root.hasChildren := true;
    root.children := roots;
    RootsShown(nodes, up, roots);
  }

  method FindRoots(rows: seq<KpiRow>, byId: map<string, KpiNode>, ghost nodes: seq<KpiNode>, ghost up: Parents)
    returns (roots: seq<KpiNode>)
    requires Linked(rows, byId, nodes, up)
    ensures Lists(nodes, roots, Roots(up))
  {
    roots := [];
    for i := 0 to |rows|
      invariant Lists(nodes, roots, Under(up, None, i))
    {
      assert LinkedRow(rows[i], byId, nodes, i, up[i]);
      if !KnownParent(rows[i], byId) {
        roots := roots + [byId[rows[i].id]];
      }
    }
  }

  lemma RootsShown(nodes: seq<KpiNode>, up: Parents, roots: seq<KpiNode>)
    requires |nodes| == |up| && Valid(up) && WiredUpTo(nodes, up, |up|)
    requires Lists(nodes, roots, Roots(up))
    ensures ShowsAll(nodes, roots, Whole(up))
  {
    RootsDepth(up);
    ForestShown(nodes, up, Roots(up), 0, |up|, roots);
  }

  /** `byId` leads from each row's id to the object made for it. */
  ghost predicate Indexes(rows: seq<KpiRow>, byId: map<string, KpiNode>, nodes: seq<KpiNode>) {
    && |nodes| == |rows|
    && (forall k :: 0 <= k < |rows| ==> rows[k].id in byId && byId[rows[k].id] == nodes[k])
    && (forall id :: id in byId ==> IndexOf(rows, id).Some?)
  }

  method MakeNodes(rows: seq<KpiRow>) returns (byId: map<string, KpiNode>, ghost nodes: seq<KpiNode>)
    requires DistinctIds(rows)
    ensures Indexes(rows, byId, nodes) && Distinct(nodes)
    ensures fresh(nodes) && Blank(rows, nodes)
  {
    byId, nodes := map[], [];
    for i := 0 to |rows|
      invariant Indexes(rows[..i], byId, nodes) && Distinct(nodes)
      invariant fresh(nodes) && Blank(rows[..i], nodes)
    {
      var node := MakeNode(rows, i, nodes);
      IndexesSnoc(rows, i, byId, nodes, node);
      byId := byId[rows[i].id := node];
      nodes := nodes + [node];
    }
    assert rows[..|rows|] == rows;
  }

  method MakeNode(rows: seq<KpiRow>, i: nat, ghost nodes: seq<KpiNode>) returns (node: KpiNode)
    requires i < |rows| && Blank(rows[..i], nodes) && Distinct(nodes)
    ensures fresh(node) && node !in nodes
    ensures Blank(rows[..i+1], nodes + [node]) && Distinct(nodes + [node])
  {
    node := new KpiNode(Describe(rows[i]));
  }

  /** The nodes as they are made: described by their rows, and not yet wired. */
  ghost predicate Blank(rows: seq<KpiRow>, nodes: seq<KpiNode>)
    reads nodes
  {
    && |nodes| == |rows|
    && forall k :: 0 <= k < |nodes| ==>
         nodes[k].info == Describe(rows[k]) && !nodes[k].hasChildren && nodes[k].children == []
  }

  ghost predicate AllTell(nodes: seq<KpiNode>, rows: seq<KpiRow>) {
    |nodes| == |rows| && forall k :: 0 <= k < |rows| ==> TellsOf(nodes[k].info, rows[k])
  }

  lemma BlanksTell(rows: seq<KpiRow>, nodes: seq<KpiNode>)
    requires Blank(rows, nodes)
    ensures AllTell(nodes, rows)
  {
    forall k | 0 <= k < |rows| ensures TellsOf(nodes[k].info, rows[k]) {
      DescribeTells(rows[k]);
    }
  }

  lemma IndexesSnoc(rows: seq<KpiRow>, i: nat, byId: map<string, KpiNode>, nodes: seq<KpiNode>, node: KpiNode)
    requires i < |rows| && DistinctIds(rows) && Indexes(rows[..i], byId, nodes)
    ensures Indexes(rows[..i+1], byId[rows[i].id := node], nodes + [node])
  {
    assert rows[..i+1][..i] == rows[..i];
    forall id {:trigger IndexOf(rows[..i+1], id)} | id in byId[rows[i].id := node]
      ensures IndexOf(rows[..i+1], id).Some?
    {
      if id in byId {
        assert IndexOf(rows[..i], id).Some?;
      }
    }
  }

  predicate KnownParent(r: KpiRow, byId: map<string, KpiNode>) {
    r.parent.Some? && r.parent.value != "" && r.parent.value in byId
  }

  ghost predicate LinkedRow(r: KpiRow, byId: map<string, KpiNode>, nodes: seq<KpiNode>, i: nat, up: Option<nat>) {
    && i < |nodes| && r.id in byId && byId[r.id] == nodes[i]
    && (KnownParent(r, byId) <==> up.Some?)
    && (up.Some? ==> up.value < |nodes| && byId[r.parent.value] == nodes[up.value])
  }

  /** Looking ids up in `byId` follows the parent graph. */
  ghost predicate Linked(rows: seq<KpiRow>, byId: map<string, KpiNode>, nodes: seq<KpiNode>, up: Parents) {
    |nodes| == |up| == |rows| && forall i :: 0 <= i < |rows| ==> LinkedRow(rows[i], byId, nodes, i, up[i])
  }

  lemma IndexesLinks(rows: seq<KpiRow>, byId: map<string, KpiNode>, nodes: seq<KpiNode>)
    requires Indexes(rows, byId, nodes)
    ensures Linked(rows, byId, nodes, Up(rows))
  {
    forall i | 0 <= i < |rows| ensures LinkedRow(rows[i], byId, nodes, i, Up(rows)[i]) {
    }
  }

  method WireChildren(rows: seq<KpiRow>, byId: map<string, KpiNode>, ghost nodes: seq<KpiNode>, ghost up: Parents)
    requires Linked(rows, byId, nodes, up) && Distinct(nodes) && WiredUpTo(nodes, up, 0)
    modifies nodes
    ensures WiredUpTo(nodes, up, |up|)
  {
    for i := 0 to |rows|
      invariant WiredUpTo(nodes, up, i)
    {
      assert LinkedRow(rows[i], byId, nodes, i, up[i]);
      if KnownParent(rows[i], byId) {
        AddChild(byId[rows[i].parent.value], byId[rows[i].id], nodes, up, i);
      } else {
        NoChildAdded(nodes, up, i);
      }
    }
  }

  lemma NoChildAdded(nodes: seq<KpiNode>, up: Parents, i: nat)
    requires |nodes| == |up| && i < |up| && up[i].None? && WiredUpTo(nodes, up, i)
    ensures WiredUpTo(nodes, up, i + 1)
  {
    forall k: nat | k < |nodes| ensures Wired(nodes, nodes[k], Under(up, Some(k), i + 1)) {
      assert Wired(nodes, nodes[k], Under(up, Some(k), i));
    }
  }

  method AddChild(parent: KpiNode, child: KpiNode, ghost nodes: seq<KpiNode>, ghost up: Parents, ghost i: nat)
    requires |nodes| == |up| && i < |up| && up[i].Some? && up[i].value < |up|
    requires nodes[up[i].value] == parent && nodes[i] == child && Distinct(nodes)
    requires WiredUpTo(nodes, up, i)
    modifies parent
    ensures WiredUpTo(nodes, up, i + 1)
  {
    ghost var p := up[i].value;
    assert Wired(nodes, parent, Under(up, Some(p), i));
    parent.children := parent.children + [child];
    parent.hasChildren := true;
    forall k: nat | k < |nodes| ensures Wired(nodes, nodes[k], Under(up, Some(k), i + 1)) {
      if k != p {
        assert old(Wired(nodes, nodes[k], Under(up, Some(k), i)));
      }
    }
  }

  // ---------------------------------------------------------------- which ids the tree holds

  function IdCount(rows: seq<KpiRow>, t: Tree, id: string): nat
    decreases t, 0
  {
    (if t.node < |rows| && rows[t.node].id == id then 1 else 0) + IdCountAll(rows, t.children, id)
  }

  function IdCountAll(rows: seq<KpiRow>, ts: seq<Tree>, id: string): nat
    decreases ts, 1
  {
    if ts == [] then 0 else IdCount(rows, ts[0], id) + IdCountAll(rows, ts[1..], id)
  }

  /** How often an id occurs below the wrapper, if there is one. */
  function Occurrences(rows: seq<KpiRow>, id: string): nat {
    IdCountAll(rows, Whole(Up(rows)), id)
  }

  /** How often an id occurs in what is returned, the wrapper's own id included. */
  function ReturnedCount(rows: seq<KpiRow>, id: string): nat {
    var forest := Whole(Up(rows));
    IdCountAll(rows, forest, id) + if |forest| > 1 && id == WRAPPER.id then 1 else 0
  }

  lemma {:induction false} IdsCountNodes(rows: seq<KpiRow>, ts: seq<Tree>, i: nat)
    requires DistinctIds(rows) && i < |rows|
    ensures IdCountAll(rows, ts, rows[i].id) == CountAll(ts, i)
  {
    if ts != [] {
      IdsCountNodes(rows, ts[0].children, i);
      IdsCountNodes(rows, ts[1..], i);
    }
  }

  lemma {:induction false} UnknownIdsAbsent(rows: seq<KpiRow>, ts: seq<Tree>, id: string)
    requires IndexOf(rows, id).None?
    ensures IdCountAll(rows, ts, id) == 0
  {
    if ts != [] {
      UnknownIdsAbsent(rows, ts[0].children, id);
      UnknownIdsAbsent(rows, ts[1..], id);
    }
  }

  /** Below the wrapper, if any, the tree holds each id whose chain of parents reaches a root
      exactly once, and no id whose chain runs into a cycle. */
  lemma TreeHoldsEachRootedIdOnce(rows: seq<KpiRow>, i: nat)
    requires DistinctIds(rows) && i < |rows|
    ensures Occurrences(rows, rows[i].id) == if ReachesCycle(Up(rows), i) then 0 else 1
  {
    IdsCountNodes(rows, Whole(Up(rows)), i);
    WholeHoldsTheRooted(Up(rows), i);
    RootedIffNoCycle(Up(rows), i);
  }

  /** Nothing is returned exactly when every chain is cyclic (so also when there are no rows). */
  lemma NullIffEveryChainCyclic(rows: seq<KpiRow>)
    ensures Whole(Up(rows)) == [] <==> forall i :: 0 <= i < |rows| ==> ReachesCycle(Up(rows), i)
  {
    var up := Up(rows);
    NoRootsIffNoneRooted(up);
    forall i | 0 <= i < |rows| ensures Rooted(up, i) <==> !ReachesCycle(up, i) {
      RootedIffNoCycle(up, i);
    }
  }

  /** The wrapper's id is fixed, and a ledger row may carry it too: no id occurs twice in what is
      returned, except that one when there is a wrapper and a shown row of the same id. */
  lemma NoIdTwiceUnlessWrapperId(rows: seq<KpiRow>)
    requires DistinctIds(rows)
    ensures (forall id :: ReturnedCount(rows, id) <= 1)
       <==> !(|Whole(Up(rows))| > 1
              && exists i :: 0 <= i < |rows| && rows[i].id == WRAPPER.id && !ReachesCycle(Up(rows), i))
  {
    forall id | IndexOf(rows, id).None? ensures ReturnedCount(rows, id) <= 1 {
      UnknownIdsAbsent(rows, Whole(Up(rows)), id);
    }
    forall i | 0 <= i < |rows|
      ensures ReturnedCount(rows, rows[i].id) == (if ReachesCycle(Up(rows), i) then 0 else 1)
                + if |Whole(Up(rows))| > 1 && rows[i].id == WRAPPER.id then 1 else 0
    {
      TreeHoldsEachRootedIdOnce(rows, i);
    }
    forall id | IndexOf(rows, id).Some? && !(|Whole(Up(rows))| > 1 && id == WRAPPER.id)
      ensures ReturnedCount(rows, id) <= 1
    {
      TreeHoldsEachRootedIdOnce(rows, IndexOf(rows, id).value);
    }
    var w := IndexOf(rows, WRAPPER.id);
    assert w.Some? ==> rows[w.value].id == WRAPPER.id;
  }
}
