/** Folding of self-scheduling tasks: chains and cycles of identical tasks collapse onto one
    representative.  Each method is the loop of the program, proved equal to a function of its
    inputs; SelfSchedulingTheorems proves what that function promises. */
module SelfSchedulingFold {
  import opened Common
  import opened Digraph
  import opened GraphModel

  const EXCLUDED_KINDS := {"group", "chord", "map", "starmap", "chunks"}

  predicate Foldable(n: Node) {
    && Truthy(n.taskName)
    && (Truthy(n.state) || !(n.kind.Value? && n.kind.text != ""))
  }

  function OrEmpty(o: Option<string>): string {
    if o.Some? then o.value else ""
  }

  function Signature(n: Node): string {
    OrEmpty(n.taskName) + "::" + OrEmpty(n.argsPreview) + "::" + OrEmpty(n.kwargsPreview)
  }

  /** None stands for minus infinity. */
  function Timestamp(n: Node): Option<int> {
    var stamp := if n.finishedAt.Some? then n.finishedAt else n.startedAt;
    if stamp.Some? && stamp.value.At? then Some(stamp.value.ms) else None
  }

  predicate AtLeast(a: Option<int>, b: Option<int>) {
    b.None? || (a.Some? && a.value >= b.value)
  }

  function KindOf(e: Edge): string {
    if e.kind.Some? then e.kind.value else "chain"
  }

  function EdgeKey(e: Edge): string {
    e.source + "::" + e.target
  }

  predicate Matching(nodes: map<Id, Node>, e: Edge) {
    && KindOf(e) !in EXCLUDED_KINDS
    && e.source != e.target
    && e.source in nodes && e.target in nodes
    && Foldable(nodes[e.source]) && Foldable(nodes[e.target])
    && Signature(nodes[e.source]) == Signature(nodes[e.target])
  }

  /******* Indexing the matching edges *******/

  // `parentIds` is the key order of the children map; of the parents map only the keys are used.
  datatype Matches = Matches(children: Graph, parentIds: seq<Id>, childIds: set<Id>, keys: set<string>)

  const NO_MATCHES := Matches(map[], [], {}, {})

  function AddMatch(ix: Matches, e: Edge): Matches {
    Matches(ix.children[e.source := AddUnique(Next(ix.children, e.source), e.target)],
            AddUnique(ix.parentIds, e.source),
            ix.childIds + {e.target},
            ix.keys + {EdgeKey(e)})
  }

  function IndexOf(nodes: map<Id, Node>, edges: seq<Edge>): Matches {
    if edges == [] then NO_MATCHES
    else
      var ix := IndexOf(nodes, Init(edges));
      if Matching(nodes, Last(edges)) then AddMatch(ix, Last(edges)) else ix
  }

  method IndexMatches(nodes: map<Id, Node>, edges: seq<Edge>) returns (ix: Matches)
    ensures ix == IndexOf(nodes, edges)
  {
    ix := NO_MATCHES;
    for i := 0 to |edges|
      invariant ix == IndexOf(nodes, edges[..i])
    {
      var edge := edges[i];
      assert Init(edges[..i + 1]) == edges[..i];
      if KindOf(edge) in EXCLUDED_KINDS {
        continue;
      }
      if edge.source == edge.target {
        continue;
      }
      if !(edge.source in nodes && Foldable(nodes[edge.source])
           && edge.target in nodes && Foldable(nodes[edge.target])) {
        continue;
      }
      if Signature(nodes[edge.source]) != Signature(nodes[edge.target]) {
        continue;
      }
      ix := AddMatch(ix, edge);
    }
    assert edges[..|edges|] == edges;
  }

  /******* Collecting the classes *******/

  // `order` is the key order of `members`.
  datatype Classes = Classes(
    childToRoot: map<Id, Id>,
    latest: map<Id, Id>,
    members: map<Id, seq<Id>>,
    order: seq<Id>)

  const NO_CLASSES := Classes(map[], map[], map[], [])

  // The queue loops skip the empty identifier without looking at its neighbours.
  function Expanded(g: Graph): Graph {
    g - {""}
  }

  function LatestOf(nodes: map<Id, Node>, kids: seq<Id>): (Option<Id>, Option<int>) {
    if kids == [] then (None, None)
    else
      var best := LatestOf(nodes, Init(kids));
      var kid := Last(kids);
      if kid in nodes && AtLeast(Timestamp(nodes[kid]), best.1) then (Some(kid), Timestamp(nodes[kid])) else best
  }

  function Adopt(childToRoot: map<Id, Id>, kids: seq<Id>, root: Id): map<Id, Id> {
    if kids == [] then childToRoot else Adopt(childToRoot, Init(kids), root)[Last(kids) := root]
  }

  function CollectFrom(nodes: map<Id, Node>, g: Graph, c: Classes, root: Id): Classes {
    var kids := Descendants(Expanded(g), root);
    if kids == [] then c
    else
      var latest := LatestOf(nodes, kids).0;
      Classes(Adopt(c.childToRoot, kids, root),
              if Truthy(latest) then c.latest[root := latest.value] else c.latest,
              c.members[root := kids],
              AddUnique(c.order, root))
  }

  method FindLatest(nodes: map<Id, Node>, kids: seq<Id>) returns (latestId: Option<Id>)
    ensures latestId == LatestOf(nodes, kids).0
  {
    var latestTime: Option<int> := None;
    latestId := None;
    for i := 0 to |kids|
      invariant (latestId, latestTime) == LatestOf(nodes, kids[..i])
    {
      assert Init(kids[..i + 1]) == kids[..i];
      if kids[i] !in nodes {
        continue;
      }
      var ts := Timestamp(nodes[kids[i]]);
      if AtLeast(ts, latestTime) {
        latestTime, latestId := ts, Some(kids[i]);
      }
    }
    assert kids[..|kids|] == kids;
  }

  lemma {:induction false} AdoptMore(childToRoot: map<Id, Id>, kids: seq<Id>, more: seq<Id>, root: Id)
    ensures Adopt(childToRoot, kids + more, root) == Adopt(Adopt(childToRoot, kids, root), more, root)
  {
    if more == [] {
      assert kids + more == kids;
    } else {
      AdoptMore(childToRoot, kids, Init(more), root);
      assert Init(kids + more) == kids + Init(more);
    }
  }

  lemma ClaimOne(next: seq<Id>, i: nat, found: seq<Id>, seen: set<Id>)
    requires i < |next|
    ensures next[i] in seen ==> Fresh(next[i..], seen) == Fresh(next[i + 1..], seen)
    ensures next[i] !in seen ==>
              found + Fresh(next[i..], seen) == (found + [next[i]]) + Fresh(next[i + 1..], seen + {next[i]})
  {
    assert next[i..][1..] == next[i + 1..];
  }

  lemma AdoptOne(childToRoot: map<Id, Id>, found: seq<Id>, child: Id, rootId: Id)
    ensures Adopt(childToRoot, found + [child], rootId) == Adopt(childToRoot, found, rootId)[child := rootId]
    ensures Elems(found + [child]) == Elems(found) + {child}
  {
    assert Init(found + [child]) == found;
  }

  // The inner loop: claim the unseen successors of one node.  They are appended to the queue and
  // to the class together, so they are returned once.
  method Claim(next: seq<Id>, rootId: Id, seen0: set<Id>, childToRoot0: map<Id, Id>)
    returns (found: seq<Id>, seen: set<Id>, childToRoot: map<Id, Id>)
    requires rootId in seen0
    ensures found == Fresh(next, seen0) && seen == seen0 + Elems(found)
    ensures childToRoot == Adopt(childToRoot0, found, rootId)
  {
    found, seen, childToRoot := [], seen0, childToRoot0;
    for i := 0 to |next|
      invariant seen == seen0 + Elems(found)
      invariant found + Fresh(next[i..], seen) == Fresh(next, seen0)
      invariant childToRoot == Adopt(childToRoot0, found, rootId)
    {
      var child := next[i];
      ClaimOne(next, i, found, seen);
      if child == rootId || child in seen {
        continue;
      }
      AdoptOne(childToRoot0, found, child, rootId);
      seen, found, childToRoot := seen + {child}, found + [child], childToRoot[child := rootId];
    }
  }

  method Collect(nodes: map<Id, Node>, g: Graph, c: Classes, rootId: Id) returns (c': Classes)
    ensures c' == CollectFrom(nodes, g, c, rootId)
  {
    var queue, seen := [rootId], {rootId};
    var kids: seq<Id> := [];
    var childToRoot := c.childToRoot;
    while queue != []
      invariant rootId in seen
      invariant kids + Discover(Expanded(g), queue, seen) == Descendants(Expanded(g), rootId)
      invariant childToRoot == Adopt(c.childToRoot, kids, rootId)
      decreases Targets(Expanded(g)) - seen, |queue|
    {
      var current := queue[0];
      DiscoverStep(Expanded(g), kids, queue, seen);
      FreshShrinks(Expanded(g), current, seen);
      queue := queue[1..];
      if current == "" || current !in g {
        assert kids + [] == kids && queue + [] == queue;
        continue;
      }
      var found;
      found, seen, childToRoot := Claim(g[current], rootId, seen, childToRoot);
      AdoptMore(c.childToRoot, kids, found, rootId);
      queue, kids := queue + found, kids + found;
    }
    assert kids == Descendants(Expanded(g), rootId);
    if kids == [] {
      return c;
    }
    var latestId := FindLatest(nodes, kids);
    c' := Classes(childToRoot,
                  if Truthy(latestId) then c.latest[rootId := latestId.value] else c.latest,
                  c.members[rootId := kids],
                  AddUnique(c.order, rootId));
  }

  // First the parents that are nobody's child, then what is still unclaimed (pure cycles).
  function RootsOf(ix: Matches, parents: seq<Id>): seq<Id> {
    if parents == [] then []
    else RootsOf(ix, Init(parents)) + if Last(parents) in ix.childIds then [] else [Last(parents)]
  }

  function CollectAll(nodes: map<Id, Node>, g: Graph, roots: seq<Id>): Classes {
    if roots == [] then NO_CLASSES
    else CollectFrom(nodes, g, CollectAll(nodes, g, Init(roots)), Last(roots))
  }

  function CollectUnclaimed(nodes: map<Id, Node>, g: Graph, c: Classes, parent: Id): Classes {
    if parent in c.childToRoot || parent in c.members then c else CollectFrom(nodes, g, c, parent)
  }

  function CollectRest(nodes: map<Id, Node>, g: Graph, parents: seq<Id>, c: Classes): Classes {
    if parents == [] then c
    else CollectUnclaimed(nodes, g, CollectRest(nodes, g, Init(parents), c), Last(parents))
  }

  function ClassesOf(nodes: map<Id, Node>, ix: Matches): Classes {
    CollectRest(nodes, ix.children, ix.parentIds, CollectAll(nodes, ix.children, RootsOf(ix, ix.parentIds)))
  }

  method FindRoots(ix: Matches) returns (roots: seq<Id>)
    ensures roots == RootsOf(ix, ix.parentIds)
  {
    roots := [];
    for i := 0 to |ix.parentIds|
      invariant roots == RootsOf(ix, ix.parentIds[..i])
    {
      assert Init(ix.parentIds[..i + 1]) == ix.parentIds[..i];
      if ix.parentIds[i] !in ix.childIds {
        roots := roots + [ix.parentIds[i]];
      }
    }
    assert ix.parentIds[..|ix.parentIds|] == ix.parentIds;
  }

  method CollectRoots(nodes: map<Id, Node>, g: Graph, roots: seq<Id>) returns (c: Classes)
    ensures c == CollectAll(nodes, g, roots)
  {
    c := NO_CLASSES;
    for i := 0 to |roots|
      invariant c == CollectAll(nodes, g, roots[..i])
    {
      assert Init(roots[..i + 1]) == roots[..i];
      c := Collect(nodes, g, c, roots[i]);
    }
    assert roots[..|roots|] == roots;
  }

  method CollectRemaining(nodes: map<Id, Node>, g: Graph, parents: seq<Id>, c0: Classes) returns (c: Classes)
    ensures c == CollectRest(nodes, g, parents, c0)
  {
    c := c0;
    for i := 0 to |parents|
      invariant c == CollectRest(nodes, g, parents[..i], c0)
    {
      assert Init(parents[..i + 1]) == parents[..i];
      if parents[i] !in c.childToRoot && parents[i] !in c.members {
        c := Collect(nodes, g, c, parents[i]);
      }
    }
    assert parents[..|parents|] == parents;
  }

  method AssignClasses(nodes: map<Id, Node>, ix: Matches) returns (c: Classes)
    ensures c == ClassesOf(nodes, ix)
  {
    var roots := FindRoots(ix);
    c := CollectRoots(nodes, ix.children, roots);
    c := CollectRemaining(nodes, ix.children, ix.parentIds, c);
  }

  /******* Rewriting the graph *******/

  // The spread of the latest member over its representative keeps the latter's place in the tree.
  function Merge(root: Node, latest: Node, latestId: Id): Node {
    latest.(id := root.id, parentId := root.parentId, rootId := root.rootId,
            kind := if latest.kind.Absent? then root.kind else latest.kind,
            shown := root.shown + latest.shown,
            foldedLatestId := Some(latestId))
  }

  function FoldedNode(nodes: map<Id, Node>, c: Classes, id: Id): Node
    requires id in nodes
  {
    if id in c.latest && c.latest[id] in nodes then Merge(nodes[id], nodes[c.latest[id]], c.latest[id]) else nodes[id]
  }

  function FoldedNodes(nodes: map<Id, Node>, c: Classes): map<Id, Node> {
    map id | id in nodes && id !in c.childToRoot :: FoldedNode(nodes, c, id)
  }

  function Rep(c: Classes, id: Id): Id {
    if id in c.childToRoot then c.childToRoot[id] else id
  }

  function Redirected(c: Classes, e: Edge): Edge {
    var source, target := Rep(c, e.source), Rep(c, e.target);
    e.(id := source + "->" + target + ":" + KindOf(e), source := source, target := target)
  }

  predicate Survives(live: set<Id>, keys: set<string>, c: Classes, e: Edge) {
    && EdgeKey(e) !in keys
    && Rep(c, e.source) != Rep(c, e.target)
    && Rep(c, e.source) in live && Rep(c, e.target) in live
  }

  function RedirectedEdges(live: set<Id>, keys: set<string>, c: Classes, edges: seq<Edge>): seq<Edge> {
    if edges == [] then []
    else RedirectedEdges(live, keys, c, Init(edges)) +
         if Survives(live, keys, c, Last(edges)) then [Redirected(c, Last(edges))] else []
  }

  function SelfLoop(root: Id, count: nat): Edge {
    Edge(root + "->" + root + ":self", root, root, Some("self"), Some(Count(count)))
  }

  function SelfLoops(live: set<Id>, members: map<Id, seq<Id>>, order: seq<Id>): seq<Edge> {
    if order == [] then []
    else
      var root := Last(order);
      SelfLoops(live, members, Init(order)) +
      if root in live && root in members && members[root] != [] then [SelfLoop(root, |members[root]|)] else []
  }

  method DropFolded(nodes: map<Id, Node>, c: Classes) returns (live: map<Id, Node>)
    ensures live == nodes - c.childToRoot.Keys
  {
    live := nodes;
    var todo := c.childToRoot.Keys;
    while todo != {}
      invariant todo <= c.childToRoot.Keys
      invariant live == nodes - (c.childToRoot.Keys - todo)
      decreases |todo|
    {
      var childId :| childId in todo;
      live := live - {childId};
      todo := todo - {childId};
    }
  }

  // The nodes when the latest members of `pending` are still to be merged.
  ghost predicate RewrittenBut(nodes: map<Id, Node>, c: Classes, pending: set<Id>, newNodes: map<Id, Node>) {
    && newNodes.Keys == nodes.Keys - c.childToRoot.Keys
    && forall id :: id in newNodes ==>
         newNodes[id] == if id in pending then nodes[id] else FoldedNode(nodes, c, id)
  }

  lemma RewriteOne(nodes: map<Id, Node>, c: Classes, pending: set<Id>, newNodes: map<Id, Node>, id: Id)
    requires RewrittenBut(nodes, c, pending, newNodes) && id in pending && id in c.latest
    ensures id !in newNodes || c.latest[id] !in nodes ==> RewrittenBut(nodes, c, pending - {id}, newNodes)
    ensures id in newNodes && c.latest[id] in nodes ==>
              RewrittenBut(nodes, c, pending - {id},
                           newNodes[id := Merge(newNodes[id], nodes[c.latest[id]], c.latest[id])])
  {
  }

  lemma RewrittenAtEnds(nodes: map<Id, Node>, c: Classes, newNodes: map<Id, Node>)
    ensures RewrittenBut(nodes, c, c.latest.Keys, nodes - c.childToRoot.Keys)
    ensures RewrittenBut(nodes, c, {}, newNodes) ==> newNodes == FoldedNodes(nodes, c)
  {
  }

  method RewriteNodes(nodes: map<Id, Node>, c: Classes) returns (newNodes: map<Id, Node>)
    ensures newNodes == FoldedNodes(nodes, c)
  {
    newNodes := DropFolded(nodes, c);
    var pending := c.latest.Keys;
    RewrittenAtEnds(nodes, c, newNodes);
    while pending != {}
      invariant pending <= c.latest.Keys
      invariant RewrittenBut(nodes, c, pending, newNodes)
      decreases |pending|
    {
      var rootId :| rootId in pending;
      RewriteOne(nodes, c, pending, newNodes, rootId);
      pending := pending - {rootId};
      var latestChildId := c.latest[rootId];
      if rootId !in newNodes || latestChildId !in nodes {
        continue;
      }
      newNodes := newNodes[rootId := Merge(newNodes[rootId], nodes[latestChildId], latestChildId)];
    }
    RewrittenAtEnds(nodes, c, newNodes);
  }

  method RewriteEdges(edges: seq<Edge>, keys: set<string>, c: Classes, live: set<Id>) returns (newEdges: seq<Edge>)
    ensures newEdges == RedirectedEdges(live, keys, c, edges) + SelfLoops(live, c.members, c.order)
  {
    newEdges := [];
    for i := 0 to |edges|
      invariant newEdges == RedirectedEdges(live, keys, c, edges[..i])
    {
      var edge := edges[i];
      assert Init(edges[..i + 1]) == edges[..i];
      if EdgeKey(edge) in keys {
        continue;
      }
      var source := if edge.source in c.childToRoot then c.childToRoot[edge.source] else edge.source;
      var target := if edge.target in c.childToRoot then c.childToRoot[edge.target] else edge.target;
      if source == target {
        continue;
      }
      if source !in live || target !in live {
        continue;
      }
      newEdges := newEdges +
                  [edge.(id := source + "->" + target + ":" + KindOf(edge), source := source, target := target)];
    }
    assert edges[..|edges|] == edges;
    ghost var redirected := newEdges;
    for i := 0 to |c.order|
      invariant newEdges == redirected + SelfLoops(live, c.members, c.order[..i])
    {
      var rootId := c.order[i];
      assert Init(c.order[..i + 1]) == c.order[..i];
      if rootId !in live || rootId !in c.members || c.members[rootId] == [] {
        continue;
      }
      newEdges := newEdges + [SelfLoop(rootId, |c.members[rootId]|)];
    }
    assert c.order[..|c.order|] == c.order;
  }

  /******* The whole transformation *******/

  function Fold(m: Model): Model {
    var ix := IndexOf(m.nodes, m.edges);
    var c := ClassesOf(m.nodes, ix);
    if ix.keys == {} || c.childToRoot == map[] then m
    else
      var nodes := FoldedNodes(m.nodes, c);
      Model(m.meta, nodes,
            RedirectedEdges(nodes.Keys, ix.keys, c, m.edges) + SelfLoops(nodes.Keys, c.members, c.order),
            Some(FoldedInfo(c.childToRoot, c.latest)))
  }

  method FoldSelfScheduling(m: Model) returns (out: Model)
    ensures out == Fold(m)
  {
    var ix := IndexMatches(m.nodes, m.edges);
    if ix.keys == {} {
      return m;
    }
    var c := AssignClasses(m.nodes, ix);
    if c.childToRoot == map[] {
      return m;
    }
    var newNodes := RewriteNodes(m.nodes, c);
    var newEdges := RewriteEdges(m.edges, ix.keys, c, newNodes.Keys);
    out := Model(m.meta, newNodes, newEdges, Some(FoldedInfo(c.childToRoot, c.latest)));
  }

  function ById(nodes: seq<Node>): map<Id, Node> {
    if nodes == [] then map[] else ById(Init(nodes))[Last(nodes).id := Last(nodes)]
  }

  lemma {:induction false} ByIdKeyed(nodes: seq<Node>)
    ensures WellKeyed(ById(nodes))
  {
    if nodes != [] {
      ByIdKeyed(Init(nodes));
    }
  }

  /** Nodes go under their own identifiers, the last of several winning, and the fold keeps them there. */
  method BuildGraphModel(meta: Meta, payloadNodes: seq<Node>, edges: seq<Edge>) returns (out: Model)
    ensures out == Fold(Model(meta, ById(payloadNodes), edges, None)) && WellKeyed(out.nodes)
  {
    ByIdKeyed(payloadNodes);
    var nodes: map<Id, Node> := map[];
    for i := 0 to |payloadNodes|
      invariant nodes == ById(payloadNodes[..i])
    {
      assert Init(payloadNodes[..i + 1]) == payloadNodes[..i];
      nodes := nodes[payloadNodes[i].id := payloadNodes[i]];
    }
    assert payloadNodes[..|payloadNodes|] == payloadNodes;
    out := FoldSelfScheduling(Model(meta, nodes, edges, None));
  }
}
