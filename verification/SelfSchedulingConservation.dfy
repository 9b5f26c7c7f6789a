/** What a fold keeps: its nodes and edges are accounted for, and folding again changes nothing. */
module SelfSchedulingConservation {
  import opened Common
  import opened Digraph
  import opened GraphModel
  import opened SelfSchedulingFold
  import opened SelfSchedulingTheorems

  /** The edges are kept apart by their keys as far as the keys tell them apart. */
  ghost predicate SharesMatchingKey(m: Model, e: Edge) {
    exists e' :: e' in m.edges && Matching(m.nodes, e') && EdgeKey(e') == EdgeKey(e)
  }

  /** Live and folded nodes together are the original nodes, and no node is both. */
  lemma NodesConserved(m: Model)
    requires Folds(m)
    ensures Fold(m).nodes.Keys + ClassesFor(m).childToRoot.Keys == m.nodes.Keys
    ensures Fold(m).nodes.Keys !! ClassesFor(m).childToRoot.Keys
    ensures Fold(m).folded == Some(FoldedInfo(ClassesFor(m).childToRoot, ClassesFor(m).latest))
    ensures Fold(m).meta == m.meta
  {
    forall k | k in ClassesFor(m).childToRoot
      ensures k in m.nodes
    {
      RepresentativesAreLive(m, k);
    }
  }

  lemma RepLive(m: Model, x: Id)
    requires Folds(m)
    ensures Rep(ClassesFor(m), x) in Fold(m).nodes <==> x in m.nodes
  {
    if x in ClassesFor(m).childToRoot {
      RepresentativesAreLive(m, x);
    }
  }

  /******* Edges *******/

  /** An edge of the original graph is kept exactly when it shares no key with a matching edge, both
      its ends are nodes, and these do not collapse onto one representative. */
  ghost predicate Kept(m: Model, e: Edge) {
    && !SharesMatchingKey(m, e)
    && e.source in m.nodes && e.target in m.nodes
    && Rep(ClassesFor(m), e.source) != Rep(ClassesFor(m), e.target)
  }

  lemma KeptExactly(m: Model, e: Edge)
    requires Folds(m)
    ensures Kept(m, e) <==> Survives(Fold(m).nodes.Keys, IndexFor(m).keys, ClassesFor(m), e)
  {
    KeysExact(m, EdgeKey(e));
    RepLive(m, e.source);
    RepLive(m, e.target);
  }

  lemma {:induction false} RedirectedPrefix(live: set<Id>, keys: set<string>, c: Classes, edges: seq<Edge>, i: nat)
    requires i <= |edges|
    ensures RedirectedEdges(live, keys, c, edges[..i]) <= RedirectedEdges(live, keys, c, edges)
    decreases |edges| - i
  {
    if i < |edges| {
      assert Init(edges[..i + 1]) == edges[..i];
      RedirectedPrefix(live, keys, c, edges, i + 1);
    } else {
      assert edges[..i] == edges;
    }
  }

  lemma RedirectedAt(live: set<Id>, keys: set<string>, c: Classes, edges: seq<Edge>, i: nat)
    requires i < |edges|
    ensures var kept, at := RedirectedEdges(live, keys, c, edges), |RedirectedEdges(live, keys, c, edges[..i])|;
            var next := |RedirectedEdges(live, keys, c, edges[..i + 1])|;
            if Survives(live, keys, c, edges[i])
            then next == at + 1 <= |kept| && kept[at] == Redirected(c, edges[i])
            else next == at
  {
    assert Init(edges[..i + 1]) == edges[..i];
    RedirectedPrefix(live, keys, c, edges, i + 1);
  }

  // How many edges of the output stem from the first `i` edges of the input.
  function Before(m: Model, i: nat): nat
    requires i <= |m.edges|
  {
    |RedirectedEdges(Fold(m).nodes.Keys, IndexFor(m).keys, ClassesFor(m), m.edges[..i])|
  }

  /** A live node that stands for an original one: the node itself, or the one that claimed it. */
  ghost predicate StandsFor(m: Model, r: Id, x: Id) {
    && r in Fold(m).nodes && Fold(m).folded.Some?
    && var claimed := Fold(m).folded.value.childToRoot;
       r == if x in claimed then claimed[x] else x
  }

  /** An output edge is an original one between the nodes that stand for its ends. */
  ghost predicate Moved(m: Model, e: Edge, out: Edge) {
    && StandsFor(m, out.source, e.source) && StandsFor(m, out.target, e.target)
    && out.kind == e.kind && out.caption == e.caption
    && out.id == out.source + "->" + out.target + ":" + (if e.kind == None then "chain" else e.kind.value)
  }

  lemma RedirectedMoves(m: Model, e: Edge)
    requires Folds(m) && Kept(m, e)
    ensures Moved(m, e, Redirected(ClassesFor(m), e))
  {
    RepLive(m, e.source);
    RepLive(m, e.target);
  }

  /** Each kept edge appears exactly once, in order, with its ends replaced by their
      representatives; the others leave no trace. */
  lemma EdgesConserved(m: Model, i: nat)
    requires Folds(m) && i < |m.edges|
    ensures Kept(m, m.edges[i]) ==>
              && Before(m, i + 1) == Before(m, i) + 1 <= |Fold(m).edges|
              && Fold(m).edges[Before(m, i)] == Redirected(ClassesFor(m), m.edges[i])
              && Moved(m, m.edges[i], Fold(m).edges[Before(m, i)])
    ensures !Kept(m, m.edges[i]) ==> Before(m, i + 1) == Before(m, i)
  {
    KeptExactly(m, m.edges[i]);
    RedirectedAt(Fold(m).nodes.Keys, IndexFor(m).keys, ClassesFor(m), m.edges, i);
    if Kept(m, m.edges[i]) {
      RedirectedMoves(m, m.edges[i]);
    }
  }

  lemma {:induction false} RedirectedOrigin(live: set<Id>, keys: set<string>, c: Classes, edges: seq<Edge>, e: Edge)
    requires e in RedirectedEdges(live, keys, c, edges)
    ensures exists e0 :: e0 in edges && Survives(live, keys, c, e0) && e == Redirected(c, e0)
  {
    var last := Last(edges);
    if Survives(live, keys, c, last) && e == Redirected(c, last) {
      assert last in edges;
    } else {
      RedirectedOrigin(live, keys, c, Init(edges), e);
      var e0 :| e0 in Init(edges) && Survives(live, keys, c, e0) && e == Redirected(c, e0);
      assert e0 in edges;
    }
  }

  lemma {:induction false} SelfLoopsExact(live: set<Id>, members: map<Id, seq<Id>>, order: seq<Id>, e: Edge)
    ensures e in SelfLoops(live, members, order) <==>
            exists r :: r in order && r in live && r in members && members[r] != [] && e == SelfLoop(r, |members[r]|)
  {
    if order != [] {
      SelfLoopsExact(live, members, Init(order), e);
      assert forall r :: r in order <==> r in Init(order) || r == Last(order);
    }
  }

  /** Every edge of the output is a kept edge, or the self-loop of a live class with the size of that
      class, and has live ends. */
  lemma OutputEdges(m: Model, e: Edge)
    requires Folds(m) && e in Fold(m).edges
    ensures e.source in Fold(m).nodes && e.target in Fold(m).nodes
    ensures (exists e0 :: e0 in m.edges && Kept(m, e0) && e == Redirected(ClassesFor(m), e0) && Moved(m, e0, e))
         || (exists r :: r in ClassesFor(m).members && r in Fold(m).nodes
                      && e == SelfLoop(r, |ClassesFor(m).members[r]|))
  {
    var live, keys, c := Fold(m).nodes.Keys, IndexFor(m).keys, ClassesFor(m);
    if e in RedirectedEdges(live, keys, c, m.edges) {
      RedirectedOrigin(live, keys, c, m.edges, e);
      var e0 :| e0 in m.edges && Survives(live, keys, c, e0) && e == Redirected(c, e0);
      KeptExactly(m, e0);
      RedirectedMoves(m, e0);
    } else {
      SelfLoopsExact(live, c.members, c.order, e);
    }
  }

  lemma HeadOnce(nodes: map<Id, Node>, g: Graph, c: Classes, root: Id)
    requires NoDup(c.order)
    ensures NoDup(CollectFrom(nodes, g, c, root).order)
  {
  }

  lemma {:induction false} HeadsOnce(nodes: map<Id, Node>, g: Graph, roots: seq<Id>)
    ensures NoDup(CollectAll(nodes, g, roots).order)
  {
    if roots != [] {
      HeadsOnce(nodes, g, Init(roots));
      HeadOnce(nodes, g, CollectAll(nodes, g, Init(roots)), Last(roots));
    }
  }

  lemma {:induction false} HeadsStayOnce(nodes: map<Id, Node>, g: Graph, parents: seq<Id>, c: Classes)
    requires NoDup(c.order)
    ensures NoDup(CollectRest(nodes, g, parents, c).order)
  {
    if parents != [] {
      HeadsStayOnce(nodes, g, Init(parents), c);
      HeadOnce(nodes, g, CollectRest(nodes, g, Init(parents), c), Last(parents));
    }
  }

  lemma ClassesListedOnce(m: Model)
    ensures NoDup(ClassesFor(m).order)
  {
    var ix := IndexFor(m);
    HeadsOnce(m.nodes, ix.children, RootsOf(ix, ix.parentIds));
    HeadsStayOnce(m.nodes, ix.children, ix.parentIds, CollectAll(m.nodes, ix.children, RootsOf(ix, ix.parentIds)));
  }

  lemma {:induction false} LoopedOnce(live: set<Id>, members: map<Id, seq<Id>>, order: seq<Id>, r: Id)
    requires NoDup(order) && r in order && r in live && r in members && members[r] != []
    ensures multiset(SelfLoops(live, members, order))[SelfLoop(r, |members[r]|)] == 1
  {
    var before := SelfLoops(live, members, Init(order));
    if Last(order) == r {
      SelfLoopsExact(live, members, Init(order), SelfLoop(r, |members[r]|));
      assert r !in Init(order);
      assert SelfLoop(r, |members[r]|) !in before;
    } else {
      LoopedOnce(live, members, Init(order), r);
    }
  }

  /** A live class has exactly one self-loop, labelled with its size, and its root has no other. */
  lemma OneLoopEach(m: Model, r: Id)
    requires Folds(m) && r in Fold(m).nodes && r in ClassesFor(m).members
    ensures multiset(Fold(m).edges)[SelfLoop(r, |ClassesFor(m).members[r]|)] == 1
    ensures forall e :: e in Fold(m).edges && e.source == r == e.target ==>
              e == SelfLoop(r, |ClassesFor(m).members[r]|)
  {
    var live, keys, c := Fold(m).nodes.Keys, IndexFor(m).keys, ClassesFor(m);
    ClassesHold(m);
    ClassesListedOnce(m);
    assert r in Elems(c.order);
    LoopedOnce(live, c.members, c.order, r);
    var loop := SelfLoop(r, |c.members[r]|);
    if loop in RedirectedEdges(live, keys, c, m.edges) {
      RedirectedOrigin(live, keys, c, m.edges, loop);
      assert false;
    }
    forall e | e in Fold(m).edges && e.source == r == e.target
      ensures e == loop
    {
      OutputEdges(m, e);
    }
  }

  /** Each representative carries exactly one self-loop; its label is the number of other nodes that
      the representative reaches by matching edges. */
  lemma SelfLoopCounts(m: Model, k: Id) returns (others: set<Id>)
    requires Folds(m) && k in ClassesFor(m).childToRoot
    ensures var r := ClassesFor(m).childToRoot[k];
            && multiset(Fold(m).edges)[SelfLoop(r, |others|)] == 1
            && (forall e :: e in Fold(m).edges && e.source == r == e.target ==>
                  && e == SelfLoop(r, |others|)
                  && e.kind == Some("self") && e.caption == Some(Count(|others|)) && e.id == r + "->" + r + ":self")
            && forall v :: v in others <==> v != r && Reach(ArcGraph(m), r, v)
  {
    var r := ClassesFor(m).childToRoot[k];
    RepresentativesAreLive(m, k);
    ClassesHold(m);
    assert Claimed(ArcGraph(m), ClassesFor(m), k);
    others := Elems(ClassesFor(m).members[r]);
    DescendantsExact(ArcGraph(m), r);
    NoDupLength(ClassesFor(m).members[r]);
    OneLoopEach(m, r);
  }

  /******* Idempotence *******/

  lemma LiveSignature(m: Model, x: Id)
    requires Folds(m) && Rep(ClassesFor(m), x) in Fold(m).nodes
    requires Foldable(Fold(m).nodes[Rep(ClassesFor(m), x)])
    ensures x in m.nodes && Foldable(m.nodes[x])
    ensures Signature(m.nodes[x]) == Signature(Fold(m).nodes[Rep(ClassesFor(m), x)])
  {
    var g, c := ArcGraph(m), ClassesFor(m);
    var r := Rep(c, x);
    ClassesHold(m);
    RepLive(m, x);
    if x != r {
      assert Claimed(g, c, x);
      SameSignature(m, r, x);
    }
    if r in c.latest {
      DescendantsExact(g, r);
      LatestIsMember(m.nodes, c.members[r]);
      SameSignature(m, r, c.latest[r]);
    }
  }

  /** A folded model has no matching edge left. */
  lemma NothingLeftToFold(m: Model, e: Edge)
    requires Folds(m) && e in Fold(m).edges
    ensures !Matching(Fold(m).nodes, e)
  {
    if Matching(Fold(m).nodes, e) {
      OutputEdges(m, e);
      var e0 :| e0 in m.edges && Kept(m, e0) && e == Redirected(ClassesFor(m), e0);
      LiveSignature(m, e0.source);
      LiveSignature(m, e0.target);
      assert Matching(m.nodes, e0);
      assert false;
    }
  }

  lemma {:induction false} NoMatchesNoIndex(nodes: map<Id, Node>, edges: seq<Edge>)
    requires forall e :: e in edges ==> !Matching(nodes, e)
    ensures IndexOf(nodes, edges) == NO_MATCHES
  {
    if edges != [] {
      assert Last(edges) in edges;
      NoMatchesNoIndex(nodes, Init(edges));
    }
  }

  /** Folding is idempotent, on every model. */
  lemma FoldIdempotent(m: Model)
    ensures Fold(Fold(m)) == Fold(m)
  {
    if Folds(m) {
      forall e | e in Fold(m).edges
        ensures !Matching(Fold(m).nodes, e)
      {
        NothingLeftToFold(m, e);
      }
      NoMatchesNoIndex(Fold(m).nodes, Fold(m).edges);
    }
  }

  /******* Edge keys *******/

  /** Without a colon in the sources, equal keys mean equal ends. */
  lemma KeysSeparate(s: string, t: string, s': string, t': string)
    requires ':' !in s && ':' !in s' && s + "::" + t == s' + "::" + t'
    ensures s == s' && t == t'
  {
    var k := s + "::" + t;
    assert k[|s|] == ':' && k[|s'|] == (s' + "::" + t')[|s'|];
    assert |s| == |s'|;
    assert s == k[..|s|] && s' == k[..|s|] && t == k[|s| + 2..] && t' == k[|s| + 2..];
  }

  /** So with colon-free sources, an edge between two nodes is dropped only if it runs between the
      ends of a matching edge or collapses. */
  lemma KeptWithoutColons(m: Model, e: Edge)
    requires Folds(m) && e in m.edges && forall e' :: e' in m.edges ==> ':' !in e'.source
    ensures Kept(m, e) <==>
              && !Arc(m, e.source, e.target)
              && e.source in m.nodes && e.target in m.nodes
              && Rep(ClassesFor(m), e.source) != Rep(ClassesFor(m), e.target)
  {
    if SharesMatchingKey(m, e) {
      var e' :| e' in m.edges && Matching(m.nodes, e') && EdgeKey(e') == EdgeKey(e);
      KeysSeparate(e.source, e.target, e'.source, e'.target);
    }
    if Arc(m, e.source, e.target) {
      var e' :| e' in m.edges && Matching(m.nodes, e') && e'.source == e.source && e'.target == e.target;
      assert EdgeKey(e') == EdgeKey(e);
    }
  }

  function TaskNode(id: Id, name: string): Node {
    Node(id, Some(name), Some("SUCCESS"), Null, None, None, None, None, None, None, None, map[])
  }

  const MATCHED := Edge("f", "a", "b::c", None, None)
  const UNRELATED := Edge("e", "a::b", "c", None, None)
  const COLON_MODEL := Model(
    Meta(None, None),
    map["a" := TaskNode("a", "t"), "b::c" := TaskNode("b::c", "t"),
        "a::b" := TaskNode("a::b", "u"), "c" := TaskNode("c", "v")],
    [MATCHED, UNRELATED], None)

  lemma ColonModelArcs()
    ensures Matching(COLON_MODEL.nodes, MATCHED) && !Matching(COLON_MODEL.nodes, UNRELATED)
    ensures EdgeKey(MATCHED) == EdgeKey(UNRELATED)
    ensures forall u, v :: Arc(COLON_MODEL, u, v) <==> u == "a" && v == "b::c"
  {
    assert Signature(COLON_MODEL.nodes["a::b"])[0] == 'u' && Signature(COLON_MODEL.nodes["c"])[0] == 'v';
    assert MATCHED in COLON_MODEL.edges;
    assert EdgeKey(MATCHED) == "a::b::c" == EdgeKey(UNRELATED);
  }

  lemma ColonFolded()
    ensures forall k :: k in ClassesFor(COLON_MODEL).childToRoot ==> k == "b::c"
  {
    ColonModelArcs();
    ClassesHold(COLON_MODEL);
    IndexExact(COLON_MODEL);
    forall k | k in ClassesFor(COLON_MODEL).childToRoot
      ensures k == "b::c"
    {
      ClaimedIsChild(COLON_MODEL, ClassesFor(COLON_MODEL), k);
    }
  }

  /** With a colon in an identifier an unrelated edge can share the key of a matching one and is
      lost, although its ends are live, distinct and joined by no matching edge. */
  lemma ColonLosesEdge()
    ensures Folds(COLON_MODEL) && UNRELATED in COLON_MODEL.edges
    ensures UNRELATED.source in Fold(COLON_MODEL).nodes && UNRELATED.target in Fold(COLON_MODEL).nodes
    ensures UNRELATED.source != UNRELATED.target && !Arc(COLON_MODEL, UNRELATED.source, UNRELATED.target)
    ensures !Kept(COLON_MODEL, UNRELATED)
  {
    ColonModelArcs();
    assert Arc(COLON_MODEL, "a", "b::c");
    assert MATCHED in COLON_MODEL.edges;
    FoldsExactly(COLON_MODEL);
    ColonFolded();
  }

  /******* The displayed latest member *******/

  /** When a task was last heard of: its finish if it has one, and otherwise its start, as far as
      that is a date. */
  function HeardAt(n: Node): Option<int> {
    match (n.finishedAt, n.startedAt)
    case (Some(At(ms)), _) => Some(ms)
    case (None, Some(At(ms))) => Some(ms)
    case _ => None
  }

  ghost predicate HeardLater(a: Node, b: Node) {
    HeardAt(a).Some? && (HeardAt(b).None? || HeardAt(a).value > HeardAt(b).value)
  }

  // No member was heard of later, and those after it not even at the same time.
  ghost predicate LatestAt(nodes: map<Id, Node>, kids: seq<Id>, i: int)
    requires forall k :: k in kids ==> k in nodes
  {
    && 0 <= i < |kids|
    && (forall j :: 0 <= j < i ==> !HeardLater(nodes[kids[j]], nodes[kids[i]]))
    && (forall j :: i < j < |kids| ==> HeardLater(nodes[kids[i]], nodes[kids[j]]))
  }

  /** What a representative shows of a member: everything but the place in the tree.  A property
      that the member lacks stays that of the representative. */
  ghost predicate Shows(n: Node, root: Node, member: Node, memberId: Id) {
    && n.id == root.id && n.parentId == root.parentId && n.rootId == root.rootId
    && n.foldedLatestId == Some(memberId)
    && n.taskName == member.taskName && n.state == member.state
    && n.kind == (if member.kind == Absent then root.kind else member.kind)
    && n.argsPreview == member.argsPreview && n.kwargsPreview == member.kwargsPreview
    && n.startedAt == member.startedAt && n.finishedAt == member.finishedAt
    && n.shown.Keys == root.shown.Keys + member.shown.Keys
    && forall p :: p in n.shown ==> n.shown[p] == if p in member.shown then member.shown[p] else root.shown[p]
  }

  /** The member shown for a class has the greatest timestamp, and among equals it is the last one
      discovered. */
  lemma {:induction false} LatestExact(nodes: map<Id, Node>, kids: seq<Id>) returns (i: int)
    requires kids != [] && forall k :: k in kids ==> k in nodes
    ensures LatestAt(nodes, kids, i) && LatestOf(nodes, kids) == (Some(kids[i]), HeardAt(nodes[kids[i]]))
  {
    i := |kids| - 1;
    if |kids| > 1 {
      var i0 := LatestExact(nodes, Init(kids));
      assert LatestAt(nodes, Init(kids), i0) && Init(kids)[i0] == kids[i0];
      if HeardLater(nodes[kids[i0]], nodes[kids[i]]) {
        i := i0;
      }
      forall j | 0 <= j < |kids| - 1
        ensures kids[j] == Init(kids)[j]
      {
      }
    }
  }

  lemma MembersAreNodes(m: Model, id: Id)
    requires id in ClassesFor(m).members
    ensures ClassesFor(m).members[id] != [] && forall k :: k in ClassesFor(m).members[id] ==> k in m.nodes
  {
    ClassesHold(m);
    DescendantsExact(ArcGraph(m), id);
    forall k | k in ClassesFor(m).members[id]
      ensures k in m.nodes
    {
      SameSignature(m, id, k);
    }
  }

  lemma FoldedNodeShows(nodes: map<Id, Node>, c: Classes, id: Id, latest: Id)
    requires LatestOk(nodes, c) && id in c.members && id in nodes && latest in nodes
    requires LatestOf(nodes, c.members[id]).0 == Some(latest)
    ensures if latest == "" then FoldedNode(nodes, c, id) == nodes[id]
            else Shows(FoldedNode(nodes, c, id), nodes[id], nodes[latest], latest)
  {
  }

  /** A representative shows its latest member under its own place in the tree.  (A member with the
      empty identifier is never shown.) */
  lemma RepresentativeShowsLatest(m: Model, id: Id) returns (i: int)
    requires Folds(m) && id in Fold(m).nodes && id in ClassesFor(m).members
    ensures forall k :: k in ClassesFor(m).members[id] ==> k in m.nodes
    ensures LatestAt(m.nodes, ClassesFor(m).members[id], i)
    ensures var latest := ClassesFor(m).members[id][i];
            if latest == "" then Fold(m).nodes[id] == m.nodes[id]
            else Shows(Fold(m).nodes[id], m.nodes[id], m.nodes[latest], latest)
  {
    var c := ClassesFor(m);
    ClassesHold(m);
    MembersAreNodes(m, id);
    i := LatestExact(m.nodes, c.members[id]);
    assert c.members[id][i] in c.members[id];
    FoldedNodeShows(m.nodes, c, id, c.members[id][i]);
  }

  /** Every other live node is as before. */
  lemma OtherNodesKept(m: Model, id: Id)
    requires id in Fold(m).nodes && id !in ClassesFor(m).members
    ensures id in m.nodes && Fold(m).nodes[id] == m.nodes[id]
  {
    ClassesHold(m);
  }
}
