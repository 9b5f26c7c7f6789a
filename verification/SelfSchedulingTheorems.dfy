/** What folding promises: a flat map onto live representatives, nothing left to fold, no node or
    edge lost beyond what is collapsed. */
module SelfSchedulingTheorems {
  import opened Common
  import opened Digraph
  import opened GraphModel
  import opened SelfSchedulingFold

  /******* The matching edges as a graph *******/

  ghost predicate Arc(m: Model, u: Id, v: Id) {
    exists e :: e in m.edges && Matching(m.nodes, e) && e.source == u && e.target == v
  }

  function IndexFor(m: Model): Matches {
    IndexOf(m.nodes, m.edges)
  }

  /** The graph the queue loops walk: matching edges, except those leaving the empty identifier. */
  function ArcGraph(m: Model): Graph {
    Expanded(IndexFor(m).children)
  }

  function ClassesFor(m: Model): Classes {
    ClassesOf(m.nodes, IndexFor(m))
  }

  ghost predicate Folds(m: Model) {
    IndexFor(m).keys != {} && ClassesFor(m).childToRoot != map[]
  }

  lemma ArcsOfOneMore(m: Model, u: Id, v: Id)
    requires m.edges != []
    ensures var last := Last(m.edges);
            Arc(m, u, v) <==> Arc(m.(edges := Init(m.edges)), u, v)
                              || (Matching(m.nodes, last) && u == last.source && v == last.target)
  {
  }

  lemma {:induction false} IndexExact(m: Model)
    ensures forall u, v :: v in Next(IndexFor(m).children, u) <==> Arc(m, u, v)
    ensures forall u :: u in IndexFor(m).parentIds <==> exists v :: Arc(m, u, v)
    ensures forall v :: v in IndexFor(m).childIds <==> exists u :: Arc(m, u, v)
    decreases |m.edges|
  {
    if m.edges != [] {
      var m0 := m.(edges := Init(m.edges));
      IndexExact(m0);
      forall u, v
        ensures Arc(m, u, v) <==>
                (Arc(m0, u, v)
                 || (Matching(m.nodes, Last(m.edges)) && u == Last(m.edges).source && v == Last(m.edges).target))
      {
        ArcsOfOneMore(m, u, v);
      }
      var ix0 := IndexFor(m0);
      assert IndexFor(m) == if Matching(m.nodes, Last(m.edges)) then AddMatch(ix0, Last(m.edges)) else ix0;
    }
  }

  lemma {:induction false} KeysExact(m: Model, k: string)
    ensures k in IndexFor(m).keys <==> exists e :: e in m.edges && Matching(m.nodes, e) && EdgeKey(e) == k
    decreases |m.edges|
  {
    if m.edges != [] {
      var m0 := m.(edges := Init(m.edges));
      KeysExact(m0, k);
      assert forall e :: e in m.edges <==> e in m0.edges || e == Last(m.edges);
      var ix0 := IndexFor(m0);
      assert IndexFor(m) == if Matching(m.nodes, Last(m.edges)) then AddMatch(ix0, Last(m.edges)) else ix0;
    }
  }

  /** The walked graph has exactly the matching edges that leave a non-empty identifier. */
  lemma ArcGraphExact(m: Model, u: Id, v: Id)
    ensures v in Next(ArcGraph(m), u) <==> u != "" && Arc(m, u, v)
  {
    IndexExact(m);
  }

  /** Along matching edges every node exists, is foldable and has the same signature. */
  lemma SameSignature(m: Model, u: Id, v: Id)
    requires Reach(ArcGraph(m), u, v) && u != v
    ensures u in m.nodes && v in m.nodes && Foldable(m.nodes[u]) && Foldable(m.nodes[v])
    ensures Signature(m.nodes[u]) == Signature(m.nodes[v])
  {
    var p :| PathBetween(ArcGraph(m), p, u, v);
    var i := 1;
    ArcGraphExact(m, p[0], p[0 + 1]);
    while i < |p| - 1
      invariant 1 <= i < |p|
      invariant u in m.nodes && p[i] in m.nodes && Foldable(m.nodes[u]) && Foldable(m.nodes[p[i]])
      invariant Signature(m.nodes[u]) == Signature(m.nodes[p[i]])
    {
      ArcGraphExact(m, p[i], p[i + 1]);
      i := i + 1;
    }
  }

  /******* The invariant of collecting *******/

  ghost predicate MembersOk(g: Graph, c: Classes) {
    && c.members.Keys == Elems(c.order)
    && (forall r :: r in c.members ==> c.members[r] == Descendants(g, r) != [])
  }

  ghost predicate LatestOk(nodes: map<Id, Node>, c: Classes) {
    && (forall r :: r in c.latest <==> r in c.members && Truthy(LatestOf(nodes, c.members[r]).0))
    && (forall r :: r in c.latest ==> LatestOf(nodes, c.members[r]).0 == Some(c.latest[r]))
  }

  ghost predicate ClaimsOk(g: Graph, c: Classes) {
    && (forall k :: k in c.childToRoot ==> Claimed(g, c, k))
    && (forall r, k :: r in c.members && k in c.members[r] ==> k in c.childToRoot)
  }

  ghost predicate ClassesOk(nodes: map<Id, Node>, g: Graph, c: Classes) {
    MembersOk(g, c) && LatestOk(nodes, c) && ClaimsOk(g, c)
  }

  ghost predicate Claimed(g: Graph, c: Classes, k: Id)
    requires k in c.childToRoot
  {
    var r := c.childToRoot[k];
    r in c.members && r !in c.childToRoot && r != k && Reach(g, r, k)
  }

  lemma {:induction false} AdoptExact(childToRoot: map<Id, Id>, kids: seq<Id>, root: Id)
    ensures forall k :: k in Adopt(childToRoot, kids, root) <==> k in childToRoot || k in kids
    ensures forall k :: k in Adopt(childToRoot, kids, root) ==>
              Adopt(childToRoot, kids, root)[k] == if k in kids then root else childToRoot[k]
  {
    if kids != [] {
      AdoptExact(childToRoot, Init(kids), root);
      assert forall k :: k in kids <==> k in Init(kids) || k == Last(kids);
    }
  }

  lemma {:induction false} LatestIsMember(nodes: map<Id, Node>, kids: seq<Id>)
    ensures LatestOf(nodes, kids).0.Some? ==> LatestOf(nodes, kids).0.value in kids
  {
    if kids != [] {
      LatestIsMember(nodes, Init(kids));
    }
  }

  /** A node claimed before keeps its representative unless that representative is claimed too, and
      then the node itself is claimed anew: this is what keeps the map flat on cycles. */
  lemma StillClaimed(g: Graph, c: Classes, c': Classes, root: Id, k: Id)
    requires ClaimsOk(g, c) && root !in c.childToRoot
    requires c'.childToRoot == Adopt(c.childToRoot, Descendants(g, root), root)
    requires root in c'.members && c.members.Keys <= c'.members.Keys
    requires k in c'.childToRoot
    ensures Claimed(g, c', k)
  {
    var kids := Descendants(g, root);
    DescendantsExact(g, root);
    AdoptExact(c.childToRoot, kids, root);
    if k !in kids {
      var r := c.childToRoot[k];
      assert Claimed(g, c, k);
      if r in kids {
        ReachTrans(g, root, r, k);
      }
    }
  }

  lemma MembersKeep(nodes: map<Id, Node>, g: Graph, c: Classes, root: Id)
    requires MembersOk(Expanded(g), c)
    ensures MembersOk(Expanded(g), CollectFrom(nodes, g, c, root))
  {
  }

  lemma LatestAfter(nodes: map<Id, Node>, c: Classes, c': Classes, root: Id, kids: seq<Id>)
    requires LatestOk(nodes, c) && (root in c.members ==> c.members[root] == kids)
    requires c'.members == c.members[root := kids]
    requires var latest := LatestOf(nodes, kids).0;
             c'.latest == if Truthy(latest) then c.latest[root := latest.value] else c.latest
    ensures LatestOk(nodes, c')
  {
  }

  lemma LatestKeep(nodes: map<Id, Node>, g: Graph, c: Classes, root: Id)
    requires MembersOk(Expanded(g), c) && LatestOk(nodes, c)
    ensures LatestOk(nodes, CollectFrom(nodes, g, c, root))
  {
    var kids := Descendants(Expanded(g), root);
    if kids != [] {
      LatestAfter(nodes, c, CollectFrom(nodes, g, c, root), root, kids);
    }
  }

  lemma CollectGrows(nodes: map<Id, Node>, g: Graph, c: Classes, root: Id)
    ensures var c' := CollectFrom(nodes, g, c, root);
            c.childToRoot.Keys <= c'.childToRoot.Keys && c.members.Keys <= c'.members.Keys
    ensures Descendants(Expanded(g), root) != [] ==> root in CollectFrom(nodes, g, c, root).members
  {
    AdoptExact(c.childToRoot, Descendants(Expanded(g), root), root);
  }

  lemma ClaimsKeep(nodes: map<Id, Node>, g: Graph, c: Classes, root: Id)
    requires MembersOk(Expanded(g), c) && ClaimsOk(Expanded(g), c) && root !in c.childToRoot
    ensures ClaimsOk(Expanded(g), CollectFrom(nodes, g, c, root))
  {
    var kids := Descendants(Expanded(g), root);
    if kids != [] {
      var c' := CollectFrom(nodes, g, c, root);
      CollectGrows(nodes, g, c, root);
      AdoptExact(c.childToRoot, kids, root);
      forall k | k in c'.childToRoot
        ensures Claimed(Expanded(g), c', k)
      {
        StillClaimed(Expanded(g), c, c', root, k);
      }
    }
  }

  lemma CollectKeeps(nodes: map<Id, Node>, g: Graph, c: Classes, root: Id)
    requires ClassesOk(nodes, Expanded(g), c) && root !in c.childToRoot
    ensures ClassesOk(nodes, Expanded(g), CollectFrom(nodes, g, c, root))
    ensures var c' := CollectFrom(nodes, g, c, root);
            c.childToRoot.Keys <= c'.childToRoot.Keys && c.members.Keys <= c'.members.Keys
    ensures Descendants(Expanded(g), root) != [] ==> root in CollectFrom(nodes, g, c, root).members
  {
    MembersKeep(nodes, g, c, root);
    LatestKeep(nodes, g, c, root);
    ClaimsKeep(nodes, g, c, root);
    CollectGrows(nodes, g, c, root);
  }

  lemma ClaimedIsChild(m: Model, c: Classes, k: Id)
    requires ClassesOk(m.nodes, ArcGraph(m), c) && k in c.childToRoot
    ensures k in IndexFor(m).childIds
  {
    assert Claimed(ArcGraph(m), c, k);
    var w := LastStep(ArcGraph(m), c.childToRoot[k], k);
    ArcGraphExact(m, w, k);
    IndexExact(m);
  }

  lemma {:induction false} RootsAreNoChildren(ix: Matches, parents: seq<Id>)
    ensures forall r :: r in RootsOf(ix, parents) ==> r !in ix.childIds
  {
    if parents != [] {
      RootsAreNoChildren(ix, Init(parents));
    }
  }

  lemma {:induction false} FirstPhaseOk(m: Model, roots: seq<Id>)
    requires forall r :: r in roots ==> r !in IndexFor(m).childIds
    ensures ClassesOk(m.nodes, ArcGraph(m), CollectAll(m.nodes, IndexFor(m).children, roots))
  {
    if roots != [] {
      FirstPhaseOk(m, Init(roots));
      var c := CollectAll(m.nodes, IndexFor(m).children, Init(roots));
      if Last(roots) in c.childToRoot {
        ClaimedIsChild(m, c, Last(roots));
      }
      CollectKeeps(m.nodes, IndexFor(m).children, c, Last(roots));
    }
  }

  ghost predicate Settled(g: Graph, c: Classes, p: Id) {
    Descendants(g, p) == [] || p in c.childToRoot || p in c.members
  }

  lemma SecondPhaseTurn(nodes: map<Id, Node>, g: Graph, c: Classes, parent: Id)
    requires ClassesOk(nodes, Expanded(g), c)
    ensures var c' := CollectUnclaimed(nodes, g, c, parent);
            && ClassesOk(nodes, Expanded(g), c') && Settled(Expanded(g), c', parent)
            && forall p :: Settled(Expanded(g), c, p) ==> Settled(Expanded(g), c', p)
  {
    if !(parent in c.childToRoot || parent in c.members) {
      CollectKeeps(nodes, g, c, parent);
    }
  }

  lemma {:induction false} SecondPhaseOk(nodes: map<Id, Node>, g: Graph, parents: seq<Id>, c: Classes)
    requires ClassesOk(nodes, Expanded(g), c)
    ensures ClassesOk(nodes, Expanded(g), CollectRest(nodes, g, parents, c))
    ensures forall p :: p in parents ==> Settled(Expanded(g), CollectRest(nodes, g, parents, c), p)
  {
    if parents != [] {
      var c0 := CollectRest(nodes, g, Init(parents), c);
      SecondPhaseOk(nodes, g, Init(parents), c);
      SecondPhaseTurn(nodes, g, c0, Last(parents));
      assert forall p :: p in parents ==> p in Init(parents) || p == Last(parents);
    }
  }

  lemma ClassesHold(m: Model)
    ensures ClassesOk(m.nodes, ArcGraph(m), ClassesFor(m))
    ensures forall p :: p in IndexFor(m).parentIds ==> Settled(ArcGraph(m), ClassesFor(m), p)
  {
    var ix := IndexFor(m);
    RootsAreNoChildren(ix, ix.parentIds);
    FirstPhaseOk(m, RootsOf(ix, ix.parentIds));
    SecondPhaseOk(m.nodes, ix.children, ix.parentIds, CollectAll(m.nodes, ix.children, RootsOf(ix, ix.parentIds)));
  }

  /******* Flatness *******/

  /** The representative map is flat: every representative is a live node and is not mapped away
      itself, it reaches the node it stands for by matching edges, and both have one signature. */
  lemma RepresentativesAreLive(m: Model, k: Id)
    requires Folds(m) && k in ClassesFor(m).childToRoot
    ensures var r := ClassesFor(m).childToRoot[k];
            && r !in ClassesFor(m).childToRoot
            && r in Fold(m).nodes && k !in Fold(m).nodes && k in m.nodes
            && r != k && Reach(ArcGraph(m), r, k)
            && Signature(m.nodes[r]) == Signature(m.nodes[k])
  {
    ClassesHold(m);
    assert Claimed(ArcGraph(m), ClassesFor(m), k);
    SameSignature(m, ClassesFor(m).childToRoot[k], k);
  }

  /** Folding is complete: the target of a matching edge is folded unless it heads a class itself. */
  lemma MatchedTargetsFolded(m: Model, u: Id, v: Id)
    requires Arc(m, u, v) && u != ""
    ensures v in ClassesFor(m).childToRoot || v in ClassesFor(m).members
  {
    var g, c := ArcGraph(m), ClassesFor(m);
    ClassesHold(m);
    IndexExact(m);
    ArcGraphExact(m, u, v);
    ReachSelf(g, u);
    ReachStep(g, u, u, v);
    DescendantsExact(g, u);
    assert v in Descendants(g, u);
    assert Settled(g, c, u);
    if u in c.childToRoot {
      assert Claimed(g, c, u);
      var r := c.childToRoot[u];
      ReachTrans(g, r, u, v);
      DescendantsExact(g, r);
    }
  }

  /** The fold leaves the model alone exactly when no matching edge leaves a non-empty identifier. */
  lemma FoldsExactly(m: Model)
    ensures Folds(m) <==> exists u, v :: u != "" && Arc(m, u, v)
  {
    if Folds(m) {
      var k :| k in ClassesFor(m).childToRoot;
      ClassesHold(m);
      assert Claimed(ArcGraph(m), ClassesFor(m), k);
      var w := LastStep(ArcGraph(m), ClassesFor(m).childToRoot[k], k);
      ArcGraphExact(m, w, k);
    }
    if u, v :| u != "" && Arc(m, u, v) {
      MatchedTargetsFolded(m, u, v);
      ClassesHold(m);
      var c := ClassesFor(m);
      if v !in c.childToRoot {
        assert c.members[v][0] in c.childToRoot;
      }
      var e :| e in m.edges && Matching(m.nodes, e) && e.source == u && e.target == v;
      KeysExact(m, EdgeKey(e));
    }
  }

  /******* Later passes overwrite earlier ones *******/

  /** No head collected after the node's representative has the node among its members. */
  ghost predicate WonByLast(c: Classes, k: Id)
    requires k in c.childToRoot
  {
    exists i :: 0 <= i < |c.order| && c.order[i] == c.childToRoot[k]
      && forall j :: i < j < |c.order| && c.order[j] in c.members ==> k !in c.members[c.order[j]]
  }

  ghost predicate LastWins(c: Classes) {
    forall k :: k in c.childToRoot ==> WonByLast(c, k)
  }

  lemma StillWonByLast(c: Classes, c': Classes, root: Id, kids: seq<Id>, k: Id)
    requires c'.order == c.order + [root] && root !in c.members && c'.members == c.members[root := kids]
    requires k in c.childToRoot && k !in kids && WonByLast(c, k)
    requires k in c'.childToRoot && c'.childToRoot[k] == c.childToRoot[k]
    ensures WonByLast(c', k)
  {
    var i :| 0 <= i < |c.order| && c.order[i] == c.childToRoot[k]
      && forall j :: i < j < |c.order| && c.order[j] in c.members ==> k !in c.members[c.order[j]];
    assert c'.order[i] == c'.childToRoot[k];
  }

  lemma LastWinsKeep(nodes: map<Id, Node>, g: Graph, c: Classes, root: Id)
    requires MembersOk(Expanded(g), c) && LastWins(c) && root !in c.members
    ensures LastWins(CollectFrom(nodes, g, c, root))
  {
    var kids := Descendants(Expanded(g), root);
    if kids != [] {
      var c' := CollectFrom(nodes, g, c, root);
      AdoptExact(c.childToRoot, kids, root);
      assert root !in Elems(c.order) && c'.order == c.order + [root];
      forall k | k in c'.childToRoot
        ensures WonByLast(c', k)
      {
        if k in kids {
          assert c'.order[|c.order|] == c'.childToRoot[k];
        } else {
          StillWonByLast(c, c', root, kids, k);
        }
      }
    }
  }

  lemma {:induction false} RootsDistinct(ix: Matches, parents: seq<Id>)
    requires NoDup(parents)
    ensures NoDup(RootsOf(ix, parents)) && forall r :: r in RootsOf(ix, parents) ==> r in parents
  {
    if parents != [] {
      RootsDistinct(ix, Init(parents));
      assert Last(parents) !in Init(parents);
      assert forall r :: r in parents <==> r in Init(parents) || r == Last(parents);
    }
  }

  lemma {:induction false} ParentsDistinct(nodes: map<Id, Node>, edges: seq<Edge>)
    ensures NoDup(IndexOf(nodes, edges).parentIds)
  {
    if edges != [] {
      ParentsDistinct(nodes, Init(edges));
    }
  }

  lemma {:induction false} LastWinsFirstPhase(m: Model, roots: seq<Id>)
    requires NoDup(roots) && forall r :: r in roots ==> r !in IndexFor(m).childIds
    ensures var c := CollectAll(m.nodes, IndexFor(m).children, roots);
            LastWins(c) && forall r :: r in c.members ==> r in roots
  {
    if roots != [] {
      LastWinsFirstPhase(m, Init(roots));
      FirstPhaseOk(m, Init(roots));
      assert Last(roots) !in Init(roots);
      LastWinsKeep(m.nodes, IndexFor(m).children, CollectAll(m.nodes, IndexFor(m).children, Init(roots)), Last(roots));
      assert forall r :: r in Init(roots) ==> r in roots;
    }
  }

  lemma {:induction false} LastWinsSecondPhase(nodes: map<Id, Node>, g: Graph, parents: seq<Id>, c: Classes)
    requires ClassesOk(nodes, Expanded(g), c) && LastWins(c)
    ensures LastWins(CollectRest(nodes, g, parents, c))
  {
    if parents != [] {
      LastWinsSecondPhase(nodes, g, Init(parents), c);
      SecondPhaseOk(nodes, g, Init(parents), c);
      var c0 := CollectRest(nodes, g, Init(parents), c);
      if Last(parents) !in c0.childToRoot && Last(parents) !in c0.members {
        LastWinsKeep(nodes, g, c0, Last(parents));
      }
    }
  }

  /** A node that several heads reach belongs to the one collected last. */
  lemma SharedNodesGoToLast(m: Model, k: Id)
    requires k in ClassesFor(m).childToRoot
    ensures WonByLast(ClassesFor(m), k)
  {
    var ix := IndexFor(m);
    var roots := RootsOf(ix, ix.parentIds);
    ParentsDistinct(m.nodes, m.edges);
    RootsDistinct(ix, ix.parentIds);
    RootsAreNoChildren(ix, ix.parentIds);
    FirstPhaseOk(m, roots);
    LastWinsFirstPhase(m, roots);
    LastWinsSecondPhase(m.nodes, ix.children, ix.parentIds, CollectAll(m.nodes, ix.children, roots));
  }
}
