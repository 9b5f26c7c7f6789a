/** The fold on the fields of its nodes and edges: which edges fold at all, in which order parents,
    successors and heads are taken, and which of several nodes with one identifier is folded. */
module SelfSchedulingFields {
  import opened Common
  import opened Digraph
  import opened GraphModel
  import opened SelfSchedulingFold
  import opened SelfSchedulingTheorems
  import opened SelfSchedulingConservation

  /******* What folds *******/

  ghost predicate Given(o: Option<string>) {
    o.Some? && |o.value| > 0
  }

  // A missing text is written as the empty one.
  function Written(o: Option<string>): string {
    match o
    case None => ""
    case Some(text) => text
  }

  /** A node for a task: it has a name, and a state or no kind. */
  ghost predicate IsTask(n: Node) {
    Given(n.taskName) && (Given(n.state) || n.kind == Absent || n.kind == Null || n.kind.text == "")
  }

  ghost predicate SameTask(a: Node, b: Node) {
    Written(a.taskName) + "::" + Written(a.argsPreview) + "::" + Written(a.kwargsPreview)
    == Written(b.taskName) + "::" + Written(b.argsPreview) + "::" + Written(b.kwargsPreview)
  }

  /** An edge from one node to another of the same task, not part of a group, chord or map. */
  ghost predicate SelfScheduling(m: Model, e: Edge) {
    && e in m.edges && e.source != e.target
    && (e.kind == None || e.kind.value !in ["group", "chord", "map", "starmap", "chunks"])
    && e.source in m.nodes && e.target in m.nodes
    && IsTask(m.nodes[e.source]) && IsTask(m.nodes[e.target])
    && SameTask(m.nodes[e.source], m.nodes[e.target])
  }

  lemma SelfSchedulingMatches(m: Model, e: Edge)
    ensures SelfScheduling(m, e) <==> e in m.edges && Matching(m.nodes, e)
  {
    forall n: Node
      ensures Foldable(n) <==> IsTask(n)
      ensures OrEmpty(n.taskName) == Written(n.taskName) && OrEmpty(n.argsPreview) == Written(n.argsPreview)
      ensures OrEmpty(n.kwargsPreview) == Written(n.kwargsPreview)
    {
    }
  }

  lemma FoldedDiffers(m: Model)
    requires Folds(m)
    ensures Fold(m) != m
  {
    var k :| k in ClassesFor(m).childToRoot;
    RepresentativesAreLive(m, k);
  }

  /** A model is left alone if and only if no self-scheduling edge leaves a non-empty identifier. */
  lemma LeftAloneExactly(m: Model)
    ensures Fold(m) == m <==> forall e :: SelfScheduling(m, e) ==> e.source == ""
  {
    FoldsExactly(m);
    if Folds(m) {
      FoldedDiffers(m);
      var u, v :| u != "" && Arc(m, u, v);
      var e :| e in m.edges && Matching(m.nodes, e) && e.source == u && e.target == v;
      SelfSchedulingMatches(m, e);
    } else {
      forall e | SelfScheduling(m, e)
        ensures e.source == ""
      {
        SelfSchedulingMatches(m, e);
        assert !(e.source != "" && Arc(m, e.source, e.target));
      }
    }
  }

  /** Unless a name or an argument text holds a colon, two nodes are of the same task if and only if
      name, arguments and keyword arguments agree. */
  lemma SameTaskExactly(a: Node, b: Node)
    requires forall n :: n in [a, b] ==> ':' !in Written(n.taskName) && ':' !in Written(n.argsPreview)
    ensures SameTask(a, b) <==>
            && Written(a.taskName) == Written(b.taskName)
            && Written(a.argsPreview) == Written(b.argsPreview)
            && Written(a.kwargsPreview) == Written(b.kwargsPreview)
  {
    assert a in [a, b] && b in [a, b];
    if SameTask(a, b) {
      var restA := Written(a.argsPreview) + "::" + Written(a.kwargsPreview);
      var restB := Written(b.argsPreview) + "::" + Written(b.kwargsPreview);
      assert Written(a.taskName) + "::" + restA
             == Written(a.taskName) + "::" + Written(a.argsPreview) + "::" + Written(a.kwargsPreview);
      assert Written(b.taskName) + "::" + restB
             == Written(b.taskName) + "::" + Written(b.argsPreview) + "::" + Written(b.kwargsPreview);
      KeysSeparate(Written(a.taskName), restA, Written(b.taskName), restB);
      KeysSeparate(Written(a.argsPreview), Written(a.kwargsPreview), Written(b.argsPreview), Written(b.kwargsPreview));
    }
  }

  /******* In which order *******/

  ghost predicate MatchesAt(m: Model, i: int) {
    0 <= i < |m.edges| && Matching(m.nodes, m.edges[i])
  }

  /** A matching edge leaves `u` before any leaves `v`. */
  ghost predicate LeavesBefore(m: Model, u: Id, v: Id) {
    exists a :: MatchesAt(m, a) && m.edges[a].source == u
      && forall b :: 0 <= b <= a && MatchesAt(m, b) ==> m.edges[b].source != v
  }

  /** From `u`, a matching edge leads to `v` before any leads to `w`. */
  ghost predicate LeadsBefore(m: Model, u: Id, v: Id, w: Id) {
    exists a :: MatchesAt(m, a) && m.edges[a].source == u && m.edges[a].target == v
      && forall b :: 0 <= b <= a && MatchesAt(m, b) && m.edges[b].source == u ==> m.edges[b].target != w
  }

  lemma LeavesBeforeMore(m0: Model, m: Model, u: Id, v: Id)
    requires m.edges != [] && m0 == m.(edges := Init(m.edges)) && LeavesBefore(m0, u, v)
    ensures LeavesBefore(m, u, v)
  {
    var a :| MatchesAt(m0, a) && m0.edges[a].source == u
      && forall b :: 0 <= b <= a && MatchesAt(m0, b) ==> m0.edges[b].source != v;
    assert MatchesAt(m, a) && m.edges[a].source == u;
    forall b | 0 <= b <= a && MatchesAt(m, b)
      ensures m.edges[b].source != v
    {
      assert MatchesAt(m0, b);
    }
  }

  lemma LeadsBeforeMore(m0: Model, m: Model, u: Id, v: Id, w: Id)
    requires m.edges != [] && m0 == m.(edges := Init(m.edges)) && LeadsBefore(m0, u, v, w)
    ensures LeadsBefore(m, u, v, w)
  {
    var a :| MatchesAt(m0, a) && m0.edges[a].source == u && m0.edges[a].target == v
      && forall b :: 0 <= b <= a && MatchesAt(m0, b) && m0.edges[b].source == u ==> m0.edges[b].target != w;
    assert MatchesAt(m, a) && m.edges[a].source == u && m.edges[a].target == v;
    forall b | 0 <= b <= a && MatchesAt(m, b) && m.edges[b].source == u
      ensures m.edges[b].target != w
    {
      assert MatchesAt(m0, b);
    }
  }

  // The first matching edge between two nodes.
  lemma FirstLeading(m: Model, u: Id, v: Id, w: Id)
    requires Arc(m, u, v) && !Arc(m, u, w)
    ensures LeadsBefore(m, u, v, w)
  {
    var e :| e in m.edges && Matching(m.nodes, e) && e.source == u && e.target == v;
    var a :| 0 <= a < |m.edges| && m.edges[a] == e;
    assert MatchesAt(m, a);
    forall b | 0 <= b <= a && MatchesAt(m, b) && m.edges[b].source == u
      ensures m.edges[b].target != w
    {
      assert m.edges[b] in m.edges;
    }
  }

  lemma FirstLeaving(m: Model, u: Id, v: Id)
    requires (exists x :: Arc(m, u, x)) && !(exists x :: Arc(m, v, x))
    ensures LeavesBefore(m, u, v)
  {
    var x :| Arc(m, u, x);
    var e :| e in m.edges && Matching(m.nodes, e) && e.source == u && e.target == x;
    var a :| 0 <= a < |m.edges| && m.edges[a] == e;
    assert MatchesAt(m, a);
    forall b | 0 <= b <= a && MatchesAt(m, b)
      ensures m.edges[b].source != v
    {
      assert m.edges[b] in m.edges;
      assert Arc(m, m.edges[b].source, m.edges[b].target);
    }
  }

  lemma MatchesBeforeLast(m0: Model, m: Model)
    requires m.edges != [] && m0 == m.(edges := Init(m.edges))
    ensures IndexFor(m) ==
            if Matching(m.nodes, Last(m.edges)) then AddMatch(IndexFor(m0), Last(m.edges)) else IndexFor(m0)
  {
  }

  /** Parents are listed by their first matching edge. */
  lemma {:induction false} ParentsInOrder(m: Model, i: nat, j: nat)
    requires i < j < |IndexFor(m).parentIds|
    ensures LeavesBefore(m, IndexFor(m).parentIds[i], IndexFor(m).parentIds[j])
    decreases |m.edges|
  {
    var m0 := m.(edges := Init(m.edges));
    var parents, before := IndexFor(m).parentIds, IndexFor(m0).parentIds;
    MatchesBeforeLast(m0, m);
    if j < |before| {
      ParentsInOrder(m0, i, j);
    } else {
      IndexExact(m0);
      assert parents[i] in before && parents[j] !in before;
      FirstLeaving(m0, parents[i], parents[j]);
    }
    LeavesBeforeMore(m0, m, parents[i], parents[j]);
  }

  /** The successors of a node are listed by the first matching edge that leads to them. */
  lemma {:induction false} SuccessorsInOrder(m: Model, u: Id, i: nat, j: nat)
    requires i < j < |Next(IndexFor(m).children, u)|
    ensures LeadsBefore(m, u, Next(IndexFor(m).children, u)[i], Next(IndexFor(m).children, u)[j])
    decreases |m.edges|
  {
    var m0 := m.(edges := Init(m.edges));
    var next, before := Next(IndexFor(m).children, u), Next(IndexFor(m0).children, u);
    MatchesBeforeLast(m0, m);
    if j < |before| {
      SuccessorsInOrder(m0, u, i, j);
    } else {
      IndexExact(m0);
      assert next[i] in before && next[j] !in before;
      FirstLeading(m0, u, next[i], next[j]);
    }
    LeadsBeforeMore(m0, m, u, next[i], next[j]);
  }

  /******* The order of the heads *******/

  // The places of two elements of a list.
  ghost predicate ListedBefore(s: seq<Id>, x: Id, y: Id) {
    exists p, q :: 0 <= p < q < |s| && s[p] == x && s[q] == y
  }

  ghost predicate KeepsOrder(s: seq<Id>, t: seq<Id>) {
    && (forall x :: x in s ==> x in t)
    && forall x, y :: ListedBefore(s, x, y) ==> ListedBefore(t, x, y)
  }

  lemma ListedOneMore(s: seq<Id>, x: Id, y: Id)
    requires s != []
    ensures ListedBefore(s, x, y) <==> ListedBefore(Init(s), x, y) || (x in Init(s) && y == Last(s))
  {
    if ListedBefore(s, x, y) {
      var p, q :| 0 <= p < q < |s| && s[p] == x && s[q] == y;
      assert Init(s)[p] == x;
      if q < |s| - 1 {
        assert Init(s)[q] == y;
      }
    }
    if ListedBefore(Init(s), x, y) {
      var p, q :| 0 <= p < q < |Init(s)| && Init(s)[p] == x && Init(s)[q] == y;
      assert s[p] == x && s[q] == y;
    }
    if x in Init(s) && y == Last(s) {
      var p :| 0 <= p < |Init(s)| && Init(s)[p] == x;
      assert s[p] == x && s[|s| - 1] == y;
    }
  }

  // Taking the next element of `t` into `s`, or passing it over.
  lemma KeepsOrderMore(s: seq<Id>, t: seq<Id>)
    requires t != [] && KeepsOrder(s, Init(t))
    ensures KeepsOrder(s, t) && KeepsOrder(s + [Last(t)], t)
  {
    forall x, y | ListedBefore(s, x, y)
      ensures ListedBefore(t, x, y)
    {
      ListedOneMore(t, x, y);
    }
    assert Init(s + [Last(t)]) == s;
    forall x, y | ListedBefore(s + [Last(t)], x, y)
      ensures ListedBefore(t, x, y)
    {
      ListedOneMore(s + [Last(t)], x, y);
      ListedOneMore(t, x, y);
    }
  }

  lemma {:induction false} RootsKeepOrder(ix: Matches, parents: seq<Id>)
    ensures KeepsOrder(RootsOf(ix, parents), parents)
    ensures forall p :: p in RootsOf(ix, parents) <==> p in parents && p !in ix.childIds
  {
    if parents != [] {
      RootsKeepOrder(ix, Init(parents));
      KeepsOrderMore(RootsOf(ix, Init(parents)), parents);
    }
  }

  lemma {:induction false} FirstHeadsKeepOrder(nodes: map<Id, Node>, g: Graph, roots: seq<Id>)
    requires NoDup(roots)
    ensures KeepsOrder(CollectAll(nodes, g, roots).order, roots)
  {
    if roots != [] {
      FirstHeadsKeepOrder(nodes, g, Init(roots));
      assert forall x :: x in Init(roots) ==> x != Last(roots);
      KeepsOrderMore(CollectAll(nodes, g, Init(roots)).order, roots);
    }
  }

  // The first phase makes a head of every root that reaches something.
  lemma {:induction false} RootsHead(m: Model, roots: seq<Id>, r: Id)
    requires r in roots && Descendants(ArcGraph(m), r) != []
    ensures r in CollectAll(m.nodes, IndexFor(m).children, roots).members
  {
    var g := IndexFor(m).children;
    CollectGrows(m.nodes, g, CollectAll(m.nodes, g, Init(roots)), Last(roots));
    if r in Init(roots) {
      RootsHead(m, Init(roots), r);
    }
  }

  lemma {:induction false} RestGrows(nodes: map<Id, Node>, g: Graph, parents: seq<Id>, c: Classes)
    ensures c.members.Keys <= CollectRest(nodes, g, parents, c).members.Keys
  {
    if parents != [] {
      RestGrows(nodes, g, Init(parents), c);
      CollectGrows(nodes, g, CollectRest(nodes, g, Init(parents), c), Last(parents));
    }
  }

  function FirstClasses(m: Model): Classes {
    CollectAll(m.nodes, IndexFor(m).children, RootsOf(IndexFor(m), IndexFor(m).parentIds))
  }

  // A head of the second phase is some node's child.
  lemma LateHeadIsChild(m: Model, parents: seq<Id>, p: Id)
    requires p in IndexFor(m).parentIds && Descendants(ArcGraph(m), p) != []
    requires p !in CollectRest(m.nodes, IndexFor(m).children, parents, FirstClasses(m)).members
    ensures p in IndexFor(m).childIds
  {
    var ix := IndexFor(m);
    RootsKeepOrder(ix, ix.parentIds);
    if p !in ix.childIds {
      RootsHead(m, RootsOf(ix, ix.parentIds), p);
      RestGrows(m.nodes, ix.children, parents, FirstClasses(m));
    }
  }

  lemma {:induction false} LateHeads(m: Model, parents: seq<Id>) returns (late: seq<Id>)
    requires NoDup(parents) && forall p :: p in parents ==> p in IndexFor(m).parentIds
    ensures CollectRest(m.nodes, IndexFor(m).children, parents, FirstClasses(m)).order == FirstClasses(m).order + late
    ensures KeepsOrder(late, parents) && forall p :: p in late ==> p in IndexFor(m).childIds
  {
    var g := IndexFor(m).children;
    late := [];
    if parents != [] {
      var c, p := CollectRest(m.nodes, g, Init(parents), FirstClasses(m)), Last(parents);
      late := LateHeads(m, Init(parents));
      KeepsOrderMore(late, parents);
      if p !in c.childToRoot && p !in c.members && Descendants(ArcGraph(m), p) != [] {
        LateHeadIsChild(m, Init(parents), p);
        RootsAreNoChildren(IndexFor(m), IndexFor(m).parentIds);
        FirstPhaseOk(m, RootsOf(IndexFor(m), IndexFor(m).parentIds));
        SecondPhaseOk(m.nodes, g, Init(parents), FirstClasses(m));
        assert p !in Elems(c.order);
        late := late + [p];
      }
    }
  }

  ghost predicate IsChild(m: Model, v: Id) {
    exists u :: Arc(m, u, v)
  }

  /** Heads that are nobody's child come first; otherwise the first edge that leaves them decides. */
  ghost predicate HeadBefore(m: Model, u: Id, v: Id) {
    if IsChild(m, u) then IsChild(m, v) && LeavesBefore(m, u, v) else IsChild(m, v) || LeavesBefore(m, u, v)
  }

  lemma ListedLeaves(m: Model, u: Id, v: Id)
    requires ListedBefore(IndexFor(m).parentIds, u, v)
    ensures LeavesBefore(m, u, v)
  {
    var parents := IndexFor(m).parentIds;
    var p, q :| 0 <= p < q < |parents| && parents[p] == u && parents[q] == v;
    ParentsInOrder(m, p, q);
  }

  lemma TwoPhasesInOrder(m: Model, early: seq<Id>, late: seq<Id>, i: nat, j: nat)
    requires KeepsOrder(early, IndexFor(m).parentIds) && KeepsOrder(late, IndexFor(m).parentIds)
    requires (forall p :: p in early ==> !IsChild(m, p)) && forall p :: p in late ==> IsChild(m, p)
    requires i < j < |early| + |late|
    ensures HeadBefore(m, (early + late)[i], (early + late)[j])
  {
    var heads := early + late;
    if j < |early| {
      assert ListedBefore(early, early[i], early[j]);
      ListedLeaves(m, heads[i], heads[j]);
    } else if i >= |early| {
      assert ListedBefore(late, late[i - |early|], late[j - |early|]);
      ListedLeaves(m, heads[i], heads[j]);
    } else {
      assert early[i] in early && late[j - |early|] in late;
    }
  }

  lemma EarlyHeads(m: Model)
    ensures KeepsOrder(FirstClasses(m).order, IndexFor(m).parentIds)
    ensures forall p :: p in FirstClasses(m).order ==> !IsChild(m, p)
  {
    var ix := IndexFor(m);
    IndexExact(m);
    ParentsDistinct(m.nodes, m.edges);
    RootsDistinct(ix, ix.parentIds);
    RootsKeepOrder(ix, ix.parentIds);
    FirstHeadsKeepOrder(m.nodes, ix.children, RootsOf(ix, ix.parentIds));
  }

  /** The heads are collected in that order. */
  lemma HeadsInOrder(m: Model, i: nat, j: nat)
    requires i < j < |ClassesFor(m).order|
    ensures HeadBefore(m, ClassesFor(m).order[i], ClassesFor(m).order[j])
  {
    ParentsDistinct(m.nodes, m.edges);
    EarlyHeads(m);
    var late := LateHeads(m, IndexFor(m).parentIds);
    assert forall p :: p in late ==> IsChild(m, p) by { IndexExact(m); }
    TwoPhasesInOrder(m, FirstClasses(m).order, late, i, j);
  }

  lemma {:induction false} LoopsKeepOrder(live: set<Id>, members: map<Id, seq<Id>>, order: seq<Id>, p: nat, q: nat)
    requires p < q < |SelfLoops(live, members, order)|
    ensures var loops := SelfLoops(live, members, order);
            ListedBefore(order, loops[p].source, loops[q].source)
  {
    var loops, before := SelfLoops(live, members, order), SelfLoops(live, members, Init(order));
    ListedOneMore(order, loops[p].source, loops[q].source);
    if q < |before| {
      LoopsKeepOrder(live, members, Init(order), p, q);
    } else {
      assert loops[p] in before;
      SelfLoopsExact(live, members, Init(order), loops[p]);
    }
  }

  /** After the kept edges, the self-loops follow in the order of their heads. */
  lemma LoopsInOrder(m: Model, p: nat, q: nat)
    requires Folds(m) && Before(m, |m.edges|) <= p < q < |Fold(m).edges|
    ensures Fold(m).edges[p].source == Fold(m).edges[p].target
    ensures HeadBefore(m, Fold(m).edges[p].source, Fold(m).edges[q].source)
  {
    var live, c := Fold(m).nodes.Keys, ClassesFor(m);
    var loops, kept := SelfLoops(live, c.members, c.order), Before(m, |m.edges|);
    assert m.edges[..|m.edges|] == m.edges;
    assert Fold(m).edges[p] == loops[p - kept] && Fold(m).edges[q] == loops[q - kept];
    assert loops[p - kept] in loops;
    SelfLoopsExact(live, c.members, c.order, loops[p - kept]);
    LoopsKeepOrder(live, c.members, c.order, p - kept, q - kept);
    var i, j :| 0 <= i < j < |c.order| && c.order[i] == loops[p - kept].source && c.order[j] == loops[q - kept].source;
    HeadsInOrder(m, i, j);
  }

  /******* Nodes with one identifier *******/

  /** Of several nodes with one identifier the last is kept. */
  lemma {:induction false} LastNodeWins(nodes: seq<Node>, id: Id)
    ensures id in ById(nodes) <==> exists n :: n in nodes && n.id == id
    ensures id in ById(nodes) ==> exists i :: 0 <= i < |nodes| && nodes[i].id == id && ById(nodes)[id] == nodes[i]
                                    && forall j :: i < j < |nodes| ==> nodes[j].id != id
  {
    if nodes != [] {
      var before := Init(nodes);
      LastNodeWins(before, id);
      assert forall n :: n in nodes <==> n in before || n == Last(nodes);
      if Last(nodes).id == id {
        assert nodes[|nodes| - 1].id == id;
      } else if id in ById(before) {
        var i :| 0 <= i < |before| && before[i].id == id && ById(before)[id] == before[i]
                 && forall j :: i < j < |before| ==> before[j].id != id;
        assert nodes[i].id == id;
        forall j | i < j < |nodes|
          ensures nodes[j].id != id
        {
          assert j < |before| ==> nodes[j] == before[j];
        }
      }
    }
  }
}
