/** Filtering the displayed graph: the closure of the failed tasks under edges in both directions,
    and the nodes and edges that stay visible. */
module PathFilter {
  import opened Common
  import opened Digraph
  import opened GraphModel

  predicate Adjacent(e: Edge, u: Id, v: Id) {
    (e.source == u && e.target == v) || (e.target == u && e.source == v)
  }

  /** Closed under edges in both directions; the loop does not expand the empty identifier. */
  ghost predicate ClosedBothWays(edges: seq<Edge>, S: set<Id>) {
    forall e, u, v :: e in edges && Adjacent(e, u, v) && u != "" && u in S ==> v in S
  }

  /** The least such set around the focus. */
  ghost predicate IsPathClosure(edges: seq<Edge>, focus: set<Id>, S: set<Id>) {
    && focus <= S
    && ClosedBothWays(edges, S)
    && forall T: set<Id> :: focus <= T && ClosedBothWays(edges, T) ==> S <= T
  }

  lemma PathClosureUnique(edges: seq<Edge>, focus: set<Id>, S: set<Id>, T: set<Id>)
    requires IsPathClosure(edges, focus, S) && IsPathClosure(edges, focus, T)
    ensures S == T
  {
  }

  function Ends(edges: seq<Edge>): set<Id> {
    (set e | e in edges :: e.source) + (set e | e in edges :: e.target)
  }

  /** The neighbours of each node against the edges (incoming) and along them (outgoing). */
  ghost predicate Lists(edges: seq<Edge>, incoming: Graph, outgoing: Graph) {
    && (forall u, v :: v in Next(incoming, u) <==> exists e :: e in edges && e.target == u && e.source == v)
    && (forall u, v :: v in Next(outgoing, u) <==> exists e :: e in edges && e.source == u && e.target == v)
  }

  lemma ListsOneMore(edges: seq<Edge>, e: Edge, incoming: Graph, outgoing: Graph)
    requires Lists(edges, incoming, outgoing)
    ensures Lists(edges + [e], incoming[e.target := Next(incoming, e.target) + [e.source]],
                  outgoing[e.source := Next(outgoing, e.source) + [e.target]])
  {
    var incoming' := incoming[e.target := Next(incoming, e.target) + [e.source]];
    var outgoing' := outgoing[e.source := Next(outgoing, e.source) + [e.target]];
    assert forall x :: x in edges + [e] <==> x in edges || x == e;
    forall u, v
      ensures v in Next(incoming', u) <==> exists x :: x in edges + [e] && x.target == u && x.source == v
      ensures v in Next(outgoing', u) <==> exists x :: x in edges + [e] && x.source == u && x.target == v
    {
      assert v in Next(incoming', u) <==> v in Next(incoming, u) || (u == e.target && v == e.source);
      assert v in Next(outgoing', u) <==> v in Next(outgoing, u) || (u == e.source && v == e.target);
    }
  }

  method BuildAdjacency(edges: seq<Edge>) returns (incoming: Graph, outgoing: Graph)
    ensures Lists(edges, incoming, outgoing)
  {
    incoming, outgoing := map[], map[];
    for i := 0 to |edges|
      invariant Lists(edges[..i], incoming, outgoing)
    {
      var edge := edges[i];
      ListsOneMore(edges[..i], edge, incoming, outgoing);
      assert edges[..i + 1] == edges[..i] + [edge];
      incoming := incoming[edge.target := Next(incoming, edge.target) + [edge.source]];
      outgoing := outgoing[edge.source := Next(outgoing, edge.source) + [edge.target]];
    }
    assert edges[..|edges|] == edges;
  }

  // Visited nodes that have left the queue have had their neighbours visited.
  ghost predicate Expanded(edges: seq<Edge>, queue: seq<Id>, visited: set<Id>) {
    forall e, u, v :: e in edges && Adjacent(e, u, v) && u != "" && u in visited && u !in queue ==> v in visited
  }

  ghost predicate BelowEveryClosure(edges: seq<Edge>, focus: set<Id>, visited: set<Id>) {
    forall T: set<Id> :: focus <= T && ClosedBothWays(edges, T) ==> visited <= T
  }

  lemma StaysBelow(edges: seq<Edge>, focus: set<Id>, visited: set<Id>, current: Id, unseen: seq<Id>)
    requires BelowEveryClosure(edges, focus, visited) && current in visited && current != ""
    requires forall v :: v in unseen ==> exists e :: e in edges && Adjacent(e, current, v)
    ensures BelowEveryClosure(edges, focus, visited + Elems(unseen))
  {
  }

  // The inner loop: visit the unvisited neighbours and queue them.
  method Visit(neighbours: seq<Id>, visited0: set<Id>) returns (unseen: seq<Id>, visited: set<Id>)
    ensures visited == visited0 + Elems(unseen) == visited0 + Elems(neighbours)
    ensures Elems(unseen) !! visited0 && Elems(unseen) <= Elems(neighbours)
  {
    unseen, visited := [], visited0;
    for i := 0 to |neighbours|
      invariant visited == visited0 + Elems(unseen) == visited0 + Elems(neighbours[..i])
      invariant Elems(unseen) !! visited0 && Elems(unseen) <= Elems(neighbours[..i])
    {
      var neighbor := neighbours[i];
      assert neighbours[..i + 1] == neighbours[..i] + [neighbor];
      if neighbor !in visited {
        visited, unseen := visited + {neighbor}, unseen + [neighbor];
      }
    }
    assert neighbours[..|neighbours|] == neighbours;
  }

  method BuildPathClosure(edges: seq<Edge>, focusIds: seq<Id>) returns (visited: set<Id>)
    ensures IsPathClosure(edges, Elems(focusIds), visited)
  {
    var incoming, outgoing := BuildAdjacency(edges);
    visited := Elems(focusIds);
    var queue := focusIds;
    while queue != []
      invariant Elems(focusIds) <= visited && Elems(queue) <= visited
      invariant Expanded(edges, queue, visited)
      invariant BelowEveryClosure(edges, Elems(focusIds), visited)
      decreases Ends(edges) - visited, |queue|
    {
      var current := queue[0];
      ghost var queue0, visited0 := queue, visited;
      queue := queue[1..];
      assert forall x :: x in queue0 <==> x == current || x in queue;
      if current == "" {
        continue;
      }
      var neighbours := Next(incoming, current) + Next(outgoing, current);
      assert forall v :: v in neighbours <==> exists e :: e in edges && Adjacent(e, current, v);
      var unseen;
      unseen, visited := Visit(neighbours, visited);
      assert forall v :: v in unseen ==> v in Elems(unseen) && v in Elems(neighbours);
      StaysBelow(edges, Elems(focusIds), visited0, current, unseen);
      queue := queue + unseen;
      forall e, u, v | e in edges && Adjacent(e, u, v) && u != "" && u in visited && u !in queue
        ensures v in visited
      {
        if u == current {
          assert v in neighbours && v in Elems(neighbours);
        }
      }
      if unseen != [] {
        assert unseen[0] in Elems(unseen) && unseen[0] in Ends(edges) - visited0;
      }
    }
  }

  /******* The filter *******/

  predicate Failed(n: Node) {
    n.state == Some("FAILURE") || n.state == Some("RETRY")
  }

  predicate Matches(n: Node, matchesQuery: Node -> bool, allowedStates: set<string>) {
    matchesQuery(n) && (!Truthy(n.state) || n.state.value in allowedStates)
  }

  function FailedIds(nodes: map<Id, Node>): set<Id> {
    set id | id in nodes && Failed(nodes[id])
  }

  function MatchedIds(nodes: map<Id, Node>, matchesQuery: Node -> bool, allowedStates: set<string>): set<Id> {
    set id | id in nodes && Matches(nodes[id], matchesQuery, allowedStates)
  }

  function EdgesWithin(edges: seq<Edge>, live: set<Id>): seq<Edge> {
    if edges == [] then []
    else EdgesWithin(Init(edges), live) +
         if Last(edges).source in live && Last(edges).target in live then [Last(edges)] else []
  }

  /** No visible edge touches a hidden node, and each edge between visible nodes keeps its multiplicity. */
  lemma {:induction false} EdgesWithinExact(edges: seq<Edge>, live: set<Id>, e: Edge)
    ensures multiset(EdgesWithin(edges, live))[e] ==
            if e.source in live && e.target in live then multiset(edges)[e] else 0
  {
    if edges != [] {
      EdgesWithinExact(Init(edges), live, e);
      MultisetOfLast(edges);
      if Last(edges).source in live && Last(edges).target in live {
        assert Init(EdgesWithin(edges, live)) == EdgesWithin(Init(edges), live);
        MultisetOfLast(EdgesWithin(edges, live));
      }
    }
  }

  // Maps are walked in an arbitrary order here: the order does not affect the outcome.
  method SelectMatching(nodes: map<Id, Node>, matchesQuery: Node -> bool, allowedStates: set<string>)
    returns (selected: map<Id, Node>)
    requires WellKeyed(nodes)
    ensures selected == map id | id in MatchedIds(nodes, matchesQuery, allowedStates) :: nodes[id]
  {
    selected := map[];
    var todo := nodes.Keys;
    while todo != {}
      invariant todo <= nodes.Keys
      invariant selected.Keys == MatchedIds(nodes, matchesQuery, allowedStates) - todo
      invariant forall id :: id in selected ==> selected[id] == nodes[id]
      decreases |todo|
    {
      var id :| id in todo;
      todo := todo - {id};
      var node := nodes[id];
      if Matches(node, matchesQuery, allowedStates) {
        selected := selected[node.id := node];
      }
    }
  }

  method CollectFailed(nodes: map<Id, Node>) returns (failed: seq<Id>)
    requires WellKeyed(nodes)
    ensures Elems(failed) == FailedIds(nodes)
  {
    failed := [];
    var todo := nodes.Keys;
    while todo != {}
      invariant todo <= nodes.Keys
      invariant Elems(failed) == FailedIds(nodes) - todo
      decreases |todo|
    {
      var id :| id in todo;
      todo := todo - {id};
      if Failed(nodes[id]) {
        assert Elems(failed + [id]) == Elems(failed) + {id};
        failed := failed + [nodes[id].id];
      }
    }
  }

  /** The nodes shown: the matched ones and, in failed-path mode, those on the closure `path`. */
  function Shown(m: Model, matchesQuery: Node -> bool, allowedStates: set<string>, path: set<Id>): set<Id> {
    MatchedIds(m.nodes, matchesQuery, allowedStates) + (path * m.nodes.Keys)
  }

  method AddPath(m: Model, selected: map<Id, Node>, path: set<Id>) returns (nodes: map<Id, Node>)
    requires forall id :: id in selected ==> id in m.nodes && selected[id] == m.nodes[id]
    ensures nodes.Keys == selected.Keys + (path * m.nodes.Keys)
    ensures forall id :: id in nodes ==> nodes[id] == m.nodes[id]
  {
    nodes := selected;
    var todo := path;
    while todo != {}
      invariant todo <= path
      invariant nodes.Keys == selected.Keys + ((path - todo) * m.nodes.Keys)
      invariant forall id :: id in nodes ==> nodes[id] == m.nodes[id]
      decreases |todo|
    {
      var nodeId :| nodeId in todo;
      todo := todo - {nodeId};
      if nodeId in m.nodes {
        nodes := nodes[nodeId := m.nodes[nodeId]];
      }
    }
  }

  method KeepEdges(edges: seq<Edge>, live: set<Id>) returns (kept: seq<Edge>)
    ensures kept == EdgesWithin(edges, live)
  {
    kept := [];
    for i := 0 to |edges|
      invariant kept == EdgesWithin(edges[..i], live)
    {
      assert Init(edges[..i + 1]) == edges[..i];
      if edges[i].source in live && edges[i].target in live {
        kept := kept + [edges[i]];
      }
    }
    assert edges[..|edges|] == edges;
  }

  /** The query and the states select a node; a node without a state is not held against the states. */
  ghost predicate Selects(n: Node, matchesQuery: Node -> bool, allowedStates: set<string>) {
    && matchesQuery(n)
    && match n.state
       case None => true
       case Some(state) => state == "" || state in allowedStates
  }

  /** A walk along edges in either direction, from a failed or retrying task; the empty id ends it. */
  ghost predicate IsWalk(m: Model, p: seq<Id>) {
    && p != [] && p[0] in m.nodes
    && (m.nodes[p[0]].state == Some("FAILURE") || m.nodes[p[0]].state == Some("RETRY"))
    && forall i :: 0 <= i < |p| - 1 ==>
         && p[i] != ""
         && exists e :: e in m.edges && ((e.source == p[i] && e.target == p[i + 1])
                                         || (e.target == p[i] && e.source == p[i + 1]))
  }

  ghost predicate OnFailedPath(m: Model, id: Id) {
    exists p :: IsWalk(m, p) && Last(p) == id
  }

  lemma WalkOn(m: Model, p: seq<Id>, e: Edge, v: Id)
    requires IsWalk(m, p) && Last(p) != "" && e in m.edges && Adjacent(e, Last(p), v)
    ensures OnFailedPath(m, v)
  {
    var q := p + [v];
    forall i | 0 <= i < |q| - 1
      ensures q[i] != "" && exists x :: x in m.edges && ((x.source == q[i] && x.target == q[i + 1])
                                                         || (x.target == q[i] && x.source == q[i + 1]))
    {
      if i < |p| - 1 {
        assert q[i] == p[i] && q[i + 1] == p[i + 1];
      } else {
        assert q[i] == Last(p) && q[i + 1] == v;
      }
    }
    assert IsWalk(m, q);
  }

  lemma {:induction false} WalkInside(m: Model, S: set<Id>, p: seq<Id>)
    requires FailedIds(m.nodes) <= S && ClosedBothWays(m.edges, S) && IsWalk(m, p)
    ensures Last(p) in S
  {
    if |p| > 1 {
      var q := Init(p);
      assert forall i :: 0 <= i < |q| ==> q[i] == p[i];
      WalkInside(m, S, q);
      var i := |p| - 2;
      var e :| e in m.edges && ((e.source == p[i] && e.target == p[i + 1])
                                || (e.target == p[i] && e.source == p[i + 1]));
      assert Adjacent(e, p[i], p[i + 1]) && p[i] in S;
    } else {
      assert p[0] in FailedIds(m.nodes);
    }
  }

  /** The closure of the failed tasks are the ends of the walks from them. */
  lemma ClosureIsWalks(m: Model, S: set<Id>, id: Id)
    requires IsPathClosure(m.edges, FailedIds(m.nodes), S)
    ensures id in S <==> OnFailedPath(m, id)
  {
    if p :| IsWalk(m, p) && Last(p) == id {
      WalkInside(m, S, p);
    }
    var T := set x | x in S && OnFailedPath(m, x);
    forall x | x in FailedIds(m.nodes)
      ensures x in T
    {
      assert IsWalk(m, [x]) && Last([x]) == x;
    }
    forall e, u, v | e in m.edges && Adjacent(e, u, v) && u != "" && u in T
      ensures v in T
    {
      var p :| IsWalk(m, p) && Last(p) == u;
      WalkOn(m, p, e, v);
    }
    assert ClosedBothWays(m.edges, T);
  }

  /** The edges shown come in their order. */
  lemma {:induction false} EdgesWithinConcat(a: seq<Edge>, b: seq<Edge>, live: set<Id>)
    ensures EdgesWithin(a + b, live) == EdgesWithin(a, live) + EdgesWithin(b, live)
  {
    if b == [] {
      assert a + b == a;
    } else {
      EdgesWithinConcat(a, Init(b), live);
      var last := if Last(b).source in live && Last(b).target in live then [Last(b)] else [];
      assert EdgesWithin(a + b, live) == EdgesWithin(a + Init(b), live) + last by {
        assert Init(a + b) == a + Init(b) && Last(a + b) == Last(b);
      }
      assert EdgesWithin(b, live) == EdgesWithin(Init(b), live) + last;
    }
  }

  method FilterGraph(m: Model, matchesQuery: Node -> bool, allowedStates: set<string>, onlyFailedPath: bool)
    returns (out: Model)
    requires WellKeyed(m.nodes)
    ensures exists path: set<Id> ::
              && (if onlyFailedPath then IsPathClosure(m.edges, FailedIds(m.nodes), path) else path == {})
              && out.nodes.Keys == Shown(m, matchesQuery, allowedStates, path)
    ensures forall id :: id in out.nodes <==>
              && id in m.nodes
              && (Selects(m.nodes[id], matchesQuery, allowedStates) || (onlyFailedPath && OnFailedPath(m, id)))
    ensures forall id :: id in out.nodes ==> out.nodes[id] == m.nodes[id]
    ensures out.edges == EdgesWithin(m.edges, out.nodes.Keys)
    ensures out.meta == m.meta && out.folded == None
  {
    var nodes := SelectMatching(m.nodes, matchesQuery, allowedStates);
    ghost var path: set<Id> := {};
    if onlyFailedPath {
      var failed := CollectFailed(m.nodes);
      var closure := BuildPathClosure(m.edges, failed);
      nodes := AddPath(m, nodes, closure);
      path := closure;
      forall id
        ensures id in closure <==> OnFailedPath(m, id)
      {
        ClosureIsWalks(m, closure, id);
      }
    }
    assert nodes.Keys == Shown(m, matchesQuery, allowedStates, path);
    var edges := KeepEdges(m.edges, nodes.Keys);
    out := Model(m.meta, nodes, edges, None);
  }
}
