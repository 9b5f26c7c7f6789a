/** From stored relations to the edges of a task graph: relations are appended on every ingest, and
    the edge list keeps the first occurrence of each. */
module RelationEdges {
  import opened Common
  import opened TaskStore

  /******* Ingesting an event *******/

  function TextOf(e: Event, f: Field): Option<string> {
    if f in e.fields then Some(e.fields[f]) else None
  }

  function RootIdOf(e: Event): Id {
    if Truthy(TextOf(e, RootId)) then TextOf(e, RootId).value else e.taskId
  }

  function RelationTo(e: Event, f: Field, kind: string): seq<Relation> {
    if Truthy(TextOf(e, f)) then [Relation(RootIdOf(e), TextOf(e, f), e.taskId, kind)] else []
  }

  function RelationsOf(e: Event): seq<Relation> {
    RelationTo(e, ParentId, "parent") + RelationTo(e, GroupId, "group") + RelationTo(e, ChordId, "chord")
  }

  ghost predicate NamesIn(e: Event, f: Field, named: Option<string>) {
    f in e.fields && e.fields[f] != "" && named == Some(e.fields[f])
  }

  /** Each non-empty link of an event is related to the task once, under its root or else itself:
      the parent first, then the group, then the chord. */
  lemma RelationsExact(e: Event, r: Relation)
    ensures r in RelationsOf(e) <==>
            && r.childId == e.taskId
            && r.rootId == (if RootId in e.fields && e.fields[RootId] != "" then e.fields[RootId] else e.taskId)
            && (|| (r.kind == "parent" && NamesIn(e, ParentId, r.parentId))
                || (r.kind == "group" && NamesIn(e, GroupId, r.parentId))
                || (r.kind == "chord" && NamesIn(e, ChordId, r.parentId)))
    ensures forall i, j :: 0 <= i < j < |RelationsOf(e)| ==>
              (RelationsOf(e)[i].kind, RelationsOf(e)[j].kind) in
                [("parent", "group"), ("parent", "chord"), ("group", "chord")]
  {
  }

  method StoreRelations(controller: Controller, event: Event)
    modifies controller`relations
    ensures controller.relations == old(controller.relations) + RelationsOf(event)
  {
    var rootId := RootIdOf(event);
    if Truthy(TextOf(event, ParentId)) {
      controller.StoreTaskRelation(Relation(rootId, Some(event.fields[ParentId]), event.taskId, "parent"));
    }
    if Truthy(TextOf(event, GroupId)) {
      controller.StoreTaskRelation(Relation(rootId, Some(event.fields[GroupId]), event.taskId, "group"));
    }
    if Truthy(TextOf(event, ChordId)) {
      controller.StoreTaskRelation(Relation(rootId, Some(event.fields[ChordId]), event.taskId, "chord"));
    }
  }

  method IngestTaskEvent(controller: Controller, event: Event)
    requires controller.Valid()
    modifies controller
    ensures controller.Valid() && controller.log == old(controller.log) + [event]
    ensures controller.relations == old(controller.relations) + RelationsOf(event)
  {
    controller.StoreTaskEvent(event);
    StoreRelations(controller, event);
  }

  /******* Building the edge list *******/

  datatype Edge = Edge(parent: Id, child: Id, relation: string)

  function EdgeOf(r: Relation): Edge {
    Edge(if Truthy(r.parentId) then r.parentId.value else r.rootId, r.childId,
         if r.kind == "parent" then "chain" else r.kind)
  }

  /** The first occurrence of each edge, in order. */
  function EdgesOf(relations: seq<Relation>): seq<Edge> {
    if relations == [] then []
    else
      var edges := EdgesOf(Init(relations));
      if EdgeOf(Last(relations)) in edges then edges else edges + [EdgeOf(Last(relations))]
  }

  /** The edge that a relation stands for: from its parent, or from the root if it names none. */
  ghost predicate StandsFor(e: Edge, r: Relation) {
    && e.child == r.childId
    && (if r.parentId == None || r.parentId == Some("") then e.parent == r.rootId else Some(e.parent) == r.parentId)
    && (if r.kind == "parent" then e.relation == "chain" else e.relation == r.kind)
  }

  ghost predicate Distinct(edges: seq<Edge>) {
    forall i, j :: 0 <= i < j < |edges| ==> edges[i] != edges[j]
  }

  lemma StandsForOne(e: Edge, r: Relation)
    ensures StandsFor(e, r) <==> EdgeOf(r) == e
  {
  }

  /** Each edge of the relations is listed exactly once. */
  lemma EdgesOfExact(relations: seq<Relation>)
    ensures Distinct(EdgesOf(relations))
    ensures forall e :: e in EdgesOf(relations) <==> exists r :: r in relations && StandsFor(e, r)
  {
    EdgesOfListed(relations);
    forall e, r
      ensures StandsFor(e, r) <==> EdgeOf(r) == e
    {
      StandsForOne(e, r);
    }
  }

  lemma {:induction false} EdgesOfListed(relations: seq<Relation>)
    ensures Distinct(EdgesOf(relations))
    ensures forall e :: e in EdgesOf(relations) <==> exists r :: r in relations && EdgeOf(r) == e
  {
    if relations != [] {
      EdgesOfListed(Init(relations));
      assert forall r :: r in relations <==> r in Init(relations) || r == Last(relations);
    }
  }

  /** The edges come in the order in which they first occur: later relations only add at the end. */
  lemma {:induction false} EdgesOfGrow(relations: seq<Relation>, more: seq<Relation>)
    ensures EdgesOf(relations) <= EdgesOf(relations + more)
  {
    if more == [] {
      assert relations + more == relations;
    } else {
      assert Init(relations + more) == relations + Init(more);
      EdgesOfGrow(relations, Init(more));
    }
  }

  method BuildEdges(relations: seq<Relation>) returns (edges: seq<Edge>)
    ensures edges == EdgesOf(relations)
  {
    edges := [];
    var seen: set<Edge> := {};
    for i := 0 to |relations|
      invariant edges == EdgesOf(relations[..i])
      invariant forall e :: e in seen <==> e in edges
    {
      assert Init(relations[..i + 1]) == relations[..i];
      var key := EdgeOf(relations[i]);
      if key in seen {
        continue;
      }
      seen := seen + {key};
      edges := edges + [key];
    }
    assert relations[..|relations|] == relations;
  }

  /** Relations that occurred before add no edge. */
  lemma {:induction false} RepeatsAddNothing(relations: seq<Relation>, repeats: seq<Relation>)
    requires forall r :: r in repeats ==> r in relations
    ensures EdgesOf(relations + repeats) == EdgesOf(relations)
  {
    if repeats == [] {
      assert relations + repeats == relations;
    } else {
      assert Init(relations + repeats) == relations + Init(repeats);
      assert Last(repeats) in repeats;
      RepeatsAddNothing(relations, Init(repeats));
      EdgesOfListed(relations);
    }
  }

  function WithRoot(relations: seq<Relation>, rootId: Id): seq<Relation> {
    if relations == [] then []
    else WithRoot(Init(relations), rootId) + if Last(relations).rootId == rootId then [Last(relations)] else []
  }

  lemma {:induction false} WithRootConcat(a: seq<Relation>, b: seq<Relation>, rootId: Id)
    ensures WithRoot(a + b, rootId) == WithRoot(a, rootId) + WithRoot(b, rootId)
  {
    if b == [] {
      assert a + b == a;
    } else {
      assert Init(a + b) == a + Init(b);
      WithRootConcat(a, Init(b), rootId);
    }
  }

  lemma {:induction false} WithRootExact(relations: seq<Relation>, rootId: Id)
    ensures forall r :: r in WithRoot(relations, rootId) <==> r in relations && r.rootId == rootId
  {
    if relations != [] {
      WithRootExact(Init(relations), rootId);
      assert forall r :: r in relations <==> r in Init(relations) || r == Last(relations);
    }
  }

  /** An event delivered again, at once or at any later time, leaves the edges of every graph as
      they were. */
  lemma RedeliveryKeepsEdges(relations: seq<Relation>, e: Event, later: seq<Relation>, rootId: Id)
    ensures var once := relations + RelationsOf(e) + later;
            EdgesOf(WithRoot(once + RelationsOf(e), rootId)) == EdgesOf(WithRoot(once, rootId))
  {
    var once := relations + RelationsOf(e) + later;
    WithRootConcat(once, RelationsOf(e), rootId);
    WithRootExact(once, rootId);
    WithRootExact(RelationsOf(e), rootId);
    RepeatsAddNothing(WithRoot(once, rootId), WithRoot(RelationsOf(e), rootId));
  }

  /** Delivered twice in a row, an event leaves both the task table and the edges as one delivery
      would: only the log and the relation table grow. */
  method IngestTwice(controller: Controller, event: Event, rootId: Id)
    requires controller.Valid()
    modifies controller
    ensures controller.Valid()
    ensures controller.tasks == Replay(old(controller.log) + [event])
    ensures EdgesOf(WithRoot(controller.relations, rootId))
         == EdgesOf(WithRoot(old(controller.relations) + RelationsOf(event), rootId))
  {
    ghost var log, relations := controller.log, controller.relations;
    IngestTaskEvent(controller, event);
    IngestTaskEvent(controller, event);
    DuplicateLeavesTable(log, event);
    assert controller.log == log + [event, event];
    RedeliveryKeepsEdges(relations, event, [], rootId);
    assert relations + RelationsOf(event) + [] == relations + RelationsOf(event);
  }

  /******* Adding the links of the tasks themselves *******/

  datatype Links = Links(taskId: Id, parentId: Option<Id>, groupId: Option<Id>, chordId: Option<Id>)

  // Edges as they are looked up: without empty ends, and with the missing relation read as a chain.
  function KeyOf(e: Edge): Edge {
    if e.relation == "" then e.(relation := "chain") else e
  }

  ghost predicate KeysOf(keys: set<Edge>, edges: seq<Edge>) {
    && (forall e :: e in edges && e.parent != "" && e.child != "" ==> KeyOf(e) in keys)
    && (forall k :: k in keys ==> k.parent != "" && k.child != "" && exists e :: e in edges && KeyOf(e) == k)
  }

  /** An edge that stands between the ends of another one and for the same relation; one without a
      relation stands for a chain. */
  ghost predicate Covered(e: Edge, other: Edge) {
    && other.parent == e.parent && other.child == e.child
    && (other.relation == e.relation || (other.relation == "" && e.relation == "chain"))
  }

  /** The edge that a non-empty link stands for is listed. */
  ghost predicate Linked(edges: seq<Edge>, parent: Option<Id>, child: Id, relation: string) {
    parent.Some? && parent.value != "" && child != "" ==>
      exists e :: e in edges && Covered(Edge(parent.value, child, relation), e)
  }

  /** An edge is added to those listed only if none before it covers it. */
  ghost predicate NoneAddedTwice(listed: seq<Edge>, edges: seq<Edge>) {
    forall i, j :: 0 <= i < j < |edges| && |listed| <= j ==> !Covered(edges[j], edges[i])
  }

  ghost predicate AllLinked(edges: seq<Edge>, item: Links) {
    && Linked(edges, item.parentId, item.taskId, "chain")
    && Linked(edges, item.groupId, item.taskId, "group")
    && Linked(edges, item.chordId, item.taskId, "chord")
  }

  ghost predicate NodesListed(nodeIds: set<Id>, edges: seq<Edge>) {
    forall e :: e in edges ==> (e.parent != "" ==> e.parent in nodeIds) && (e.child != "" ==> e.child in nodeIds)
  }

  method AppendEdge(edges0: seq<Edge>, keys0: set<Edge>, parent: Option<Id>, child: Id, relation: string)
    returns (edges: seq<Edge>, keys: set<Edge>)
    requires Distinct(edges0) && KeysOf(keys0, edges0) && relation != ""
    ensures Distinct(edges) && KeysOf(keys, edges) && Linked(edges, parent, child, relation)
    ensures edges == edges0
         || (&& Truthy(parent) && child != "" && edges == edges0 + [Edge(parent.value, child, relation)]
             && forall e :: e in edges0 ==> !Covered(Edge(parent.value, child, relation), e))
  {
    edges, keys := edges0, keys0;
    if !Truthy(parent) || child == "" {
      return;
    }
    var key := Edge(parent.value, child, relation);
    if key in keys {
      return;
    }
    keys := keys + {key};
    edges := edges + [key];
    assert KeyOf(edges[|edges| - 1]) == key;
    assert forall e :: e in edges <==> e in edges0 || e == key;
  }

  /** The node that a link adds: its other end, unless that is missing or empty. */
  function LinkEnd(link: Option<Id>): set<Id> {
    if Truthy(link) then {link.value} else {}
  }

  /** The nodes that a task adds: itself and the ends of its links. */
  function NodesOf(item: Links): set<Id> {
    {item.taskId} + LinkEnd(item.parentId) + LinkEnd(item.groupId) + LinkEnd(item.chordId)
  }

  predicate IsEnd(e: Edge, x: Id) {
    x != "" && (e.parent == x || e.child == x)
  }

  /** The nodes are the root, the ends of the edges and what the tasks add, and nothing else. */
  ghost predicate NodesExactly(nodeIds: set<Id>, rootId: Id, edges: seq<Edge>, tasks: seq<Links>) {
    forall x :: x in nodeIds <==>
                (|| x == rootId
                 || (exists e :: e in edges && IsEnd(e, x))
                 || (exists i :: 0 <= i < |tasks| && x in NodesOf(tasks[i])))
  }

  lemma NodesOfOneEdgeMore(nodeIds: set<Id>, rootId: Id, edges: seq<Edge>, e: Edge, nodeIds': set<Id>)
    requires NodesExactly(nodeIds, rootId, edges, [])
    requires forall x :: x in nodeIds' <==> x in nodeIds || IsEnd(e, x)
    ensures NodesExactly(nodeIds', rootId, edges + [e], [])
  {
    assert forall d :: d in edges + [e] <==> d in edges || d == e;
  }

  lemma NodesOfOneTaskMore(nodeIds: set<Id>, rootId: Id, edges: seq<Edge>, tasks: seq<Links>, item: Links)
    requires NodesExactly(nodeIds, rootId, edges, tasks)
    ensures NodesExactly(nodeIds + NodesOf(item), rootId, edges, tasks + [item])
  {
    var more := tasks + [item];
    forall x
      ensures (exists i :: 0 <= i < |more| && x in NodesOf(more[i]))
              <==> (exists i :: 0 <= i < |tasks| && x in NodesOf(tasks[i])) || x in NodesOf(item)
    {
      if i :| 0 <= i < |tasks| && x in NodesOf(tasks[i]) {
        assert more[i] == tasks[i];
      }
      assert more[|tasks|] == item;
    }
  }

  // One link of a task: its edge, and its other end among the nodes.
  method AppendLink(edges0: seq<Edge>, keys0: set<Edge>, nodeIds0: set<Id>,
                    parent: Option<Id>, child: Id, relation: string)
    returns (edges: seq<Edge>, keys: set<Edge>, nodeIds: set<Id>)
    requires Distinct(edges0) && KeysOf(keys0, edges0) && NodesListed(nodeIds0, edges0)
    requires relation != "" && child in nodeIds0
    ensures Distinct(edges) && KeysOf(keys, edges) && NodesListed(nodeIds, edges)
    ensures edges0 <= edges && Linked(edges, parent, child, relation) && NoneAddedTwice(edges0, edges)
    ensures forall e :: e in edges ==>
              e in edges0 || (Some(e.parent) == parent && e.child == child && e.relation == relation)
    ensures nodeIds == nodeIds0 + LinkEnd(parent)
  {
    nodeIds := nodeIds0;
    edges, keys := AppendEdge(edges0, keys0, parent, child, relation);
    if Truthy(parent) {
      nodeIds := nodeIds + {parent.value};
    }
  }

  ghost predicate IsLink(item: Links, e: Edge) {
    && e.child == item.taskId
    && (|| (Some(e.parent) == item.parentId && e.relation == "chain")
        || (Some(e.parent) == item.groupId && e.relation == "group")
        || (Some(e.parent) == item.chordId && e.relation == "chord"))
  }

  lemma LinkedStays(edges: seq<Edge>, more: seq<Edge>, parent: Option<Id>, child: Id, relation: string)
    requires Linked(edges, parent, child, relation) && edges <= more
    ensures Linked(more, parent, child, relation)
  {
  }

  method AppendLinks(edges0: seq<Edge>, keys0: set<Edge>, nodeIds0: set<Id>, item: Links)
    returns (edges: seq<Edge>, keys: set<Edge>, nodeIds: set<Id>)
    requires Distinct(edges0) && KeysOf(keys0, edges0) && NodesListed(nodeIds0, edges0)
    ensures Distinct(edges) && KeysOf(keys, edges) && NodesListed(nodeIds, edges)
    ensures edges0 <= edges && AllLinked(edges, item) && NoneAddedTwice(edges0, edges)
    ensures forall e :: e in edges ==> e in edges0 || IsLink(item, e)
    ensures nodeIds == nodeIds0 + NodesOf(item)
  {
    nodeIds := nodeIds0 + {item.taskId};
    edges, keys, nodeIds := AppendLink(edges0, keys0, nodeIds, item.parentId, item.taskId, "chain");
    ghost var afterParent := edges;
    edges, keys, nodeIds := AppendLink(edges, keys, nodeIds, item.groupId, item.taskId, "group");
    ghost var afterGroup := edges;
    edges, keys, nodeIds := AppendLink(edges, keys, nodeIds, item.chordId, item.taskId, "chord");
    LinkedStays(afterParent, edges, item.parentId, item.taskId, "chain");
    LinkedStays(afterGroup, edges, item.groupId, item.taskId, "group");
  }

  method IndexEdges(edges: seq<Edge>, rootId: Id) returns (keys: set<Edge>, nodeIds: set<Id>)
    ensures KeysOf(keys, edges) && NodesListed(nodeIds, edges) && NodesExactly(nodeIds, rootId, edges, [])
  {
    keys, nodeIds := {}, {rootId};
    for i := 0 to |edges|
      invariant KeysOf(keys, edges[..i]) && NodesListed(nodeIds, edges[..i])
      invariant NodesExactly(nodeIds, rootId, edges[..i], [])
    {
      ghost var before := nodeIds;
      var edge := edges[i];
      assert edges[..i + 1] == edges[..i] + [edge];
      assert forall e :: e in edges[..i + 1] <==> e in edges[..i] || e == edge;
      if edge.parent != "" && edge.child != "" {
        keys := keys + {KeyOf(edge)};
      }
      if edge.parent != "" {
        nodeIds := nodeIds + {edge.parent};
      }
      if edge.child != "" {
        nodeIds := nodeIds + {edge.child};
      }
      NodesOfOneEdgeMore(before, rootId, edges[..i], edge, nodeIds);
    }
    assert edges[..|edges|] == edges;
  }

  ghost predicate Covers(edges: seq<Edge>, nodeIds: set<Id>, tasks: seq<Links>) {
    forall i :: 0 <= i < |tasks| ==> AllLinked(edges, tasks[i]) && tasks[i].taskId in nodeIds
  }

  ghost predicate OnlyFrom(edges: seq<Edge>, listed: seq<Edge>, tasks: seq<Links>) {
    forall e :: e in edges ==> e in listed || exists i :: 0 <= i < |tasks| && IsLink(tasks[i], e)
  }

  lemma CoversMore(edges: seq<Edge>, nodeIds: set<Id>, edges': seq<Edge>, nodeIds': set<Id>,
                   tasks: seq<Links>, item: Links)
    requires Covers(edges, nodeIds, tasks) && edges <= edges' && nodeIds <= nodeIds'
    requires AllLinked(edges', item) && item.taskId in nodeIds'
    ensures Covers(edges', nodeIds', tasks + [item])
  {
  }

  lemma OnlyFromMore(edges: seq<Edge>, edges': seq<Edge>, listed: seq<Edge>, tasks: seq<Links>, item: Links)
    requires OnlyFrom(edges, listed, tasks)
    requires forall e :: e in edges' ==> e in edges || IsLink(item, e)
    ensures OnlyFrom(edges', listed, tasks + [item])
  {
    var more := tasks + [item];
    forall e | e in edges' && e !in listed
      ensures exists i :: 0 <= i < |more| && IsLink(more[i], e)
    {
      if e in edges {
        var i :| 0 <= i < |tasks| && IsLink(tasks[i], e);
        assert more[i] == tasks[i];
      } else {
        assert more[|tasks|] == item;
      }
    }
  }

  lemma StillNoneAddedTwice(listed: seq<Edge>, edges: seq<Edge>, edges': seq<Edge>)
    requires listed <= edges <= edges' && NoneAddedTwice(listed, edges) && NoneAddedTwice(edges, edges')
    ensures NoneAddedTwice(listed, edges')
  {
    forall i, j | 0 <= i < j < |edges'| && |listed| <= j
      ensures !Covered(edges'[j], edges'[i])
    {
      if j < |edges| {
        assert edges'[i] == edges[i] && edges'[j] == edges[j];
      }
    }
  }

  lemma TakeOneMore(tasks: seq<Links>, i: nat)
    requires i < |tasks|
    ensures tasks[..i + 1] == tasks[..i] + [tasks[i]]
  {
  }

  // The edges and nodes when the links of `tasks` are in.
  ghost predicate LinksAreIn(rootId: Id, listed: seq<Edge>, tasks: seq<Links>, edges: seq<Edge>, nodeIds: set<Id>) {
    && listed <= edges && Distinct(edges) && NoneAddedTwice(listed, edges)
    && Covers(edges, nodeIds, tasks) && OnlyFrom(edges, listed, tasks)
    && NodesListed(nodeIds, edges) && NodesExactly(nodeIds, rootId, listed, tasks)
  }

  lemma LinksOfOneTaskMore(rootId: Id, listed: seq<Edge>, tasks: seq<Links>, edges: seq<Edge>, nodeIds: set<Id>,
                           item: Links, edges': seq<Edge>, nodeIds': set<Id>)
    requires LinksAreIn(rootId, listed, tasks, edges, nodeIds)
    requires edges <= edges' && Distinct(edges') && NoneAddedTwice(edges, edges')
    requires AllLinked(edges', item) && NodesListed(nodeIds', edges') && nodeIds' == nodeIds + NodesOf(item)
    requires forall e :: e in edges' ==> e in edges || IsLink(item, e)
    ensures LinksAreIn(rootId, listed, tasks + [item], edges', nodeIds')
  {
    StillNoneAddedTwice(listed, edges, edges');
    CoversMore(edges, nodeIds, edges', nodeIds', tasks, item);
    OnlyFromMore(edges, edges', listed, tasks, item);
    NodesOfOneTaskMore(nodeIds, rootId, listed, tasks, item);
  }

  method AppendAllLinks(rootId: Id, listed: seq<Edge>, keys0: set<Edge>, nodeIds0: set<Id>, tasks: seq<Links>)
    returns (nodeIds: set<Id>, edges: seq<Edge>)
    requires Distinct(listed) && KeysOf(keys0, listed) && NodesListed(nodeIds0, listed)
    requires NodesExactly(nodeIds0, rootId, listed, [])
    ensures LinksAreIn(rootId, listed, tasks, edges, nodeIds)
  {
    edges, nodeIds := listed, nodeIds0;
    var keys := keys0;
    for i := 0 to |tasks|
      invariant LinksAreIn(rootId, listed, tasks[..i], edges, nodeIds) && KeysOf(keys, edges)
    {
      ghost var edges0, before := edges, nodeIds;
      TakeOneMore(tasks, i);
      edges, keys, nodeIds := AppendLinks(edges, keys, nodeIds, tasks[i]);
      LinksOfOneTaskMore(rootId, listed, tasks[..i], edges0, before, tasks[i], edges, nodeIds);
    }
    assert tasks[..|tasks|] == tasks;
  }

  /** The graph's edges start with those of the relations, repeat none, are completed by exactly the
      links of the tasks, and their ends are among the nodes.  The nodes are exactly the root, the
      ends of the relations' edges, the tasks and the ends of their links. */
  method CollectNodesAndEdges(rootId: Id, relations: seq<Relation>, tasks: seq<Links>)
    returns (nodeIds: set<Id>, edges: seq<Edge>)
    ensures EdgesOf(relations) <= edges && Distinct(edges) && NoneAddedTwice(EdgesOf(relations), edges)
    ensures Covers(edges, nodeIds, tasks) && OnlyFrom(edges, EdgesOf(relations), tasks)
    ensures NodesListed(nodeIds, edges) && NodesExactly(nodeIds, rootId, EdgesOf(relations), tasks)
  {
    var listed := BuildEdges(relations);
    EdgesOfExact(relations);
    var keys, ids := IndexEdges(listed, rootId);
    nodeIds, edges := AppendAllLinks(rootId, listed, keys, ids, tasks);
  }
}
