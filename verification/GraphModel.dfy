/** The graph payload as the browser holds it: nodes by identifier, edges in order. */
module GraphModel {
  import opened Common

  /** A property that a JavaScript object may lack, hold as null, or hold as a string. */
  datatype Field = Absent | Null | Value(text: string)

  /** What parsing a date string yields. */
  datatype Stamp = Unparsable | At(ms: int)

  datatype Node = Node(
    id: Id,
    taskName: Option<string>,
    state: Option<string>,
    kind: Field,
    argsPreview: Option<string>,
    kwargsPreview: Option<string>,
    startedAt: Option<Stamp>,
    finishedAt: Option<Stamp>,
    parentId: Option<Id>,
    rootId: Option<Id>,
    foldedLatestId: Option<Id>,
    shown: map<string, string>   // the remaining properties, which are only displayed
  )

  datatype Label = Text(text: string) | Count(n: nat)

  datatype Edge = Edge(id: string, source: Id, target: Id, kind: Option<string>, caption: Option<Label>)

  datatype Meta = Meta(rootId: Option<Id>, generatedAt: Option<string>)

  datatype FoldedInfo = FoldedInfo(childToRoot: map<Id, Id>, latestChildByRoot: map<Id, Id>)

  datatype Model = Model(meta: Meta, nodes: map<Id, Node>, edges: seq<Edge>, folded: Option<FoldedInfo>)

  /** Every node sits under its own identifier. */
  ghost predicate WellKeyed(nodes: map<Id, Node>) {
    forall id :: id in nodes ==> nodes[id].id == id
  }
}
