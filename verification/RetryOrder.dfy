/** When a retry sends parents before their children. */
module RetryOrder {
  import opened Common
  import opened Digraph
  import opened TaskStore
  import opened SmartRetry

  /** The order in which a retry of the start sends the tasks that it can send. */
  function SentOrder(g: Graph, start: Id): seq<Id> {
    [start] + Descendants(g, start)
  }

  ghost predicate ParentsFirst(g: Graph, order: seq<Id>) {
    forall i, j :: 0 <= i < |order| && 0 <= j < |order| && order[j] in Next(g, order[i]) ==> i < j
  }

  /** Every edge among the descendants leads exactly one level deeper. */
  ghost predicate Layered(g: Graph, start: Id) {
    forall u, v, d: nat, e: nat :: v in Next(g, u) && IsDist(g, start, u, d) && IsDist(g, start, v, e) ==> e == d + 1
  }

  lemma {:induction false} ShortestExists(g: Graph, u: Id, v: Id, n: nat) returns (d: nat)
    requires HasPath(g, u, v, n)
    ensures IsDist(g, u, v, d)
  {
    if m: nat :| m < n && HasPath(g, u, v, m) {
      d := ShortestExists(g, u, v, m);
    } else {
      d := n;
    }
  }

  lemma DistExists(g: Graph, u: Id, v: Id) returns (d: nat)
    requires Reach(g, u, v)
    ensures IsDist(g, u, v, d)
  {
    var p :| PathBetween(g, p, u, v);
    assert HasPath(g, u, v, |p| - 1);
    d := ShortestExists(g, u, v, |p| - 1);
  }

  lemma EdgeClimbsAtMostOne(g: Graph, start: Id, u: Id, v: Id, d: nat, e: nat)
    requires v in Next(g, u) && IsDist(g, start, u, d) && IsDist(g, start, v, e)
    ensures e <= d + 1
  {
    HasPathStep(g, start, u, v, d);
  }

  /** A parent precedes its child when the edge leads a level deeper, and follows it when the child
      is nearer to the start: then the child has been sent on account of another parent. */
  lemma ParentPosition(g: Graph, start: Id, order: seq<Id>, i: nat, j: nat, d: nat, e: nat)
    requires BfsOrder(g, start, order) && i < |order| && j < |order| && order[j] in Next(g, order[i])
    requires IsDist(g, start, order[i], d) && IsDist(g, start, order[j], e)
    ensures d < e ==> i < j
    ensures e < d ==> j < i
  {
  }

  lemma LayeredParentsFirst(g: Graph, start: Id, order: seq<Id>)
    requires BfsOrder(g, start, order) && Layered(g, start)
    ensures ParentsFirst(g, order)
  {
    forall i, j | 0 <= i < |order| && 0 <= j < |order| && order[j] in Next(g, order[i])
      ensures i < j
    {
      assert order[i] in order && order[j] in order;
      var d := DistExists(g, start, order[i]);
      var e := DistExists(g, start, order[j]);
      ParentPosition(g, start, order, i, j, d, e);
    }
  }

  lemma DistUnique(g: Graph, start: Id, v: Id, d: nat, e: nat)
    requires IsDist(g, start, v, d) && IsDist(g, start, v, e)
    ensures d == e
  {
  }

  /** Every node but the start has a parent one level up. */
  lemma ParentOneLevelUp(g: Graph, start: Id, v: Id, d: nat) returns (u: Id)
    requires IsDist(g, start, v, d) && d > 0
    ensures IsDist(g, start, u, d - 1) && v in Next(g, u)
  {
    var p :| PathBetween(g, p, start, v) && |p| == d + 1;
    u := p[d - 1];
    assert v == p[d - 1 + 1];
    assert PathBetween(g, p[..d], start, u);
    forall n: nat | n < d - 1
      ensures !HasPath(g, start, u, n)
    {
      if HasPath(g, start, u, n) {
        HasPathStep(g, start, u, v, n);
      }
    }
  }

  lemma NearestIsStart(g: Graph, start: Id, v: Id, d: nat)
    requires IsDist(g, start, v, d)
    ensures d == 0 ==> v == start
  {
  }

  ghost predicate Complete(g: Graph, start: Id, order: seq<Id>) {
    && NoDup(order)
    && (forall v :: v in order <==> Reach(g, start, v))
    && order != [] && order[0] == start
  }

  /** An order by distance needs no care about parents. */
  lemma ByDistanceIsBfs(g: Graph, start: Id, order: seq<Id>)
    requires Complete(g, start, order) && ByDistance(g, start, order)
    ensures BfsOrder(g, start, order)
  {
    forall i | 0 < i < |order|
      ensures HasParentIn(g, order[..i], order[i])
    {
      assert order[i] in order && order[i] != order[0];
      var d := DistExists(g, start, order[i]);
      NearestIsStart(g, start, order[i], d);
      var u := ParentOneLevelUp(g, start, order[i], d);
      var p :| PathBetween(g, p, start, u) && |p| == d - 1 + 1;
      assert u in order;
      var j :| 0 <= j < |order| && order[j] == u;
      assert j < i;
      assert order[..i][j] == u;
    }
  }

  function Exchanged(order: seq<Id>, i: nat, j: nat): seq<Id>
    requires i < |order| && j < |order|
  {
    order[i := order[j]][j := order[i]]
  }

  lemma ExchangedComplete(g: Graph, start: Id, order: seq<Id>, i: nat, j: nat)
    requires Complete(g, start, order) && 0 < i < |order| && 0 < j < |order|
    ensures Complete(g, start, Exchanged(order, i, j))
  {
    var order' := Exchanged(order, i, j);
    forall v
      ensures v in order' <==> v in order
    {
      if v in order {
        var k :| 0 <= k < |order| && order[k] == v;
        assert order'[if k == i then j else if k == j then i else k] == v;
      }
    }
  }

  lemma ExchangedByDistance(g: Graph, start: Id, order: seq<Id>, i: nat, j: nat, d: nat)
    requires ByDistance(g, start, order) && i < |order| && j < |order|
    requires IsDist(g, start, order[i], d) && IsDist(g, start, order[j], d)
    ensures ByDistance(g, start, Exchanged(order, i, j))
  {
    var order' := Exchanged(order, i, j);
    forall k, n: nat | 0 <= k < |order| && IsDist(g, start, order'[k], n)
      ensures IsDist(g, start, order[k], n)
    {
      if k == i || k == j {
        DistUnique(g, start, order'[k], d, n);
      }
    }
  }

  /** Exchanging two nodes of one level makes another breadth-first order. */
  lemma ExchangeOnLevel(g: Graph, start: Id, order: seq<Id>, i: nat, j: nat, d: nat)
    requires BfsOrder(g, start, order) && 0 < i < |order| && 0 < j < |order|
    requires IsDist(g, start, order[i], d) && IsDist(g, start, order[j], d)
    ensures BfsOrder(g, start, Exchanged(order, i, j))
  {
    ExchangedComplete(g, start, order, i, j);
    ExchangedByDistance(g, start, order, i, j, d);
    ByDistanceIsBfs(g, start, Exchanged(order, i, j));
  }

  lemma PlaceOf(g: Graph, start: Id, order: seq<Id>, v: Id, d: nat) returns (i: nat)
    requires BfsOrder(g, start, order) && IsDist(g, start, v, d)
    ensures i < |order| && order[i] == v && (i == 0 ==> d == 0)
  {
    var p :| PathBetween(g, p, start, v) && |p| == d + 1;
    assert v in order;
    i :| 0 <= i < |order| && order[i] == v;
    if i == 0 {
      assert PathBetween(g, [start], start, start) && |[start]| == 1;
      assert HasPath(g, start, v, 0);
    }
  }

  /** An edge that does not lead a level deeper lets some breadth-first order put the child first. */
  lemma ChildFirst(g: Graph, start: Id, order: seq<Id>, u: Id, v: Id, d: nat, e: nat) returns (order': seq<Id>)
    requires BfsOrder(g, start, order) && v in Next(g, u) && IsDist(g, start, u, d) && IsDist(g, start, v, e)
    requires e != d + 1
    ensures BfsOrder(g, start, order') && !ParentsFirst(g, order')
  {
    EdgeClimbsAtMostOne(g, start, u, v, d, e);
    var i := PlaceOf(g, start, order, u, d);
    var j := PlaceOf(g, start, order, v, e);
    order' := order;
    if e < d {
      ParentPosition(g, start, order, i, j, d, e);
    } else if i < j {
      NearestIsStart(g, start, u, d);
      NearestIsStart(g, start, v, e);
      ExchangeOnLevel(g, start, order, i, j, d);
      order' := Exchanged(order, i, j);
      assert order'[i] == v && order'[j] == u;
    }
  }

  /** In every breadth-first order all parents go before all their children exactly when every edge among
      the descendants leads one level deeper. */
  lemma BfsParentsFirstExactly(g: Graph, start: Id)
    ensures (forall order :: BfsOrder(g, start, order) ==> ParentsFirst(g, order)) <==> Layered(g, start)
  {
    if Layered(g, start) {
      forall order | BfsOrder(g, start, order)
        ensures ParentsFirst(g, order)
      {
        LayeredParentsFirst(g, start, order);
      }
    } else {
      var u, v, d: nat, e: nat :|
        v in Next(g, u) && IsDist(g, start, u, d) && IsDist(g, start, v, e) && e != d + 1;
      DescendantsByDistance(g, start);
      var order := ChildFirst(g, start, SentOrder(g, start), u, v, d, e);
    }
  }

  /******* The first child of a node *******/

  /** A node that the search knows once it has expanded the given ones. */
  ghost predicate KnownFrom(g: Graph, start: Id, expanded: seq<Id>, v: Id) {
    v == start || exists j :: 0 <= j < |expanded| && v in Next(g, expanded[j])
  }

  ghost predicate AllKnownFrom(g: Graph, start: Id, expanded: seq<Id>, nodes: seq<Id>) {
    forall v :: v in nodes ==> KnownFrom(g, start, expanded, v)
  }

  lemma KnownFromMore(g: Graph, start: Id, expanded: seq<Id>, head: Id, nodes: seq<Id>, unseen: seq<Id>)
    requires AllKnownFrom(g, start, expanded, nodes) && forall v :: v in unseen ==> v in Next(g, head)
    ensures AllKnownFrom(g, start, expanded + [head], nodes + unseen)
  {
    var more := expanded + [head];
    assert more[|expanded|] == head;
    forall v | v in nodes + unseen
      ensures KnownFrom(g, start, more, v)
    {
      if v in nodes && v != start {
        var j :| 0 <= j < |expanded| && v in Next(g, expanded[j]);
        assert more[j] == expanded[j];
      }
    }
  }

  lemma UnseenAreChildren(g: Graph, head: Id, seen: set<Id>)
    ensures forall v :: v in Fresh(Next(g, head), seen) ==> v in Next(g, head)
  {
    FreshExact(Next(g, head), seen);
    assert forall v :: v in Fresh(Next(g, head), seen) ==> v in Elems(Fresh(Next(g, head), seen));
  }

  // What is visited in all, when some nodes have been expanded and others are queued.
  function Whole(g: Graph, expanded: seq<Id>, queue: seq<Id>): seq<Id> {
    expanded + queue + Discover(g, queue, Elems(expanded + queue))
  }

  lemma WholeStep(g: Graph, expanded: seq<Id>, queue: seq<Id>)
    requires queue != []
    ensures var unseen := Fresh(Next(g, queue[0]), Elems(expanded + queue));
            && Whole(g, expanded + [queue[0]], queue[1..] + unseen) == Whole(g, expanded, queue)
            && (expanded + [queue[0]]) + (queue[1..] + unseen) == expanded + queue + unseen
  {
    var seen := Elems(expanded + queue);
    var unseen := Fresh(Next(g, queue[0]), seen);
    DiscoverStep(g, expanded + queue, queue, seen);
    assert (expanded + [queue[0]]) + (queue[1..] + unseen) == expanded + queue + unseen;
    ElemsConcat(expanded + queue, unseen);
  }

  // The head of the queue is expanded: its first child is known already, or comes next.
  lemma FirstChildComesNext(g: Graph, expanded: seq<Id>, queue: seq<Id>, m: nat)
    requires queue != [] && Next(g, queue[0]) != []
    requires var order := Whole(g, expanded, queue);
             NoDup(order) && m < |order| && order[m] == Next(g, queue[0])[0]
    ensures m <= |expanded + queue|
  {
    var found, child, order := expanded + queue, Next(g, queue[0])[0], Whole(g, expanded, queue);
    if child in found {
      var i :| 0 <= i < |found| && found[i] == child;
      assert order[i] == child;
    } else {
      var unseen := Fresh(Next(g, queue[0]), Elems(found));
      DiscoverStep(g, found, queue, Elems(found));
      assert unseen[0] == child;
      assert order[|found|] == child;
    }
  }

  /** Whatever is visited before the first child of the k-th node is the start or a child of an earlier
      node: the queue gives nodes out in the order in which they came. */
  lemma {:induction false} BeforeFirstChild(g: Graph, start: Id, expanded: seq<Id>, queue: seq<Id>, k: nat, m: nat)
    requires AllKnownFrom(g, start, expanded, expanded + queue) && |expanded| <= k
    requires var order := Whole(g, expanded, queue);
             && NoDup(order) && k < |order| && m < |order|
             && Next(g, order[k]) != [] && order[m] == Next(g, order[k])[0]
    ensures var order := Whole(g, expanded, queue);
            AllKnownFrom(g, start, order[..k], order[..m])
    decreases k - |expanded|
  {
    var found, order := expanded + queue, Whole(g, expanded, queue);
    assert queue != [];
    if |expanded| == k {
      assert order[k] == queue[0] && order[..k] == expanded;
      FirstChildComesNext(g, expanded, queue, m);
      assert order[..m] <= found;
    } else {
      var unseen := Fresh(Next(g, queue[0]), Elems(found));
      WholeStep(g, expanded, queue);
      UnseenAreChildren(g, queue[0], Elems(found));
      KnownFromMore(g, start, expanded, queue[0], found, unseen);
      BeforeFirstChild(g, start, expanded + [queue[0]], queue[1..] + unseen, k, m);
    }
  }

  /******* The first node of a level *******/

  /** A shortest path: its i-th node is on level i. */
  ghost predicate LevelPath(g: Graph, start: Id, p: seq<Id>) {
    && p != []
    && (forall i :: 0 <= i < |p| ==> IsDist(g, start, p[i], i))
    && (forall i :: 0 <= i < |p| - 1 ==> p[i + 1] in Next(g, p[i]))
  }

  lemma LevelPathNoDup(g: Graph, start: Id, p: seq<Id>)
    requires LevelPath(g, start, p)
    ensures NoDup(p)
  {
    forall i, j | 0 <= i < j < |p|
      ensures p[i] != p[j]
    {
      assert HasPath(g, start, p[i], i) && IsDist(g, start, p[j], j);
    }
  }

  lemma {:induction false} LevelPathTo(g: Graph, start: Id, v: Id, d: nat) returns (p: seq<Id>)
    requires IsDist(g, start, v, d)
    ensures LevelPath(g, start, p) && |p| == d + 1 && p[d] == v
    decreases d
  {
    if d == 0 {
      p := [v];
    } else {
      var u := ParentOneLevelUp(g, start, v, d);
      var q := LevelPathTo(g, start, u, d - 1);
      p := q + [v];
    }
  }

  /** Each node of the path is listed first among the children of the one before. */
  ghost predicate ListedFirst(g: Graph, p: seq<Id>) {
    forall i :: 0 <= i < |p| - 1 ==> Next(g, p[i]) != [] && Next(g, p[i])[0] == p[i + 1]
  }

  ghost predicate FirstOnLevel(g: Graph, start: Id, order: seq<Id>, k: nat, d: nat)
    requires k < |order|
  {
    IsDist(g, start, order[k], d) && forall l: nat, e: nat :: l < k && IsDist(g, start, order[l], e) ==> e < d
  }

  lemma KnownLevels(g: Graph, start: Id, order: seq<Id>, k: nat, d: nat, v: Id, e: nat)
    requires k < |order| && FirstOnLevel(g, start, order, k, d) && (forall x :: x in order ==> Reach(g, start, x))
    requires KnownFrom(g, start, order[..k], v) && IsDist(g, start, v, e)
    ensures e <= d
  {
    if v == start {
      assert PathBetween(g, [start], start, start) && |[start]| == 1;
      assert HasPath(g, start, start, 0);
    } else {
      var j :| 0 <= j < k && v in Next(g, order[..k][j]);
      assert order[j] in order;
      var c := DistExists(g, start, order[j]);
      EdgeClimbsAtMostOne(g, start, order[j], v, c, e);
    }
  }

  lemma NextLevelFirst(g: Graph, start: Id, k: nat, m: nat, d: nat)
    requires var order := SentOrder(g, start);
             && k < |order| && FirstOnLevel(g, start, order, k, d)
             && m < |order| && Next(g, order[k]) != [] && order[m] == Next(g, order[k])[0]
             && IsDist(g, start, order[m], d + 1)
    ensures FirstOnLevel(g, start, SentOrder(g, start), m, d + 1)
  {
    var order := SentOrder(g, start);
    DescendantsByDistance(g, start);
    assert [] + [start] == [start] && Elems([start]) == {start};
    assert Whole(g, [], [start]) == order;
    BeforeFirstChild(g, start, [], [start], k, m);
    forall l: nat, e: nat | l < m && IsDist(g, start, order[l], e)
      ensures e < d + 1
    {
      assert order[l] in order[..m];
      KnownLevels(g, start, order, k, d, order[l], e);
    }
  }

  /** The nodes of a shortest path that is listed first are the first of their levels to be sent. */
  lemma {:induction false} PathLeads(g: Graph, start: Id, p: seq<Id>, i: nat) returns (k: nat)
    requires LevelPath(g, start, p) && ListedFirst(g, p) && i < |p|
    ensures k < |SentOrder(g, start)| && SentOrder(g, start)[k] == p[i]
    ensures FirstOnLevel(g, start, SentOrder(g, start), k, i)
  {
    var order := SentOrder(g, start);
    if i == 0 {
      NearestIsStart(g, start, p[0], 0);
      k := 0;
    } else {
      var j := PathLeads(g, start, p, i - 1);
      DescendantsByDistance(g, start);
      k := PlaceOf(g, start, order, p[i], i);
      NextLevelFirst(g, start, j, k, i - 1);
    }
  }

  /** If a node is led to by such a path, no other node of its level is sent before it. */
  lemma LeadingChildFirst(g: Graph, start: Id, p: seq<Id>, u: Id, v: Id, d: nat)
    requires LevelPath(g, start, p) && ListedFirst(g, p) && |p| == d + 1 && p[d] == v
    requires v in Next(g, u) && u != v && IsDist(g, start, u, d)
    ensures !ParentsFirst(g, SentOrder(g, start))
  {
    var order := SentOrder(g, start);
    var k := PathLeads(g, start, p, d);
    DescendantsByDistance(g, start);
    var i := PlaceOf(g, start, order, u, d);
    assert i >= k;
  }

  // An edge that does not lead deeper, other than between two nodes of one level, fails in any listing.
  lemma UpwardChildFirst(g: Graph, start: Id, u: Id, v: Id, d: nat, e: nat)
    requires v in Next(g, u) && IsDist(g, start, u, d) && IsDist(g, start, v, e)
    requires e < d || u == v
    ensures !ParentsFirst(g, SentOrder(g, start))
  {
    var order := SentOrder(g, start);
    DescendantsByDistance(g, start);
    var i := PlaceOf(g, start, order, u, d);
    var j := PlaceOf(g, start, order, v, e);
    if u != v {
      ParentPosition(g, start, order, i, j, d, e);
    }
  }

  /******* Other listings of the same edges *******/

  ghost predicate SameEdges(g: Graph, h: Graph) {
    forall u, v :: v in Next(g, u) <==> v in Next(h, u)
  }

  lemma SamePaths(g: Graph, h: Graph, u: Id, v: Id, n: nat)
    requires SameEdges(g, h)
    ensures HasPath(g, u, v, n) <==> HasPath(h, u, v, n)
  {
    if HasPath(g, u, v, n) {
      var p :| PathBetween(g, p, u, v) && |p| == n + 1;
      assert PathBetween(h, p, u, v);
    }
    if HasPath(h, u, v, n) {
      var p :| PathBetween(h, p, u, v) && |p| == n + 1;
      assert PathBetween(g, p, u, v);
    }
  }

  lemma SameLevels(g: Graph, h: Graph, start: Id)
    requires SameEdges(g, h)
    ensures forall v, d: nat :: IsDist(g, start, v, d) <==> IsDist(h, start, v, d)
  {
    forall v, n: nat
      ensures HasPath(g, start, v, n) <==> HasPath(h, start, v, n)
    {
      SamePaths(g, h, start, v, n);
    }
  }

  lemma SameLayered(g: Graph, h: Graph, start: Id)
    requires SameEdges(g, h)
    ensures Layered(g, start) <==> Layered(h, start)
  {
    SameLevels(g, h, start);
  }

  lemma LayeredSentInOrder(g: Graph, h: Graph, start: Id)
    requires Layered(g, start) && SameEdges(g, h)
    ensures ParentsFirst(h, SentOrder(h, start))
  {
    SameLayered(g, h, start);
    DescendantsByDistance(h, start);
    LayeredParentsFirst(h, start, SentOrder(h, start));
  }

  /** Where an edge does not lead a level deeper, listing some shortest path first sends a child before
      its parent. */
  lemma LedAstray(g: Graph, h: Graph, start: Id, p: seq<Id>, u: Id, v: Id, d: nat, e: nat)
    requires SameEdges(g, h) && LevelPath(g, start, p) && ListedFirst(h, p) && |p| == e + 1 && p[e] == v
    requires v in Next(g, u) && IsDist(g, start, u, d) && IsDist(g, start, v, e) && e != d + 1
    ensures !ParentsFirst(h, SentOrder(h, start))
  {
    SameLevels(g, h, start);
    EdgeClimbsAtMostOne(g, start, u, v, d, e);
    if e < d || u == v {
      UpwardChildFirst(h, start, u, v, d, e);
    } else {
      LeadingChildFirst(h, start, p, u, v, d);
    }
  }

  /******* Permuting the lists of children *******/

  ghost predicate Relisted(g: Graph, h: Graph) {
    h.Keys == g.Keys && forall u :: u in g ==> multiset(h[u]) == multiset(g[u])
  }

  lemma RelistedSameEdges(g: Graph, h: Graph)
    requires Relisted(g, h)
    ensures SameEdges(g, h)
  {
    forall u, v
      ensures v in Next(g, u) <==> v in Next(h, u)
    {
      assert v in Next(g, u) <==> v in multiset(Next(g, u));
      assert v in Next(h, u) <==> v in multiset(Next(h, u));
    }
  }

  function Place(s: seq<Id>, x: Id): (i: nat)
    requires x in s
    ensures i < |s| && s[i] == x
  {
    if s[0] == x then 0 else 1 + Place(s[1..], x)
  }

  function ToFront(s: seq<Id>, x: Id): (r: seq<Id>)
    requires x in s
    ensures r != [] && r[0] == x
  {
    var i := Place(s, x);
    [x] + s[..i] + s[i + 1..]
  }

  lemma ToFrontSame(s: seq<Id>, x: Id)
    requires x in s
    ensures multiset(ToFront(s, x)) == multiset(s)
  {
    var i := Place(s, x);
    assert s == s[..i] + [x] + s[i + 1..];
  }

  // Each node of a path moves to the front of the list of the one before.
  function PathFirst(g: Graph, p: seq<Id>): Graph {
    map u | u in g ::
      if u in p && Place(p, u) + 1 < |p| && p[Place(p, u) + 1] in g[u] then ToFront(g[u], p[Place(p, u) + 1]) else g[u]
  }

  lemma PathFirstExact(g: Graph, start: Id, p: seq<Id>)
    requires LevelPath(g, start, p)
    ensures Relisted(g, PathFirst(g, p)) && ListedFirst(PathFirst(g, p), p)
  {
    var h := PathFirst(g, p);
    forall u | u in g
      ensures multiset(h[u]) == multiset(g[u])
    {
      if u in p && Place(p, u) + 1 < |p| && p[Place(p, u) + 1] in g[u] {
        ToFrontSame(g[u], p[Place(p, u) + 1]);
      }
    }
    LevelPathNoDup(g, start, p);
    forall i | 0 <= i < |p| - 1
      ensures Next(h, p[i]) != [] && Next(h, p[i])[0] == p[i + 1]
    {
      assert Place(p, p[i]) == i;
    }
  }

  /** However the children of each task are listed, all parents are sent before all their children: that
      holds exactly when every edge among the descendants leads one level deeper. */
  lemma ParentsFirstExactly(g: Graph, start: Id)
    ensures (forall h :: Relisted(g, h) ==> ParentsFirst(h, SentOrder(h, start))) <==> Layered(g, start)
  {
    if Layered(g, start) {
      forall h | Relisted(g, h)
        ensures ParentsFirst(h, SentOrder(h, start))
      {
        RelistedSameEdges(g, h);
        LayeredSentInOrder(g, h, start);
      }
    } else {
      var u, v, d: nat, e: nat :|
        v in Next(g, u) && IsDist(g, start, u, d) && IsDist(g, start, v, e) && e != d + 1;
      var p := LevelPathTo(g, start, v, e);
      PathFirstExact(g, start, p);
      RelistedSameEdges(g, PathFirst(g, p));
      LedAstray(g, PathFirst(g, p), start, p, u, v, d, e);
    }
  }

  /******* Permuting the relations *******/

  ghost predicate IsEdge(r: Relation, u: Id, v: Id) {
    r.parentId == Some(u) && r.childId == v
  }

  lemma {:induction false} NoChildren(relations: seq<Relation>, u: Id)
    requires forall r :: r in relations ==> r.parentId != Some(u)
    ensures Next(AdjacencyOf(relations), u) == []
  {
    if relations != [] {
      NoChildren(Init(relations), u);
      assert Last(relations) in relations;
    }
  }

  /** The first relation that names a node as the parent gives its first child. */
  lemma {:induction false} FirstRelation(relations: seq<Relation>, i: nat, u: Id, v: Id)
    requires i < |relations| && IsEdge(relations[i], u, v)
    requires forall j :: 0 <= j < i ==> relations[j].parentId != Some(u)
    ensures Next(AdjacencyOf(relations), u) != [] && Next(AdjacencyOf(relations), u)[0] == v
  {
    if i == |relations| - 1 {
      NoChildren(Init(relations), u);
    } else {
      FirstRelation(Init(relations), i, u, v);
    }
  }

  ghost predicate PathAhead(relations: seq<Relation>, p: seq<Id>, n: nat) {
    n < |p| && n <= |relations| && forall i :: 0 <= i < n ==> IsEdge(relations[i], p[i], p[i + 1])
  }

  lemma SameRelations(relations: seq<Relation>, relations': seq<Relation>)
    requires multiset(relations) == multiset(relations')
    ensures SameEdges(AdjacencyOf(relations), AdjacencyOf(relations'))
  {
    forall u, v
      ensures v in Next(AdjacencyOf(relations), u) <==> v in Next(AdjacencyOf(relations'), u)
    {
      AdjacencyExact(relations, u, v);
      AdjacencyExact(relations', u, v);
      assert forall r :: r in relations <==> r in multiset(relations);
      assert forall r :: r in relations' <==> r in multiset(relations');
    }
  }

  /** The relations can be listed so that those of a shortest path come first. */
  lemma {:induction false} PullAhead(relations: seq<Relation>, start: Id, p: seq<Id>, n: nat)
    returns (relations': seq<Relation>)
    requires LevelPath(AdjacencyOf(relations), start, p) && n < |p|
    ensures multiset(relations') == multiset(relations) && PathAhead(relations', p, n)
  {
    if n == 0 {
      relations' := relations;
    } else {
      var before := PullAhead(relations, start, p, n - 1);
      SameRelations(relations, before);
      LevelPathNoDup(AdjacencyOf(relations), start, p);
      assert p[n - 1 + 1] in Next(AdjacencyOf(relations), p[n - 1]);
      var k := NextAhead(before, p, n - 1);
      relations' := MovedTo(before, n - 1, k);
      assert forall i :: 0 <= i < n - 1 ==> relations'[i] == relations'[..n - 1][i];
    }
  }

  lemma NextAhead(relations: seq<Relation>, p: seq<Id>, n: nat) returns (k: nat)
    requires PathAhead(relations, p, n) && n + 1 < |p| && NoDup(p) && p[n + 1] in Next(AdjacencyOf(relations), p[n])
    ensures n <= k < |relations| && IsEdge(relations[k], p[n], p[n + 1])
  {
    AdjacencyExact(relations, p[n], p[n + 1]);
    var r :| r in relations && r.parentId == Some(p[n]) && r.childId == p[n + 1];
    k :| 0 <= k < |relations| && relations[k] == r;
    forall i | 0 <= i < n
      ensures relations[i].parentId != Some(p[n])
    {
      assert IsEdge(relations[i], p[i], p[i + 1]) && p[i] != p[n];
    }
  }

  lemma MovedTo(relations: seq<Relation>, n: nat, k: nat) returns (relations': seq<Relation>)
    requires n <= k < |relations|
    ensures multiset(relations') == multiset(relations) && |relations'| == |relations|
    ensures relations'[..n] == relations[..n] && relations'[n] == relations[k]
  {
    assert relations == relations[..n] + relations[n..k] + [relations[k]] + relations[k + 1..];
    relations' := relations[..n] + [relations[k]] + relations[n..k] + relations[k + 1..];
  }

  lemma AheadListedFirst(relations: seq<Relation>, start: Id, p: seq<Id>)
    requires LevelPath(AdjacencyOf(relations), start, p) && PathAhead(relations, p, |p| - 1)
    ensures ListedFirst(AdjacencyOf(relations), p)
  {
    LevelPathNoDup(AdjacencyOf(relations), start, p);
    forall i | 0 <= i < |p| - 1
      ensures Next(AdjacencyOf(relations), p[i]) != [] && Next(AdjacencyOf(relations), p[i])[0] == p[i + 1]
    {
      forall j | 0 <= j < i
        ensures relations[j].parentId != Some(p[i])
      {
        assert IsEdge(relations[j], p[j], p[j + 1]);
      }
      FirstRelation(relations, i, p[i], p[i + 1]);
    }
  }

  lemma LevelPathSame(g: Graph, h: Graph, start: Id, p: seq<Id>)
    requires SameEdges(g, h) && LevelPath(g, start, p)
    ensures LevelPath(h, start, p)
  {
    SameLevels(g, h, start);
  }

  lemma Misleading(relations: seq<Relation>, start: Id, u: Id, v: Id, d: nat, e: nat) returns (listed: seq<Relation>)
    requires var g := AdjacencyOf(relations);
             v in Next(g, u) && IsDist(g, start, u, d) && IsDist(g, start, v, e) && e != d + 1
    ensures multiset(listed) == multiset(relations)
    ensures !ParentsFirst(AdjacencyOf(listed), SentOrder(AdjacencyOf(listed), start))
  {
    var g := AdjacencyOf(relations);
    var p := LevelPathTo(g, start, v, e);
    listed := PullAhead(relations, start, p, e);
    SameRelations(relations, listed);
    LevelPathSame(g, AdjacencyOf(listed), start, p);
    AheadListedFirst(listed, start, p);
    LedAstray(g, AdjacencyOf(listed), start, p, u, v, d, e);
  }

  /** The same of the relations from which the lists are built: in whatever order the database yields
      them, all parents are sent before all their children, exactly when every edge leads a level deeper. */
  lemma ParentsFirstHoweverListed(relations: seq<Relation>, start: Id)
    ensures (forall listed :: multiset(listed) == multiset(relations) ==>
                                ParentsFirst(AdjacencyOf(listed), SentOrder(AdjacencyOf(listed), start)))
       <==> Layered(AdjacencyOf(relations), start)
  {
    var g := AdjacencyOf(relations);
    if Layered(g, start) {
      forall listed | multiset(listed) == multiset(relations)
        ensures ParentsFirst(AdjacencyOf(listed), SentOrder(AdjacencyOf(listed), start))
      {
        SameRelations(relations, listed);
        LayeredSentInOrder(g, AdjacencyOf(listed), start);
      }
    } else {
      var u, v, d: nat, e: nat :|
        v in Next(g, u) && IsDist(g, start, u, d) && IsDist(g, start, v, e) && e != d + 1;
      var listed := Misleading(relations, start, u, v, d, e);
    }
  }

  const LUCKY: Graph := map["s" := ["u", "v"], "u" := ["v"]]

  lemma LuckyOrder()
    ensures SentOrder(LUCKY, "s") == ["s", "u", "v"]
  {
    var g, seen := LUCKY, {"s", "u", "v"};
    assert Fresh(["u", "v"], {"s"}) == ["u", "v"] by {
      assert ["u", "v"][1..] == ["v"] && ["v"][1..] == [];
      assert Fresh(["v"], {"s", "u"}) == ["v"] + Fresh([], {"s", "u", "v"});
    }
    assert Fresh(["v"], seen) == [] by {
      assert ["v"][1..] == [];
    }
    assert Elems(["u", "v"]) == {"u", "v"} && Elems([]) == {};
    assert {"s"} + {"u", "v"} == seen && seen + {} == seen;
    assert Discover(g, ["s"], {"s"}) == ["u", "v"] + Discover(g, ["u", "v"], seen) by {
      assert ["s"][1..] + ["u", "v"] == ["u", "v"];
    }
    assert Discover(g, ["u", "v"], seen) == [] + Discover(g, ["v"], seen) by {
      assert ["u", "v"][1..] + [] == ["v"];
    }
    assert Discover(g, ["v"], seen) == [] + Discover(g, [], seen) by {
      assert ["v"][1..] + [] == [];
    }
  }

  /** A single listing may do although the condition fails: here `u` is sent before its child `v`, which
      is on its own level, because the start lists it first. */
  lemma OneListingMayDo()
    ensures ParentsFirst(LUCKY, SentOrder(LUCKY, "s")) && !Layered(LUCKY, "s")
  {
    LuckyOrder();
    assert PathBetween(LUCKY, ["s", "u"], "s", "u") && PathBetween(LUCKY, ["s", "v"], "s", "v");
    forall p, x | x in {"u", "v"} && PathBetween(LUCKY, p, "s", x)
      ensures |p| >= 2
    {
    }
    assert HasPath(LUCKY, "s", "u", 1) && HasPath(LUCKY, "s", "v", 1);
    assert IsDist(LUCKY, "s", "u", 1) && IsDist(LUCKY, "s", "v", 1) && "v" in Next(LUCKY, "u");
  }

  const SHORTCUT: Graph := map["s" := ["a", "c"], "a" := ["b"], "b" := ["c"]]

  lemma ShortcutDistances()
    ensures IsDist(SHORTCUT, "s", "c", 1) && IsDist(SHORTCUT, "s", "b", 2)
  {
    var g := SHORTCUT;
    assert PathBetween(g, ["s", "c"], "s", "c");
    assert PathBetween(g, ["s", "a", "b"], "s", "b");
    forall v, p | v in {"b", "c"} && PathBetween(g, p, "s", v) && |p| <= 2
      ensures v == "c" && |p| == 2
    {
      assert |p| == 2 ==> p[0 + 1] in Next(g, p[0]);
    }
  }

  /** "Parents before children" fails where a task is also a direct child of an earlier one: here
      `b` is a parent of `c` and is always sent after it. */
  lemma ParentAfterChild(order: seq<Id>)
    requires BfsOrder(SHORTCUT, "s", order)
    ensures exists i, j :: 0 <= j < i < |order| && order[i] == "b" && order[j] == "c"
    ensures "c" in Next(SHORTCUT, "b")
  {
    ShortcutDistances();
    var pc :| PathBetween(SHORTCUT, pc, "s", "c") && |pc| == 2;
    var pb :| PathBetween(SHORTCUT, pb, "s", "b") && |pb| == 3;
    assert "b" in order && "c" in order;
    var i :| 0 <= i < |order| && order[i] == "b";
    var j :| 0 <= j < |order| && order[j] == "c";
    ParentPosition(SHORTCUT, "s", order, i, j, 2, 1);
  }
}
