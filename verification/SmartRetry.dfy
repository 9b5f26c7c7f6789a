/** Retrying a failed task and its descendants: the breadth-first order in which they are re-sent. */
module SmartRetry {
  import opened Common
  import opened Digraph
  import opened TaskStore
  import opened RelationEdges

  /******* Distances *******/

  ghost predicate HasPath(g: Graph, u: Id, v: Id, n: nat) {
    exists p :: PathBetween(g, p, u, v) && |p| == n + 1
  }

  ghost predicate IsDist(g: Graph, u: Id, v: Id, d: nat) {
    HasPath(g, u, v, d) && forall n: nat :: n < d ==> !HasPath(g, u, v, n)
  }

  lemma HasPathStep(g: Graph, u: Id, v: Id, w: Id, n: nat)
    requires HasPath(g, u, v, n) && w in Next(g, v)
    ensures HasPath(g, u, w, n + 1)
  {
    var p :| PathBetween(g, p, u, v) && |p| == n + 1;
    assert PathBetween(g, p + [w], u, w);
  }

  /******* What the order promises *******/

  ghost predicate ByDistance(g: Graph, start: Id, order: seq<Id>) {
    forall i, j, d: nat, e: nat ::
      0 <= i <= j < |order| && IsDist(g, start, order[i], d) && IsDist(g, start, order[j], e) ==> d <= e
  }

  ghost predicate HasParentIn(g: Graph, nodes: seq<Id>, v: Id) {
    exists u :: u in nodes && v in Next(g, u)
  }

  ghost predicate AfterSomeParent(g: Graph, order: seq<Id>) {
    forall i :: 0 < i < |order| ==> HasParentIn(g, order[..i], order[i])
  }

  /** Exactly the reachable nodes, each once, the start first, nearer nodes before farther ones, and
      each other node after one of its parents. */
  ghost predicate BfsOrder(g: Graph, start: Id, order: seq<Id>) {
    && NoDup(order)
    && (forall v :: v in order <==> Reach(g, start, v))
    && order != [] && order[0] == start
    && ByDistance(g, start, order)
    && AfterSomeParent(g, order)
  }

  /******* The search *******/

  // `levels` are the distances of the visited nodes, `pending` those promised for the queue.
  ghost predicate Ascending(s: seq<nat>) {
    forall i, j :: 0 <= i <= j < |s| ==> s[i] <= s[j]
  }

  ghost predicate LevelsOk(levels: seq<nat>, pending: seq<nat>) {
    && Ascending(levels + pending)
    && (forall j :: 0 <= j < |pending| ==> pending[j] <= if levels == [] then 0 else Last(levels) + 1)
  }

  ghost predicate DistancesOk(g: Graph, start: Id, order: seq<Id>, levels: seq<nat>) {
    && |levels| == |order|
    && forall i :: 0 <= i < |order| ==> IsDist(g, start, order[i], levels[i])
  }

  ghost predicate OrderOk(g: Graph, start: Id, order: seq<Id>, queue: seq<Id>) {
    && NoDup(order)
    && (if order == [] then queue == [start] else order[0] == start)
    && AfterSomeParent(g, order)
    && (order != [] ==> forall v :: v in queue ==> HasParentIn(g, order, v))
  }

  ghost predicate QueuedOk(g: Graph, start: Id, queue: seq<Id>, pending: seq<nat>) {
    && |pending| == |queue|
    && forall k :: 0 <= k < |queue| ==> HasPath(g, start, queue[k], pending[k])
  }

  ghost predicate QueuedBy(v: Id, queue: seq<Id>, pending: seq<nat>, d: nat)
    requires |pending| == |queue|
  {
    exists k :: 0 <= k < |queue| && queue[k] == v && pending[k] <= d
  }

  ghost predicate Handled(g: Graph, u: Id, d: nat, order: seq<Id>, queue: seq<Id>, pending: seq<nat>)
    requires |pending| == |queue|
  {
    forall v :: v in Next(g, u) ==> v in order || QueuedBy(v, queue, pending, d + 1)
  }

  ghost predicate ExpandedOk(g: Graph, order: seq<Id>, levels: seq<nat>, queue: seq<Id>, pending: seq<nat>)
    requires |levels| == |order| && |pending| == |queue|
  {
    forall i :: 0 <= i < |order| ==> Handled(g, order[i], levels[i], order, queue, pending)
  }

  ghost predicate SearchOk(g: Graph, start: Id, order: seq<Id>, levels: seq<nat>, queue: seq<Id>, pending: seq<nat>) {
    && DistancesOk(g, start, order, levels)
    && OrderOk(g, start, order, queue)
    && QueuedOk(g, start, queue, pending)
    && LevelsOk(levels, pending)
    && ExpandedOk(g, order, levels, queue, pending)
  }

  lemma FirstExit(p: seq<Id>, visited: seq<Id>) returns (i: nat)
    requires p != [] && p[0] in visited && Last(p) !in visited
    ensures i + 1 < |p| && p[i] in visited && p[i + 1] !in visited
  {
    i := 0;
    while p[i + 1] in visited
      invariant 0 <= i < |p| - 1 && p[i] in visited
      decreases |p| - i
    {
      i := i + 1;
    }
  }

  /** A path to an unvisited node is no shorter than the level of the queue's head: it leaves the
      visited nodes through a node that is still queued. */
  lemma NoShortcut(g: Graph, start: Id, order: seq<Id>, levels: seq<nat>, queue: seq<Id>, pending: seq<nat>, p: seq<Id>)
    requires DistancesOk(g, start, order, levels) && |pending| == |queue| && queue != [] && Ascending(pending)
    requires ExpandedOk(g, order, levels, queue, pending)
    requires start in order && IsPath(g, p) && p[0] == start && Last(p) !in order
    ensures pending[0] < |p|
  {
    var i := FirstExit(p, order);
    var j :| 0 <= j < |order| && order[j] == p[i];
    assert IsDist(g, start, order[j], levels[j]);
    var q := p[..i + 1];
    assert PathBetween(g, q, start, p[i]);
    assert HasPath(g, start, p[i], i);
    assert Handled(g, order[j], levels[j], order, queue, pending);
    assert p[i + 1] in Next(g, p[i]);
    assert QueuedBy(p[i + 1], queue, pending, levels[j] + 1);
  }

  lemma HeadHasDistance(g: Graph, start: Id, order: seq<Id>, levels: seq<nat>, queue: seq<Id>, pending: seq<nat>)
    requires SearchOk(g, start, order, levels, queue, pending) && queue != [] && queue[0] !in order
    ensures IsDist(g, start, queue[0], pending[0])
  {
    assert HasPath(g, start, queue[0], pending[0]);
    assert Ascending(pending) by {
      assert forall j :: 0 <= j < |pending| ==> pending[j] == (levels + pending)[|levels| + j];
    }
    forall n: nat | n < pending[0]
      ensures !HasPath(g, start, queue[0], n)
    {
      if HasPath(g, start, queue[0], n) {
        var p :| PathBetween(g, p, start, queue[0]) && |p| == n + 1;
        NoShortcut(g, start, order, levels, queue, pending, p);
      }
    }
  }

  /******* One turn of the loop: the head was visited before *******/

  lemma StillHandled(g: Graph, u: Id, d: nat, order: seq<Id>, queue: seq<Id>, pending: seq<nat>)
    requires |pending| == |queue| > 0 && queue[0] in order && Handled(g, u, d, order, queue, pending)
    ensures Handled(g, u, d, order, queue[1..], pending[1..])
  {
  }

  lemma AscendingWithout(a: seq<nat>, b: seq<nat>)
    requires b != [] && Ascending(a + b)
    ensures Ascending(a + b[1..])
  {
    var s, t := a + b, a + b[1..];
    forall i, j | 0 <= i <= j < |t|
      ensures t[i] <= t[j]
    {
      assert t[i] == if i < |a| then s[i] else s[i + 1];
      assert t[j] == if j < |a| then s[j] else s[j + 1];
    }
  }

  lemma DropVisited(g: Graph, start: Id, order: seq<Id>, levels: seq<nat>, queue: seq<Id>, pending: seq<nat>)
    requires SearchOk(g, start, order, levels, queue, pending) && queue != [] && queue[0] in order
    ensures SearchOk(g, start, order, levels, queue[1..], pending[1..])
  {
    AscendingWithout(levels, pending);
    forall i | 0 <= i < |order|
      ensures Handled(g, order[i], levels[i], order, queue[1..], pending[1..])
    {
      StillHandled(g, order[i], levels[i], order, queue, pending);
    }
  }

  /******* One turn of the loop: the head is visited now *******/

  function Unvisited(children: seq<Id>, visited: set<Id>): seq<Id> {
    if children == [] then []
    else Unvisited(Init(children), visited) + if Last(children) in visited then [] else [Last(children)]
  }

  lemma {:induction false} UnvisitedExact(children: seq<Id>, visited: set<Id>)
    ensures forall v :: v in Unvisited(children, visited) <==> v in children && v !in visited
  {
    if children != [] {
      UnvisitedExact(Init(children), visited);
      assert forall v :: v in children <==> v in Init(children) || v == Last(children);
    }
  }

  lemma NewlyQueued(g: Graph, order: seq<Id>, head: Id)
    ensures forall v :: v in Unvisited(Next(g, head), Elems(order) + {head}) <==>
                        v in Next(g, head) && v !in order && v != head
  {
    UnvisitedExact(Next(g, head), Elems(order) + {head});
  }

  function Repeat(d: nat, n: nat): seq<nat> {
    seq(n, i => d)
  }

  lemma VisitOrder(g: Graph, start: Id, order: seq<Id>, queue: seq<Id>, added: seq<Id>)
    requires OrderOk(g, start, order, queue) && queue != [] && queue[0] !in order
    requires forall v :: v in added ==> v in Next(g, queue[0])
    ensures OrderOk(g, start, order + [queue[0]], queue[1..] + added)
  {
    var order' := order + [queue[0]];
    forall i | 0 < i < |order'|
      ensures HasParentIn(g, order'[..i], order'[i])
    {
      assert order'[..i] == order[..i];
      if i < |order| {
        assert HasParentIn(g, order[..i], order[i]);
      } else {
        assert order[..i] == order && queue[0] in queue;
      }
    }
    forall v | v in queue[1..] + added
      ensures HasParentIn(g, order', v)
    {
      if v in added {
        assert queue[0] in order';
      } else {
        assert v in queue && HasParentIn(g, order, v);
        var u :| u in order && v in Next(g, u);
        assert u in order';
      }
    }
  }

  lemma VisitLevels(levels: seq<nat>, pending: seq<nat>, n: nat)
    requires LevelsOk(levels, pending) && pending != []
    ensures LevelsOk(levels + [pending[0]], pending[1..] + Repeat(pending[0] + 1, n))
  {
    var s := levels + pending;
    assert forall j :: 0 <= j < |pending| ==> pending[j] == s[|levels| + j];
    assert forall j :: 0 <= j < |levels| ==> levels[j] == s[j];
    var t := (levels + [pending[0]]) + (pending[1..] + Repeat(pending[0] + 1, n));
    assert t == s + Repeat(pending[0] + 1, n);
    assert forall j :: 0 <= j < |s| ==> s[j] <= pending[0] + 1;
  }

  lemma VisitQueue(g: Graph, start: Id, queue: seq<Id>, pending: seq<nat>, added: seq<Id>)
    requires QueuedOk(g, start, queue, pending) && queue != []
    requires forall v :: v in added ==> v in Next(g, queue[0])
    ensures QueuedOk(g, start, queue[1..] + added, pending[1..] + Repeat(pending[0] + 1, |added|))
  {
    var queue', pending' := queue[1..] + added, pending[1..] + Repeat(pending[0] + 1, |added|);
    forall k | 0 <= k < |queue'|
      ensures HasPath(g, start, queue'[k], pending'[k])
    {
      if k < |queue| - 1 {
        assert queue'[k] == queue[k + 1] && pending'[k] == pending[k + 1];
      } else {
        assert queue'[k] in added;
        HasPathStep(g, start, queue[0], queue'[k], pending[0]);
      }
    }
  }

  lemma HandledAfterVisit(g: Graph, u: Id, d: nat, order: seq<Id>, queue: seq<Id>, pending: seq<nat>,
                          added: seq<Id>, more: seq<nat>)
    requires |pending| == |queue| > 0 && |added| == |more| && Handled(g, u, d, order, queue, pending)
    ensures Handled(g, u, d, order + [queue[0]], queue[1..] + added, pending[1..] + more)
  {
    forall v | v in Next(g, u) && v !in order + [queue[0]]
      ensures QueuedBy(v, queue[1..] + added, pending[1..] + more, d + 1)
    {
      assert QueuedBy(v, queue, pending, d + 1);
      var k :| 0 <= k < |queue| && queue[k] == v && pending[k] <= d + 1;
      assert (queue[1..] + added)[k - 1] == v && (pending[1..] + more)[k - 1] == pending[k];
    }
  }

  lemma HeadHandled(g: Graph, d: nat, order: seq<Id>, queue: seq<Id>, pending: seq<nat>, added: seq<Id>)
    requires |pending| == |queue| > 0
    requires forall v :: v in added <==> v in Next(g, queue[0]) && v !in order && v != queue[0]
    ensures Handled(g, queue[0], d, order + [queue[0]], queue[1..] + added, pending[1..] + Repeat(d + 1, |added|))
  {
    var queue', pending' := queue[1..] + added, pending[1..] + Repeat(d + 1, |added|);
    forall v | v in Next(g, queue[0]) && v !in order + [queue[0]]
      ensures QueuedBy(v, queue', pending', d + 1)
    {
      var k :| 0 <= k < |added| && added[k] == v;
      assert queue'[|queue| - 1 + k] == v && pending'[|queue| - 1 + k] == d + 1;
    }
  }

  lemma VisitExpanded(g: Graph, order: seq<Id>, levels: seq<nat>, queue: seq<Id>, pending: seq<nat>, added: seq<Id>)
    requires |levels| == |order| && |pending| == |queue| > 0 && ExpandedOk(g, order, levels, queue, pending)
    requires forall v :: v in added <==> v in Next(g, queue[0]) && v !in order && v != queue[0]
    ensures ExpandedOk(g, order + [queue[0]], levels + [pending[0]],
                       queue[1..] + added, pending[1..] + Repeat(pending[0] + 1, |added|))
  {
    var order', levels', more := order + [queue[0]], levels + [pending[0]], Repeat(pending[0] + 1, |added|);
    HeadHandled(g, pending[0], order, queue, pending, added);
    forall i | 0 <= i < |order'|
      ensures Handled(g, order'[i], levels'[i], order', queue[1..] + added, pending[1..] + more)
    {
      if i < |order| {
        HandledAfterVisit(g, order[i], levels[i], order, queue, pending, added, more);
      }
    }
  }

  lemma VisitHead(g: Graph, start: Id, order: seq<Id>, levels: seq<nat>, queue: seq<Id>, pending: seq<nat>)
    requires SearchOk(g, start, order, levels, queue, pending) && queue != [] && queue[0] !in order
    ensures var added := Unvisited(Next(g, queue[0]), Elems(order) + {queue[0]});
            SearchOk(g, start, order + [queue[0]], levels + [pending[0]],
                     queue[1..] + added, pending[1..] + Repeat(pending[0] + 1, |added|))
  {
    var added := Unvisited(Next(g, queue[0]), Elems(order) + {queue[0]});
    NewlyQueued(g, order, queue[0]);
    VisitAdded(g, start, order, levels, queue, pending, added);
  }

  lemma VisitAdded(g: Graph, start: Id, order: seq<Id>, levels: seq<nat>, queue: seq<Id>, pending: seq<nat>,
                   added: seq<Id>)
    requires SearchOk(g, start, order, levels, queue, pending) && queue != [] && queue[0] !in order
    requires forall v :: v in added <==> v in Next(g, queue[0]) && v !in order && v != queue[0]
    ensures SearchOk(g, start, order + [queue[0]], levels + [pending[0]],
                     queue[1..] + added, pending[1..] + Repeat(pending[0] + 1, |added|))
  {
    HeadHasDistance(g, start, order, levels, queue, pending);
    VisitOrder(g, start, order, queue, added);
    VisitLevels(levels, pending, |added|);
    VisitQueue(g, start, queue, pending, added);
    VisitExpanded(g, order, levels, queue, pending, added);
  }

  lemma LevelsSortOrder(g: Graph, start: Id, order: seq<Id>, levels: seq<nat>)
    requires DistancesOk(g, start, order, levels) && Ascending(levels)
    ensures ByDistance(g, start, order)
  {
  }

  lemma OrderReaches(g: Graph, start: Id, order: seq<Id>, levels: seq<nat>, v: Id)
    requires DistancesOk(g, start, order, levels) && ExpandedOk(g, order, levels, [], []) && start in order
    ensures v in order <==> Reach(g, start, v)
  {
    if v in order {
      var i :| 0 <= i < |order| && order[i] == v;
      assert HasPath(g, start, v, levels[i]);
    } else if Reach(g, start, v) {
      forall u, w | u in Elems(order) && w in Next(g, u)
        ensures w in Elems(order)
      {
        var i :| 0 <= i < |order| && order[i] == u;
        assert Handled(g, order[i], levels[i], order, [], []);
      }
      ClosedContainsReach(g, Elems(order), start, v);
    }
  }

  lemma SearchDone(g: Graph, start: Id, order: seq<Id>, levels: seq<nat>)
    requires SearchOk(g, start, order, levels, [], [])
    ensures BfsOrder(g, start, order)
  {
    assert levels + [] == levels;
    LevelsSortOrder(g, start, order, levels);
    forall v
      ensures v in order <==> Reach(g, start, v)
    {
      OrderReaches(g, start, order, levels, v);
    }
  }

  /******* Marking nodes when they are queued instead *******/

  lemma {:induction false} FreshConcat(a: seq<Id>, b: seq<Id>, seen: set<Id>)
    ensures Fresh(a + b, seen) == Fresh(a, seen) + Fresh(b, seen + Elems(a))
  {
    if a == [] {
      assert a + b == b && seen + Elems(a) == seen;
    } else {
      assert (a + b)[1..] == a[1..] + b;
      assert Elems(a) == {a[0]} + Elems(a[1..]);
      assert seen + {a[0]} + Elems(a[1..]) == seen + Elems(a);
      FreshConcat(a[1..], b, seen + {a[0]});
      if a[0] in seen {
        assert seen + {a[0]} == seen;
      }
    }
  }

  lemma {:induction false} FreshOfUnvisited(children: seq<Id>, visited: set<Id>, seen: set<Id>)
    requires visited <= seen
    ensures Fresh(Unvisited(children, visited), seen) == Fresh(children, seen)
    ensures seen + Elems(Unvisited(children, visited)) == seen + Elems(children)
  {
    if children != [] {
      var init, last := Init(children), Last(children);
      FreshOfUnvisited(init, visited, seen);
      assert children == init + [last];
      ElemsConcat(init, [last]);
      FreshConcat(init, [last], seen);
      if last !in visited {
        FreshConcat(Unvisited(init, visited), [last], seen);
        ElemsConcat(Unvisited(init, visited), [last]);
      } else {
        assert Unvisited(children, visited) == Unvisited(init, visited);
        assert Fresh([last], seen + Elems(init)) == [];
      }
    }
  }

  /** What the search has found and will find, told as a discovery that marks nodes when queueing
      them: queued twice or visited since, a node counts once. */
  function Outlook(g: Graph, order: seq<Id>, queue: seq<Id>): seq<Id> {
    var waiting := Fresh(queue, Elems(order));
    order + waiting + Discover(g, waiting, Elems(order) + Elems(queue))
  }

  lemma OutlookAfterDrop(g: Graph, order: seq<Id>, queue: seq<Id>)
    requires queue != [] && queue[0] in order
    ensures Outlook(g, order, queue[1..]) == Outlook(g, order, queue)
  {
    assert queue == [queue[0]] + queue[1..];
    ElemsConcat([queue[0]], queue[1..]);
    assert Elems(order) + Elems(queue[1..]) == Elems(order) + Elems(queue);
  }

  lemma WaitingAfterVisit(g: Graph, order: seq<Id>, queue: seq<Id>)
    requires queue != [] && queue[0] !in order
    ensures var head, visited := queue[0], Elems(order) + {queue[0]};
            var added := Unvisited(Next(g, head), visited);
            && Fresh(queue, Elems(order)) == [head] + Fresh(queue[1..], visited)
            && Fresh(queue[1..] + added, visited)
               == Fresh(queue[1..], visited) + Fresh(Next(g, head), Elems(order) + Elems(queue))
  {
    var head, visited := queue[0], Elems(order) + {queue[0]};
    var added := Unvisited(Next(g, head), visited);
    assert queue == [head] + queue[1..];
    ElemsConcat([head], queue[1..]);
    assert visited + Elems(queue[1..]) == Elems(order) + Elems(queue);
    FreshConcat(queue[1..], added, visited);
    FreshOfUnvisited(Next(g, head), visited, Elems(order) + Elems(queue));
  }

  lemma SeenAfterVisit(g: Graph, order: seq<Id>, queue: seq<Id>)
    requires queue != [] && queue[0] !in order
    ensures var head, seen := queue[0], Elems(order) + Elems(queue);
            var added := Unvisited(Next(g, head), Elems(order) + {head});
            Elems(order + [head]) + Elems(queue[1..] + added) == seen + Elems(Fresh(Next(g, head), seen))
  {
    var head, seen := queue[0], Elems(order) + Elems(queue);
    var added := Unvisited(Next(g, head), Elems(order) + {head});
    assert queue == [head] + queue[1..];
    ElemsConcat([head], queue[1..]);
    ElemsConcat(order, [head]);
    ElemsConcat(queue[1..], added);
    ElemsOne(head);
    FreshOfUnvisited(Next(g, head), Elems(order) + {head}, seen);
    FreshExact(Next(g, head), seen);
  }

  lemma OneTurn(g: Graph, order: seq<Id>, head: Id, waiting: seq<Id>, seen: set<Id>)
    ensures var unseen := Fresh(Next(g, head), seen);
            (order + [head]) + (waiting + unseen) + Discover(g, waiting + unseen, seen + Elems(unseen))
            == order + ([head] + waiting) + Discover(g, [head] + waiting, seen)
  {
    var unseen := Fresh(Next(g, head), seen);
    DiscoverStep(g, order + ([head] + waiting), [head] + waiting, seen);
    assert ([head] + waiting)[1..] == waiting;
    assert order + ([head] + waiting) + unseen == (order + [head]) + (waiting + unseen);
  }

  lemma OutlookAfterVisit(g: Graph, order: seq<Id>, queue: seq<Id>)
    requires queue != [] && queue[0] !in order
    ensures Outlook(g, order + [queue[0]], queue[1..] + Unvisited(Next(g, queue[0]), Elems(order) + {queue[0]}))
         == Outlook(g, order, queue)
  {
    var head := queue[0];
    WaitingAfterVisit(g, order, queue);
    SeenAfterVisit(g, order, queue);
    ElemsConcat(order, [head]);
    ElemsOne(head);
    OneTurn(g, order, head, Fresh(queue[1..], Elems(order) + {head}), Elems(order) + Elems(queue));
  }

  lemma OutlookAtEnds(g: Graph, start: Id, order: seq<Id>)
    ensures Outlook(g, [], [start]) == [start] + Descendants(g, start)
    ensures Outlook(g, order, []) == order
  {
    assert Elems([]) == {} && {} + Elems([start]) == {start};
    assert [start][1..] == [];
    assert Fresh([start], {}) == [start];
  }

  ghost predicate Underway(g: Graph, start: Id, order: seq<Id>, levels: seq<nat>, queue: seq<Id>, pending: seq<nat>) {
    && SearchOk(g, start, order, levels, queue, pending)
    && Outlook(g, order, queue) == [start] + Descendants(g, start)
  }

  lemma StartUnderway(g: Graph, start: Id)
    ensures Underway(g, start, [], [], [start], [0])
  {
    assert PathBetween(g, [start], start, start);
    OutlookAtEnds(g, start, []);
  }

  lemma DropUnderway(g: Graph, start: Id, order: seq<Id>, levels: seq<nat>, queue: seq<Id>, pending: seq<nat>)
    requires Underway(g, start, order, levels, queue, pending) && queue != [] && queue[0] in order
    ensures Underway(g, start, order, levels, queue[1..], pending[1..])
  {
    DropVisited(g, start, order, levels, queue, pending);
    OutlookAfterDrop(g, order, queue);
  }

  lemma VisitUnderway(g: Graph, start: Id, order: seq<Id>, levels: seq<nat>, queue: seq<Id>, pending: seq<nat>)
    requires Underway(g, start, order, levels, queue, pending) && queue != [] && queue[0] !in order
    ensures var added := Unvisited(Next(g, queue[0]), Elems(order) + {queue[0]});
            Underway(g, start, order + [queue[0]], levels + [pending[0]],
                     queue[1..] + added, pending[1..] + Repeat(pending[0] + 1, |added|))
  {
    VisitHead(g, start, order, levels, queue, pending);
    OutlookAfterVisit(g, order, queue);
  }

  lemma UnderwayDone(g: Graph, start: Id, order: seq<Id>, levels: seq<nat>)
    requires Underway(g, start, order, levels, [], [])
    ensures order == [start] + Descendants(g, start) && BfsOrder(g, start, order)
  {
    SearchDone(g, start, order, levels);
    OutlookAtEnds(g, start, order);
  }

  lemma UnvisitedInTargets(g: Graph, u: Id, visited: set<Id>)
    ensures Elems(Unvisited(Next(g, u), visited)) <= Targets(g)
  {
    UnvisitedExact(Next(g, u), visited);
  }

  lemma QueueStaysKnown(g: Graph, start: Id, order: seq<Id>, queue: seq<Id>, visited: set<Id>)
    requires queue != [] && Elems(queue) <= Targets(g) + {start}
    ensures queue[0] in Targets(g) + {start} && Elems(queue[1..]) <= Targets(g) + {start}
    ensures Elems(queue[1..] + Unvisited(Next(g, queue[0]), visited)) <= Targets(g) + {start}
    ensures Elems(order + [queue[0]]) == Elems(order) + {queue[0]}
  {
    assert queue == [queue[0]] + queue[1..];
    ElemsConcat([queue[0]], queue[1..]);
    ElemsConcat(queue[1..], Unvisited(Next(g, queue[0]), visited));
    ElemsConcat(order, [queue[0]]);
    ElemsOne(queue[0]);
    UnvisitedInTargets(g, queue[0], visited);
  }

  /** The order of that search is a breadth-first one. */
  lemma DescendantsByDistance(g: Graph, start: Id)
    ensures BfsOrder(g, start, [start] + Descendants(g, start))
  {
    var order: seq<Id>, levels: seq<nat>, queue, pending: seq<nat> := [], [], [start], [0];
    StartUnderway(g, start);
    ElemsOne(start);
    while queue != []
      invariant Elems(queue) <= Targets(g) + {start}
      invariant Underway(g, start, order, levels, queue, pending)
      decreases Targets(g) + {start} - Elems(order), |queue|
    {
      QueueStaysKnown(g, start, order, queue, Elems(order) + {queue[0]});
      if queue[0] in order {
        DropUnderway(g, start, order, levels, queue, pending);
        queue, pending := queue[1..], pending[1..];
      } else {
        VisitUnderway(g, start, order, levels, queue, pending);
        var added := Unvisited(Next(g, queue[0]), Elems(order) + {queue[0]});
        order, levels := order + [queue[0]], levels + [pending[0]];
        queue, pending := queue[1..] + added, pending[1..] + Repeat(pending[0] + 1, |added|);
      }
    }
    UnderwayDone(g, start, order, levels);
  }

  /** The search visits a node when it leaves the queue, so it may queue one several times; the order is
      still that of the search that queues each node once, and a breadth-first one. */
  method DescendantsBfs(start: Id, adjacency: Graph) returns (order: seq<Id>)
    ensures order == [start] + Descendants(adjacency, start)
    ensures BfsOrder(adjacency, start, order)
  {
    var visited: set<Id> := {};
    var queue := [start];
    order := [];
    OutlookAtEnds(adjacency, start, []);
    ElemsOne(start);
    while queue != []
      invariant visited == Elems(order) && Elems(queue) <= Targets(adjacency) + {start}
      invariant Outlook(adjacency, order, queue) == [start] + Descendants(adjacency, start)
      decreases Targets(adjacency) + {start} - visited, |queue|
    {
      var node := queue[0];
      QueueStaysKnown(adjacency, start, order, queue, visited + {node});
      if node in visited {
        OutlookAfterDrop(adjacency, order, queue);
        queue := queue[1..];
        continue;
      }
      OutlookAfterVisit(adjacency, order, queue);
      visited := visited + {node};
      order := order + [node];
      queue := AppendUnvisited(queue[1..], Next(adjacency, node), visited);
    }
    OutlookAtEnds(adjacency, start, order);
    DescendantsByDistance(adjacency, start);
  }

  method AppendUnvisited(queue0: seq<Id>, children: seq<Id>, visited: set<Id>) returns (queue: seq<Id>)
    ensures queue == queue0 + Unvisited(children, visited)
  {
    queue := queue0;
    for i := 0 to |children|
      invariant queue == queue0 + Unvisited(children[..i], visited)
    {
      assert Init(children[..i + 1]) == children[..i];
      if children[i] !in visited {
        queue := queue + [children[i]];
      }
    }
    assert children[..|children|] == children;
  }

  /******* Re-sending the tasks *******/

  function AdjacencyOf(relations: seq<Relation>): Graph {
    if relations == [] then map[]
    else
      var g := AdjacencyOf(Init(relations));
      var last := Last(relations);
      if last.parentId.Some? then g[last.parentId.value := Next(g, last.parentId.value) + [last.childId]] else g
  }

  /** The adjacency lists hold exactly the relations that name a parent. */
  lemma {:induction false} AdjacencyExact(relations: seq<Relation>, u: Id, v: Id)
    ensures v in Next(AdjacencyOf(relations), u) <==>
            exists r :: r in relations && r.parentId == Some(u) && r.childId == v
  {
    if relations != [] {
      AdjacencyExact(Init(relations), u, v);
      assert forall r :: r in relations <==> r in Init(relations) || r == Last(relations);
    }
  }

  method BuildAdjacency(relations: seq<Relation>) returns (adjacency: Graph)
    ensures adjacency == AdjacencyOf(relations)
  {
    adjacency := map[];
    for i := 0 to |relations|
      invariant adjacency == AdjacencyOf(relations[..i])
    {
      var relation := relations[i];
      assert Init(relations[..i + 1]) == relations[..i];
      if relation.parentId.Some? {
        var parent := relation.parentId.value;
        adjacency := adjacency[parent := Next(adjacency, parent) + [relation.childId]];
      }
    }
    assert relations[..|relations|] == relations;
  }

  function RootOf(id: Id, task: Row): Id {
    if RootId in task.fields && task.fields[RootId] != "" then task.fields[RootId] else id
  }

  predicate Sendable(db: map<Id, Row>, id: Id) {
    id in db && Name in db[id].fields && Worker in db[id].fields
  }

  /** The part of an order that can be sent: known tasks with a name and a worker. */
  function SendableOf(db: map<Id, Row>, order: seq<Id>): seq<Id> {
    if order == [] then []
    else SendableOf(db, Init(order)) + if Sendable(db, Last(order)) then [Last(order)] else []
  }

  lemma {:induction false} SendableExact(db: map<Id, Row>, order: seq<Id>)
    ensures forall x :: x in SendableOf(db, order) <==> x in order && Sendable(db, x)
    ensures NoDup(order) ==> NoDup(SendableOf(db, order))
  {
    if order != [] {
      SendableExact(db, Init(order));
      assert forall x :: x in order <==> x in Init(order) || x == Last(order);
      if NoDup(order) {
        assert Last(order) !in Init(order);
      }
    }
  }

  /** Of two tasks that are sent, the one earlier in the order is sent earlier. */
  lemma {:induction false} SendableInOrder(db: map<Id, Row>, order: seq<Id>, i: nat, j: nat) returns (p: nat, q: nat)
    requires i < j < |order| && Sendable(db, order[i]) && Sendable(db, order[j])
    ensures p < q < |SendableOf(db, order)|
    ensures SendableOf(db, order)[p] == order[i] && SendableOf(db, order)[q] == order[j]
  {
    var sent := SendableOf(db, Init(order));
    if j == |order| - 1 {
      SendableExact(db, Init(order));
      assert Init(order)[i] in sent;
      p :| 0 <= p < |sent| && sent[p] == order[i];
      q := |sent|;
    } else {
      p, q := SendableInOrder(db, Init(order), i, j);
    }
  }

  datatype Outcome = NotFound | Sent(ids: seq<Id>)

  method SendInOrder(db: map<Id, Row>, order: seq<Id>) returns (sent: seq<Id>)
    ensures sent == SendableOf(db, order)
  {
    sent := [];
    for i := 0 to |order|
      invariant sent == SendableOf(db, order[..i])
    {
      assert Init(order[..i + 1]) == order[..i];
      if order[i] !in db || Name !in db[order[i]].fields || Worker !in db[order[i]].fields {
        continue;
      }
      sent := sent + [order[i]];
    }
    assert order[..|order|] == order;
  }

  /** A relation of the root makes one task the parent of another. */
  ghost predicate Related(relations: seq<Relation>, rootId: Id, parent: Id, child: Id) {
    exists r :: r in relations && r.rootId == rootId && r.parentId == Some(parent) && r.childId == child
  }

  ghost predicate IsChain(relations: seq<Relation>, rootId: Id, p: seq<Id>) {
    p != [] && forall i :: 0 <= i < |p| - 1 ==> Related(relations, rootId, p[i], p[i + 1])
  }

  ghost predicate LeadsTo(relations: seq<Relation>, rootId: Id, from: Id, to: Id) {
    exists p :: IsChain(relations, rootId, p) && p[0] == from && Last(p) == to
  }

  lemma ChainsArePaths(relations: seq<Relation>, rootId: Id, p: seq<Id>)
    ensures IsChain(relations, rootId, p) <==> IsPath(AdjacencyOf(WithRoot(relations, rootId)), p)
  {
    var g := AdjacencyOf(WithRoot(relations, rootId));
    WithRootExact(relations, rootId);
    forall u, v
      ensures v in Next(g, u) <==> Related(relations, rootId, u, v)
    {
      AdjacencyExact(WithRoot(relations, rootId), u, v);
    }
  }

  lemma LeadsToExactly(relations: seq<Relation>, rootId: Id, from: Id, to: Id)
    ensures LeadsTo(relations, rootId, from, to) <==> Reach(AdjacencyOf(WithRoot(relations, rootId)), from, to)
  {
    var g := AdjacencyOf(WithRoot(relations, rootId));
    if p :| IsChain(relations, rootId, p) && p[0] == from && Last(p) == to {
      ChainsArePaths(relations, rootId, p);
      assert PathBetween(g, p, from, to);
    }
    if p :| PathBetween(g, p, from, to) {
      ChainsArePaths(relations, rootId, p);
      assert IsChain(relations, rootId, p) && Last(p) == to;
    }
  }

  /** The tasks sent are those that the failed one leads to by the relations of its root, itself included,
      as far as they are known by name and worker; each once. */
  lemma SentExactly(db: map<Id, Row>, relations: seq<Relation>, failed: Id)
    requires failed in db
    ensures var fields := db[failed].fields;
            var rootId := if RootId in fields && fields[RootId] != "" then fields[RootId] else failed;
            var g := AdjacencyOf(WithRoot(relations, RootOf(failed, db[failed])));
            var sent := SendableOf(db, [failed] + Descendants(g, failed));
            && NoDup(sent)
            && forall x :: x in sent <==>
                 && LeadsTo(relations, rootId, failed, x)
                 && x in db && Name in db[x].fields && Worker in db[x].fields
  {
    var rootId := RootOf(failed, db[failed]);
    var g := AdjacencyOf(WithRoot(relations, rootId));
    var order := [failed] + Descendants(g, failed);
    DescendantsByDistance(g, failed);
    SendableExact(db, order);
    forall x
      ensures x in order <==> LeadsTo(relations, rootId, failed, x)
    {
      LeadsToExactly(relations, rootId, failed, x);
    }
  }

  method Retry(db: map<Id, Row>, relations: seq<Relation>, failedTaskId: Id) returns (outcome: Outcome)
    ensures outcome.NotFound? <==> failedTaskId !in db
    ensures outcome.Sent? ==>
              var g := AdjacencyOf(WithRoot(relations, RootOf(failedTaskId, db[failedTaskId])));
              var order := [failedTaskId] + Descendants(g, failedTaskId);
              BfsOrder(g, failedTaskId, order) && outcome.ids == SendableOf(db, order)
    ensures outcome.Sent? ==>
              var fields := db[failedTaskId].fields;
              var rootId := if RootId in fields && fields[RootId] != "" then fields[RootId] else failedTaskId;
              forall x :: x in outcome.ids <==>
                && LeadsTo(relations, rootId, failedTaskId, x)
                && x in db && Name in db[x].fields && Worker in db[x].fields
  {
    if failedTaskId !in db {
      return NotFound;
    }
    var adjacency := BuildAdjacency(WithRoot(relations, RootOf(failedTaskId, db[failedTaskId])));
    var order := DescendantsBfs(failedTaskId, adjacency);
    var sent := SendInOrder(db, order);
    outcome := Sent(sent);
    SentExactly(db, relations, failedTaskId);
  }
}
