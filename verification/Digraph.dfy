/** Directed graphs over string identifiers: paths, reachability, and the breadth-first
    discovery order that the program's queue-and-seen-set loops compute. */
module Digraph {
  import opened Common

  // Adjacency lists; a node without an entry has no successors.
  type Graph = map<Id, seq<Id>>

  function Next(g: Graph, u: Id): seq<Id> {
    if u in g then g[u] else []
  }

  /** All nodes that some edge leads to. */
  function Targets(g: Graph): set<Id> {
    set u, v | u in g && v in g[u] :: v
  }

  function Elems(s: seq<Id>): set<Id> {
    set x | x in s
  }

  lemma ElemsConcat(s: seq<Id>, t: seq<Id>)
    ensures Elems(s + t) == Elems(s) + Elems(t)
  {
  }

  lemma ElemsOne(x: Id)
    ensures Elems([x]) == {x}
  {
  }

  ghost predicate NoDup(s: seq<Id>) {
    forall i, j :: 0 <= i < j < |s| ==> s[i] != s[j]
  }

  /** Appending to an insertion-ordered set. */
  function AddUnique(s: seq<Id>, x: Id): seq<Id> {
    if x in s then s else s + [x]
  }

  /******* Paths and reachability *******/

  ghost predicate IsPath(g: Graph, p: seq<Id>) {
    && |p| > 0
    && forall i :: 0 <= i < |p| - 1 ==> p[i + 1] in Next(g, p[i])
  }

  ghost predicate PathBetween(g: Graph, p: seq<Id>, u: Id, v: Id) {
    IsPath(g, p) && p[0] == u && p[|p| - 1] == v
  }

  ghost predicate Reach(g: Graph, u: Id, v: Id) {
    exists p :: PathBetween(g, p, u, v)
  }

  lemma ReachSelf(g: Graph, u: Id)
    ensures Reach(g, u, u)
  {
    assert PathBetween(g, [u], u, u);
  }

  lemma ReachStep(g: Graph, u: Id, v: Id, w: Id)
    requires Reach(g, u, v) && w in Next(g, v)
    ensures Reach(g, u, w)
  {
    var p :| PathBetween(g, p, u, v);
    assert PathBetween(g, p + [w], u, w);
  }

  lemma ReachTrans(g: Graph, u: Id, v: Id, w: Id)
    requires Reach(g, u, v) && Reach(g, v, w)
    ensures Reach(g, u, w)
  {
    var p :| PathBetween(g, p, u, v);
    var q :| PathBetween(g, q, v, w);
    var pq := p + q[1..];
    forall i | 0 <= i < |pq| - 1
      ensures pq[i + 1] in Next(g, pq[i])
    {
      if i >= |p| - 1 {
        assert pq[i + 1] == q[i + 2 - |p|];
        assert pq[i] == q[i + 1 - |p|];
      }
    }
    assert PathBetween(g, pq, u, w);
  }

  ghost predicate ClosedUnder(g: Graph, S: set<Id>) {
    forall u, v :: u in S && v in Next(g, u) ==> v in S
  }

  /** A set closed under the edges contains everything reachable from its members. */
  lemma ClosedContainsReach(g: Graph, S: set<Id>, u: Id, v: Id)
    requires ClosedUnder(g, S) && u in S && Reach(g, u, v)
    ensures v in S
  {
    var p :| PathBetween(g, p, u, v);
    var i := 0;
    while i < |p| - 1
      invariant 0 <= i < |p|
      invariant p[i] in S
    {
      assert p[i + 1] in Next(g, p[i]);
      i := i + 1;
    }
  }

  /** A node reached from another node has an incoming edge from a reached node. */
  lemma LastStep(g: Graph, u: Id, v: Id) returns (w: Id)
    requires Reach(g, u, v) && u != v
    ensures Reach(g, u, w) && v in Next(g, w)
  {
    var p :| PathBetween(g, p, u, v);
    var q := p[..|p| - 1];
    w := q[|q| - 1];
    assert PathBetween(g, q, u, w);
    assert p[(|p| - 2) + 1] in Next(g, p[|p| - 2]);
  }

  /******* Breadth-first discovery *******/

  /** The members of `ns` that are not yet seen, each once, in order. */
  function Fresh(ns: seq<Id>, seen: set<Id>): seq<Id> {
    if ns == [] then []
    else if ns[0] in seen then Fresh(ns[1..], seen)
    else [ns[0]] + Fresh(ns[1..], seen + {ns[0]})
  }

  lemma {:induction false} FreshExact(ns: seq<Id>, seen: set<Id>)
    ensures Elems(Fresh(ns, seen)) == Elems(ns) - seen
    ensures NoDup(Fresh(ns, seen))
  {
    if ns != [] {
      assert Elems(ns) == {ns[0]} + Elems(ns[1..]);
      if ns[0] in seen {
        FreshExact(ns[1..], seen);
      } else {
        var rest := Fresh(ns[1..], seen + {ns[0]});
        FreshExact(ns[1..], seen + {ns[0]});
        assert ns[0] !in Elems(rest);
        assert Elems([ns[0]] + rest) == {ns[0]} + Elems(rest);
      }
    }
  }

  /** The nodes that a queue loop discovers, in discovery order: take the head, append its unseen
      successors to the queue, mark them seen, repeat until the queue is empty. */
  function Discover(g: Graph, queue: seq<Id>, seen: set<Id>): seq<Id>
    decreases Targets(g) - seen, |queue|
  {
    if queue == [] then []
    else
      var unseen := Fresh(Next(g, queue[0]), seen);
      FreshShrinks(g, queue[0], seen);
      unseen + Discover(g, queue[1..] + unseen, seen + Elems(unseen))
  }

  /** One turn of the queue loop: what was found so far followed by what is still to be discovered
      stays the same. */
  lemma DiscoverStep(g: Graph, found: seq<Id>, queue: seq<Id>, seen: set<Id>)
    requires queue != []
    ensures var unseen := Fresh(Next(g, queue[0]), seen);
            found + Discover(g, queue, seen)
            == (found + unseen) + Discover(g, queue[1..] + unseen, seen + Elems(unseen))
  {
  }

  lemma FreshShrinks(g: Graph, u: Id, seen: set<Id>)
    ensures var unseen := Fresh(Next(g, u), seen);
            unseen != [] ==> Targets(g) - (seen + Elems(unseen)) < Targets(g) - seen
    ensures Fresh(Next(g, u), seen) == [] ==> seen + Elems(Fresh(Next(g, u), seen)) == seen
  {
    var unseen := Fresh(Next(g, u), seen);
    FreshExact(Next(g, u), seen);
    if unseen != [] {
      assert unseen[0] in Elems(unseen);
      assert unseen[0] in Targets(g) - seen;
    }
  }

  /** Everything already seen is queued or has had its successors seen. */
  ghost predicate Frontier(g: Graph, queue: seq<Id>, seen: set<Id>) {
    && Elems(queue) <= seen
    && forall u, v :: u in seen && u !in queue && v in Next(g, u) ==> v in seen
  }

  lemma {:induction false} DiscoverCloses(g: Graph, queue: seq<Id>, seen: set<Id>)
    requires Frontier(g, queue, seen)
    ensures ClosedUnder(g, seen + Elems(Discover(g, queue, seen)))
    decreases Targets(g) - seen, |queue|
  {
    if queue != [] {
      var unseen := Fresh(Next(g, queue[0]), seen);
      FreshShrinks(g, queue[0], seen);
      FreshExact(Next(g, queue[0]), seen);
      var queue', seen' := queue[1..] + unseen, seen + Elems(unseen);
      assert forall x :: x in queue ==> x == queue[0] || x in queue[1..];
      forall u, v | u in seen' && u !in queue' && v in Next(g, u)
        ensures v in seen'
      {
        assert u == queue[0] || u !in queue;
        assert v in Elems(Next(g, u));
      }
      DiscoverCloses(g, queue', seen');
      var rest := Discover(g, queue', seen');
      assert seen + Elems(unseen + rest) == seen' + Elems(rest);
    }
  }

  lemma {:induction false} DiscoverDistinct(g: Graph, queue: seq<Id>, seen: set<Id>)
    ensures NoDup(Discover(g, queue, seen))
    ensures Elems(Discover(g, queue, seen)) !! seen
    decreases Targets(g) - seen, |queue|
  {
    if queue != [] {
      var unseen := Fresh(Next(g, queue[0]), seen);
      FreshShrinks(g, queue[0], seen);
      FreshExact(Next(g, queue[0]), seen);
      var rest := Discover(g, queue[1..] + unseen, seen + Elems(unseen));
      DiscoverDistinct(g, queue[1..] + unseen, seen + Elems(unseen));
      forall i, j | 0 <= i < |unseen| && 0 <= j < |rest|
        ensures unseen[i] != rest[j]
      {
        assert rest[j] in Elems(rest) && unseen[i] in Elems(unseen);
      }
      assert Elems(unseen + rest) == Elems(unseen) + Elems(rest);
    }
  }

  lemma {:induction false} DiscoverSound(g: Graph, from: set<Id>, queue: seq<Id>, seen: set<Id>)
    requires forall x :: x in queue ==> exists r :: r in from && Reach(g, r, x)
    ensures forall x :: x in Discover(g, queue, seen) ==> exists r :: r in from && Reach(g, r, x)
    decreases Targets(g) - seen, |queue|
  {
    if queue != [] {
      var unseen := Fresh(Next(g, queue[0]), seen);
      FreshShrinks(g, queue[0], seen);
      FreshExact(Next(g, queue[0]), seen);
      assert queue[0] in queue;
      var r :| r in from && Reach(g, r, queue[0]);
      forall x | x in unseen
        ensures Reach(g, r, x)
      {
        assert x in Elems(unseen);
        ReachStep(g, r, queue[0], x);
      }
      forall x | x in queue[1..] + unseen
        ensures exists r :: r in from && Reach(g, r, x)
      {
        assert x in queue || x in unseen;
      }
      DiscoverSound(g, from, queue[1..] + unseen, seen + Elems(unseen));
    }
  }

  lemma DiscoverComplete(g: Graph, starts: seq<Id>, r: Id, v: Id)
    requires r in starts && Reach(g, r, v)
    ensures v in Elems(starts) || v in Discover(g, starts, Elems(starts))
  {
    var found := Discover(g, starts, Elems(starts));
    DiscoverCloses(g, starts, Elems(starts));
    ClosedContainsReach(g, Elems(starts) + Elems(found), r, v);
  }

  /** Discovery from a set of starting nodes finds exactly what they reach. */
  lemma DiscoverExact(g: Graph, starts: seq<Id>, v: Id)
    ensures v in Elems(starts) || v in Discover(g, starts, Elems(starts))
       <==> exists r :: r in Elems(starts) && Reach(g, r, v)
  {
    forall x | x in starts
      ensures x in Elems(starts) && Reach(g, x, x)
    {
      ReachSelf(g, x);
    }
    DiscoverSound(g, Elems(starts), starts, Elems(starts));
    if r :| r in Elems(starts) && Reach(g, r, v) {
      DiscoverComplete(g, starts, r, v);
    }
  }

  /** The nodes other than `root` that `root` reaches, each once. */
  function Descendants(g: Graph, root: Id): seq<Id> {
    Discover(g, [root], {root})
  }

  lemma DescendantsExact(g: Graph, root: Id)
    ensures NoDup(Descendants(g, root))
    ensures forall v :: v in Descendants(g, root) <==> v != root && Reach(g, root, v)
  {
    DiscoverDistinct(g, [root], {root});
    assert Elems([root]) == {root};
    forall v
      ensures v in Descendants(g, root) <==> v != root && Reach(g, root, v)
    {
      DiscoverExact(g, [root], v);
      assert v in Descendants(g, root) <==> v in Elems(Descendants(g, root));
    }
  }

  /** A sequence without repetitions is as long as its set of members is large. */
  lemma {:induction false} NoDupLength(s: seq<Id>)
    requires NoDup(s)
    ensures |Elems(s)| == |s|
  {
    if s != [] {
      var init, last := s[..|s| - 1], s[|s| - 1];
      NoDupLength(init);
      assert last !in Elems(init);
      assert Elems(s) == Elems(init) + {last};
    }
  }
}
