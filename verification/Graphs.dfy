/** Finite directed graphs as edge sets: walks, cycles and what it takes to rule them out. */
module Graphs {

  type Node = nat

  type Edges = set<(Node, Node)>

  ghost predicate Hop(edges: Edges, p: seq<Node>, i: nat)
    requires i + 1 < |p|
  {
    (p[i], p[i + 1]) in edges
  }

  ghost predicate Walk(edges: Edges, p: seq<Node>) {
    |p| >= 1 && forall i: nat :: i + 1 < |p| ==> Hop(edges, p, i)
  }

  ghost predicate Cycle(edges: Edges, p: seq<Node>) {
    |p| >= 2 && Walk(edges, p) && p[0] == p[|p| - 1]
  }

  ghost predicate Acyclic(edges: Edges) {
    forall p :: !Cycle(edges, p)
  }

  /** Some non-empty walk leads from `n` back to `n`. */
  ghost predicate OnCycle(edges: Edges, n: Node) {
    exists p :: Cycle(edges, p) && p[0] == n
  }

  /** Edges with both ends in `nodes`. */
  ghost function Within(edges: Edges, nodes: set<Node>): Edges {
    set e | e in edges && e.0 in nodes && e.1 in nodes
  }

  /** A cycle can be entered at any of its nodes. */
  lemma RotateCycle(edges: Edges, p: seq<Node>, i: nat)
    requires Cycle(edges, p) && i < |p|
    ensures Cycle(edges, p[i..] + p[1..i + 1])
    ensures (p[i..] + p[1..i + 1])[0] == p[i]
  {
    var q := p[i..] + p[1..i + 1];
    forall j: nat | j + 1 < |q|
      ensures Hop(edges, q, j)
    {
      if j < |p| - i - 1 {
        assert Hop(edges, p, i + j);
      } else {
        assert Hop(edges, p, j - (|p| - i - 1));
      }
    }
  }

  lemma WalkSubset(small: Edges, big: Edges, p: seq<Node>)
    requires small <= big && Walk(small, p)
    ensures Walk(big, p)
  {
    assert forall i: nat :: i + 1 < |p| ==> Hop(small, p, i) && Hop(big, p, i);
  }

  lemma AcyclicSubset(small: Edges, big: Edges)
    requires small <= big && Acyclic(big)
    ensures Acyclic(small)
  {
    forall p
      ensures !Cycle(small, p)
    {
      if Cycle(small, p) {
        WalkSubset(small, big, p);
        assert Cycle(big, p);
      }
    }
  }

  lemma EmptyAcyclic()
    ensures Acyclic({})
  {
    forall p
      ensures !Cycle({}, p)
    {
      if |p| >= 2 {
        assert Walk({}, p) ==> Hop({}, p, 0);
      }
    }
  }

  /** If a property is carried along every edge, it holds everywhere on a walk that starts in it. */
  lemma {:induction false} WalkCarries(edges: Edges, p: seq<Node>, inside: set<Node>, k: nat)
    requires Walk(edges, p) && k < |p| && p[0] in inside
    requires forall e :: e in edges && e.0 in inside ==> e.1 in inside
    ensures p[k] in inside
  {
    if k > 0 {
      WalkCarries(edges, p, inside, k - 1);
      assert Hop(edges, p, k - 1);
      assert (p[k - 1], p[k]).1 in inside;
    }
  }

  /** A set that is closed under edges and that no edge leaves back to `n` shows `n` is on no cycle. */
  lemma ClosedSetExcludesCycle(edges: Edges, n: Node, closed: set<Node>)
    requires n in closed
    requires forall e :: e in edges && e.0 in closed ==> e.1 in closed && e.1 != n
    ensures !OnCycle(edges, n)
  {
    forall p | Cycle(edges, p) && p[0] == n
      ensures false
    {
      var last := (p[|p| - 2], p[|p| - 1]);
      assert Hop(edges, p, |p| - 2) && last.1 == n;
      WalkCarries(edges, p, closed, |p| - 2);
    }
  }
}
