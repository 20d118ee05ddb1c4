/** Directed graphs of successor lists: reachability by explicit paths, and what one new edge does. */
module Graphs {
  type Graph<T(==)> = map<T, seq<T>>

  ghost predicate Closed<T(!new)>(g: Graph<T>) {
    forall a, b :: a in g && b in g[a] ==> b in g
  }

  predicate Edge<T(==)>(g: Graph<T>, a: T, b: T) { a in g && b in g[a] }

  /** At least one edge, and every step is one. */
  predicate Path<T(==)>(g: Graph<T>, p: seq<T>) {
    |p| >= 2 && forall i :: 0 <= i < |p| - 1 ==> Edge(g, p[i], p[i + 1])
  }

  ghost predicate Joins<T>(g: Graph<T>, p: seq<T>, a: T, b: T) {
    Path(g, p) && p[0] == a && p[|p| - 1] == b
  }

  /** The transitive closure of the edges. */
  ghost predicate Reach<T(!new)>(g: Graph<T>, a: T, b: T) {
    exists p :: Joins(g, p, a, b)
  }

  ghost predicate Acyclic<T(!new)>(g: Graph<T>) {
    forall a | a in g :: !Reach(g, a, a)
  }

  lemma EdgeReaches<T(!new)>(g: Graph<T>, a: T, b: T)
    requires Edge(g, a, b)
    ensures Reach(g, a, b)
  {
    assert Joins(g, [a, b], a, b);
  }

  lemma ReachIsTransitive<T(!new)>(g: Graph<T>, a: T, b: T, c: T)
    requires Reach(g, a, b) && Reach(g, b, c)
    ensures Reach(g, a, c)
  {
    var p :| Joins(g, p, a, b);
    var q :| Joins(g, q, b, c);
    var pq := p + q[1..];
    forall i | 0 <= i < |pq| - 1 ensures Edge(g, pq[i], pq[i + 1]) {
      if i >= |p| - 1 { assert Edge(g, q[i - (|p| - 1)], q[i - (|p| - 1) + 1]); }
    }
    assert Joins(g, pq, a, c);
  }

  /** A path is an edge, or an edge and a shorter path. */
  lemma FirstEdge<T(!new)>(g: Graph<T>, p: seq<T>, a: T, b: T)
    requires Joins(g, p, a, b)
    ensures Edge(g, a, p[1])
    ensures if |p| == 2 then p[1] == b else Joins(g, p[1..], p[1], b)
  {
    assert Edge(g, p[0], p[0 + 1]);
    if |p| > 2 {
      forall i | 0 <= i < |p[1..]| - 1 ensures Edge(g, p[1..][i], p[1..][i + 1]) {
        assert Edge(g, p[i + 1], p[i + 1 + 1]);
      }
    }
  }

  lemma ReachFirst<T(!new)>(g: Graph<T>, a: T, b: T) returns (c: T)
    requires Reach(g, a, b)
    ensures Edge(g, a, c) && (c == b || Reach(g, c, b))
  {
    var p :| Joins(g, p, a, b);
    FirstEdge(g, p, a, b);
    c := p[1];
  }

  lemma ReachNeedsEdge<T(!new)>(g: Graph<T>, a: T, b: T)
    requires forall c :: Edge(g, a, c) ==> c != b && !Reach(g, c, b)
    ensures !Reach(g, a, b)
  {
    if Reach(g, a, b) { var c := ReachFirst(g, a, b); }
  }

  lemma {:induction false} ReachStaysIn<T(!new)>(g: Graph<T>, p: seq<T>, a: T, b: T)
    requires Closed(g) && Joins(g, p, a, b)
    ensures a in g && b in g
    decreases |p|
  {
    FirstEdge(g, p, a, b);
    if |p| > 2 { ReachStaysIn(g, p[1..], p[1], b); }
  }

  /** The nodes that can be reached. */
  ghost function Below<T(!new)>(g: Graph<T>, a: T): set<T> { set b | b in g && Reach(g, a, b) }

  /** Every edge of an acyclic graph leads to a node with less below it. */
  lemma BelowShrinks<T(!new)>(g: Graph<T>, a: T, b: T)
    requires Acyclic(g) && Edge(g, a, b) && b in g
    ensures Below(g, b) < Below(g, a)
  {
    EdgeReaches(g, a, b);
    forall c | c in Below(g, b) ensures c in Below(g, a) { ReachIsTransitive(g, a, b, c); }
    assert b in Below(g, a) && b !in Below(g, b);
  }

  // ------------------------------------------------------------ one more edge

  ghost function AddEdge<T>(g: Graph<T>, a: T, b: T): Graph<T>
    requires a in g
  {
    g[a := g[a] + [b]]
  }

  lemma {:induction false} PathInMore<T(!new)>(g: Graph<T>, g': Graph<T>, a: T, b: T)
    requires forall x, y :: Edge(g, x, y) ==> Edge(g', x, y)
    requires Reach(g, a, b)
    ensures Reach(g', a, b)
  {
    var p :| Joins(g, p, a, b);
    forall i | 0 <= i < |p| - 1 ensures Edge(g', p[i], p[i + 1]) { assert Edge(g, p[i], p[i + 1]); }
    assert Joins(g', p, a, b);
  }

  ghost predicate ReachOrSame<T(!new)>(g: Graph<T>, a: T, b: T) { a == b || Reach(g, a, b) }

  /** What is reached over the new edge was reached before it up to its source and from its target. */
  lemma {:induction false} ReachOverEdge<T(!new)>(g: Graph<T>, x: T, y: T, p: seq<T>, a: T, b: T)
    requires x in g && Joins(AddEdge(g, x, y), p, a, b)
    ensures Reach(g, a, b) || (ReachOrSame(g, a, x) && ReachOrSame(g, y, b))
    decreases |p|
  {
    FirstEdge(AddEdge(g, x, y), p, a, b);
    var c := p[1];
    if Edge(g, a, c) { EdgeReaches(g, a, c); } else { assert a == x && c == y; }
    if |p| > 2 {
      ReachOverEdge(g, x, y, p[1..], c, b);
      if Edge(g, a, c) {
        if Reach(g, c, b) { ReachIsTransitive(g, a, c, b); } else if c != x { ReachIsTransitive(g, a, c, x); }
      }
    }
  }

  /** A new edge keeps the graph acyclic exactly if its target does not reach its source. */
  lemma AddEdgeAcyclic<T(!new)>(g: Graph<T>, x: T, y: T)
    requires Acyclic(g) && x in g
    ensures Acyclic(AddEdge(g, x, y)) <==> !ReachOrSame(g, y, x)
  {
    var g' := AddEdge(g, x, y);
    assert forall a, b :: Edge(g, a, b) ==> Edge(g', a, b);
    EdgeReaches(g', x, y);
    if ReachOrSame(g, y, x) {
      if y != x {
        PathInMore(g, g', y, x);
        ReachIsTransitive(g', x, y, x);
      }
      assert Reach(g', x, x);
    } else {
      forall a | a in g' ensures !Reach(g', a, a) {
        if Reach(g', a, a) {
          var p :| Joins(g', p, a, a);
          ReachOverEdge(g, x, y, p, a, a);
          if a != y && a != x { ReachIsTransitive(g, y, a, x); }
          assert false;
        }
      }
    }
  }
}
