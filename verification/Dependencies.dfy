/** The shutdown dependencies of core/producer.go and their guarded insertion (core/streamregistry.go). */
module Dependencies {
  import opened Graphs
  import opened Utilities

  // ----------------------------------------------------------- what linking does

  /** One child of LinkDependencies: the edge is added unless the two are already related. */
  ghost function Link(g: Graph<nat>, parent: nat, child: nat): Graph<nat> {
    if parent == child || Reach(g, parent, child) || Reach(g, child, parent) || child !in g then g
    else AddEdge(g, child, parent)
  }

  ghost function Linked(g: Graph<nat>, parent: nat, children: seq<nat>): Graph<nat> {
    if children == [] then g
    else Link(Linked(g, parent, children[..|children| - 1]), parent, children[|children| - 1])
  }

  /** All calls of LinkDependencies that newMultiplexer makes: each parent with its children. */
  ghost function LinkedAll(g: Graph<nat>, calls: seq<(nat, seq<nat>)>): Graph<nat> {
    if calls == [] then g
    else Linked(LinkedAll(g, calls[..|calls| - 1]), calls[|calls| - 1].0, calls[|calls| - 1].1)
  }

  /** The graphs that shutdown can rely on. */
  ghost predicate Sound(g: Graph<nat>) {
    Closed(g) && Acyclic(g) && forall a :: a in g ==> NoDuplicates(g[a])
  }

  ghost predicate Related(g: Graph<nat>, a: nat, b: nat) { a == b || Reach(g, a, b) || Reach(g, b, a) }

  ghost predicate Extends(g: Graph<nat>, g': Graph<nat>) {
    g.Keys == g'.Keys && forall a, b :: Edge(g, a, b) ==> Edge(g', a, b)
  }

  lemma LinkIsSound(g: Graph<nat>, parent: nat, child: nat)
    requires Sound(g) && parent in g && child in g
    ensures Sound(Link(g, parent, child)) && Extends(g, Link(g, parent, child))
      && Related(Link(g, parent, child), parent, child)
  {
    if Link(g, parent, child) != g {
      AddEdgeAcyclic(g, child, parent);
      if parent in g[child] {
        EdgeReaches(g, child, parent);
      }
      assert Edge(AddEdge(g, child, parent), child, parent) by { assert (g[child] + [parent])[|g[child]|] == parent; }
      EdgeReaches(AddEdge(g, child, parent), child, parent);
    }
  }

  lemma RelatedStays(g: Graph<nat>, g': Graph<nat>, a: nat, b: nat)
    requires Extends(g, g') && Related(g, a, b)
    ensures Related(g', a, b)
  {
    if Reach(g, a, b) { PathInMore(g, g', a, b); } else if Reach(g, b, a) { PathInMore(g, g', b, a); }
  }

  /** One LinkDependencies call keeps the graph sound, takes nothing away, and afterwards the
      parent is related to every producer of the stream. */
  lemma {:induction false} LinkedIsSound(g: Graph<nat>, parent: nat, children: seq<nat>)
    requires Sound(g) && parent in g && forall c :: c in children ==> c in g
    ensures Sound(Linked(g, parent, children)) && Extends(g, Linked(g, parent, children))
    ensures forall c :: c in children ==> Related(Linked(g, parent, children), parent, c)
  {
    if children != [] {
      var n := |children| - 1;
      var before := Linked(g, parent, children[..n]);
      LinkedIsSound(g, parent, children[..n]);
      LinkIsSound(before, parent, children[n]);
      forall c | c in children ensures Related(Linked(g, parent, children), parent, c) {
        if c != children[n] {
          assert c in children[..n];
          RelatedStays(before, Linked(g, parent, children), parent, c);
        }
      }
    }
  }

  ghost predicate CallsKnown(g: Graph<nat>, calls: seq<(nat, seq<nat>)>) {
    forall i :: 0 <= i < |calls| ==> calls[i].0 in g && forall c :: c in calls[i].1 ==> c in g
  }

  /** Whatever producers are linked in whatever order: the graph is acyclic and free of
      duplicates, and every producer is related to all producers it drops messages to. */
  lemma {:induction false} LinkedAllIsSound(g: Graph<nat>, calls: seq<(nat, seq<nat>)>)
    requires Sound(g) && CallsKnown(g, calls)
    ensures Sound(LinkedAll(g, calls)) && Extends(g, LinkedAll(g, calls))
    ensures forall i, c :: 0 <= i < |calls| && c in calls[i].1 ==> Related(LinkedAll(g, calls), calls[i].0, c)
  {
    if calls != [] {
      var n := |calls| - 1;
      var before := LinkedAll(g, calls[..n]);
      LinkedAllIsSound(g, calls[..n]);
      LinkedIsSound(before, calls[n].0, calls[n].1);
      forall i, c | 0 <= i < |calls| && c in calls[i].1 ensures Related(LinkedAll(g, calls), calls[i].0, c) {
        if i < n {
          assert calls[..n][i] == calls[i];
          RelatedStays(before, LinkedAll(g, calls), calls[i].0, c);
        }
      }
    }
  }

  lemma {:induction false} LinkedExtends(g: Graph<nat>, parent: nat, children: seq<nat>)
    ensures Extends(g, Linked(g, parent, children))
  {
    if children != [] {
      var n := |children| - 1;
      var before := Linked(g, parent, children[..n]);
      LinkedExtends(g, parent, children[..n]);
      LinkExtends(before, parent, children[n]);
    }
  }

  lemma LinkExtends(g: Graph<nat>, parent: nat, child: nat)
    ensures Extends(g, Link(g, parent, child))
  {
    hide Reach;
    if Link(g, parent, child) != g {
      var g' := AddEdge(g, child, parent);
      forall a, b | Edge(g, a, b) ensures Edge(g', a, b) {
        if a == child {
          var i :| 0 <= i < |g[a]| && g[a][i] == b;
          assert g'[a][i] == b;
        }
      }
    }
  }

  /** Only asked-for edges are added, from a child to the parent, and only between producers that were
      not related before. */
  lemma {:induction false} LinkedAddsOnlyParents(g: Graph<nat>, parent: nat, children: seq<nat>, a: nat, b: nat)
    requires Edge(Linked(g, parent, children), a, b)
    ensures Edge(g, a, b) || (b == parent && a in children && !Related(g, a, b))
  {
    if children != [] {
      var n := |children| - 1;
      var before := Linked(g, parent, children[..n]);
      if Edge(before, a, b) {
        LinkedAddsOnlyParents(g, parent, children[..n], a, b);
      } else {
        LinkedExtends(g, parent, children[..n]);
        if Related(g, a, b) { RelatedStays(g, before, a, b); }
      }
    }
  }

  // ----------------------------------------------------------------- the producers

  class Producer {
    /** Stands for the identity of the object. */
    const id: nat
    var dependencies: seq<Producer>

    constructor (id: nat)
      ensures this.id == id && dependencies == []
    {
      this.id, dependencies := id, [];
    }

    method AddDependency(dep: Producer)
      modifies this
      ensures dependencies == if dep in old(dependencies) then old(dependencies) else old(dependencies) + [dep]
    {
      for i := 0 to |dependencies|
        invariant dependencies == old(dependencies) && dep !in dependencies[..i]
      {
        if dependencies[i] == dep { return; }
      }
      dependencies := dependencies + [dep];
    }

    /** The recursive search ends and finds exactly the transitive dependencies. */
    method DependsOn(dep: Producer, ghost all: seq<Producer>) returns (r: bool)
      requires Known(all) && Member(all, this) && Member(all, dep) && Acyclic(GraphOf(all))
      ensures r <==> Reach(GraphOf(all), id, dep.id)
      decreases Below(GraphOf(all), id)
    {
      ghost var g: Graph<nat> := GraphOf(all);
      for i := 0 to |dependencies|
        invariant g == GraphOf(all) && Known(all)
        invariant forall j :: 0 <= j < i ==> dependencies[j] != dep && !Reach(g, dependencies[j].id, dep.id)
      {
        var storedDep := dependencies[i];
        assert this in all && Member(all, storedDep);
        assert g[id][i] == storedDep.id && Edge(g, id, storedDep.id);
        EdgeReaches(g, id, storedDep.id);
        if storedDep == dep { return true; }
        BelowShrinks(g, id, storedDep.id);
        var nested := storedDep.DependsOn(dep, all);
        if nested {
          ReachIsTransitive(g, id, storedDep.id, dep.id);
          return true;
        }
      }
      forall c | Edge(g, id, c) ensures c != dep.id && !Reach(g, c, dep.id) {
        var j :| 0 <= j < |dependencies| && g[id][j] == c;
        assert this in all && Member(all, dependencies[j]);
      }
      ReachNeedsEdge(g, id, dep.id);
      return false;
    }
  }

  predicate Member(all: seq<Producer>, p: Producer) { p.id < |all| && all[p.id] == p }

  ghost predicate Known(all: seq<Producer>)
    reads all
  {
    && (forall i :: 0 <= i < |all| ==> all[i].id == i)
    && (forall p, d :: p in all && d in p.dependencies ==> Member(all, d))
  }

  function Ids(ps: seq<Producer>): (ids: seq<nat>)
    ensures |ids| == |ps| && forall i :: 0 <= i < |ps| ==> ids[i] == ps[i].id
  {
    seq(|ps|, i requires 0 <= i < |ps| => ps[i].id)
  }

  /** The stored dependencies as a graph. */
  ghost function GraphOf(all: seq<Producer>): Graph<nat>
    reads all
  {
    map i: nat | i < |all| :: Ids(all[i].dependencies)
  }

  /** LinkDependencies for the producers that listen to the parent's stream. */
  method LinkDependencies(parent: Producer, children: seq<Producer>, ghost all: seq<Producer>)
    requires Known(all) && Sound(GraphOf(all)) && Member(all, parent) && forall c :: c in children ==> Member(all, c)
    modifies all
    ensures Known(all) && Sound(GraphOf(all)) && GraphOf(all) == Linked(old(GraphOf(all)), parent.id, Ids(children))
  {
    assert Ids(children)[..|children|] == Ids(children);
    for i := 0 to |children|
      invariant Known(all) && Sound(GraphOf(all))
      invariant GraphOf(all) == Linked(old(GraphOf(all)), parent.id, Ids(children)[..i])
    {
      assert Ids(children)[..i + 1][..i] == Ids(children)[..i];
      assert Member(all, children[i]) && children[i] in all;
      LinkOne(parent, children[i], all);
    }
  }

  method LinkOne(parent: Producer, child: Producer, ghost all: seq<Producer>)
    requires Known(all) && Sound(GraphOf(all)) && Member(all, parent) && Member(all, child)
    modifies child
    ensures Known(all) && Sound(GraphOf(all)) && GraphOf(all) == Link(old(GraphOf(all)), parent.id, child.id)
  {
    LinkIsSound(GraphOf(all), parent.id, child.id);
    if parent == child { return; }
    var depends := parent.DependsOn(child, all);
    if depends { return; }
    depends := child.DependsOn(parent, all);
    if depends { return; }
    Attach(parent, child, all);
  }

  /** The default case: a new edge. */
  method Attach(parent: Producer, child: Producer, ghost all: seq<Producer>)
    requires Known(all) && Member(all, parent) && Member(all, child) && !Reach(GraphOf(all), child.id, parent.id)
    modifies child
    ensures Known(all) && GraphOf(all) == AddEdge(old(GraphOf(all)), child.id, parent.id)
  {
    hide Reach;
    if parent in child.dependencies {
      assert Edge(GraphOf(all), child.id, parent.id) by {
        var i :| 0 <= i < |child.dependencies| && child.dependencies[i] == parent;
        assert Ids(child.dependencies)[i] == parent.id;
      }
      EdgeReaches(GraphOf(all), child.id, parent.id);
    }
    child.AddDependency(parent);
    assert Ids(child.dependencies) == Ids(old(child.dependencies)) + [parent.id];
    assert forall j :: 0 <= j < |all| && j != child.id ==> all[j] != child;
    assert GraphOf(all) == AddEdge(old(GraphOf(all)), child.id, parent.id);
  }

  /** The loop of newMultiplexer: every producer with the producers of its drop stream. */
  method LinkAll(producers: seq<Producer>, dropTargets: seq<seq<Producer>>, ghost all: seq<Producer>)
    requires Known(all) && Sound(GraphOf(all)) && |dropTargets| == |producers|
    requires forall p :: p in producers ==> Member(all, p)
    requires forall i, c :: 0 <= i < |dropTargets| && c in dropTargets[i] ==> Member(all, c)
    modifies all
    ensures Known(all) && Sound(GraphOf(all))
    ensures GraphOf(all) == LinkedAll(old(GraphOf(all)), Calls(producers, dropTargets))
  {
    assert Calls(producers, dropTargets)[..|producers|] == Calls(producers, dropTargets);
    for i := 0 to |producers|
      invariant Known(all) && Sound(GraphOf(all))
      invariant GraphOf(all) == LinkedAll(old(GraphOf(all)), Calls(producers, dropTargets)[..i])
    {
      assert Calls(producers, dropTargets)[..i + 1][..i] == Calls(producers, dropTargets)[..i];
      LinkDependencies(producers[i], dropTargets[i], all);
    }
  }

  function Calls(producers: seq<Producer>, dropTargets: seq<seq<Producer>>): (calls: seq<(nat, seq<nat>)>)
    requires |dropTargets| == |producers|
    ensures |calls| == |producers|
    ensures forall i :: 0 <= i < |producers| ==> calls[i] == (producers[i].id, Ids(dropTargets[i]))
  {
    seq(|producers|, i requires 0 <= i < |producers| => (producers[i].id, Ids(dropTargets[i])))
  }
}
