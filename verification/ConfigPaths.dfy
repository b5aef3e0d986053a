/** StaticInformation of print-introspected-doxygen.cc: the recursive gathering
    of configuration paths with its two stacks and its output list. */
module ConfigPaths {
  import opened Records
  import opened Sequences
  import opened TypeGraph
  import opened Walks

  /** The labelled graph has the edges of the registry. */
  ghost predicate Matches(g: Graph, w: Web) {
    forall tid {:trigger Edges(g, tid)} :: w.edges(tid) == Edges(g, tid)
  }

  // Where each of the three loops stands in the list of edges.

  ghost function AttributeMark(g: Graph, tid: TypeId, i: nat): nat
    requires i <= |g.AttributesOf(tid)|
  {
    |AttributeEdges(g, g.AttributesOf(tid)[..i])|
  }

  ghost function ChildMark(g: Graph, tid: TypeId, j: nat): nat
    requires j <= |g.registered|
  {
    |AttributeEdges(g, g.AttributesOf(tid))| + |ChildEdges(g, tid, g.registered[..j])|
  }

  ghost function AggregateMark(g: Graph, tid: TypeId, j: nat): nat
    requires j <= |g.aggregates|
  {
    |AttributeEdges(g, g.AttributesOf(tid))| + |ChildEdges(g, tid, g.registered)|
    + |AggregateEdges(tid, g.aggregates[..j])|
  }

  lemma MarksMeet(g: Graph, w: Web, tid: TypeId)
    requires Matches(g, w)
    ensures AttributeMark(g, tid, 0) == 0
    ensures AttributeMark(g, tid, |g.AttributesOf(tid)|) == ChildMark(g, tid, 0)
    ensures ChildMark(g, tid, |g.registered|) == AggregateMark(g, tid, 0)
    ensures AggregateMark(g, tid, |g.aggregates|) == |w.edges(tid)|
  {
    var attributes := g.AttributesOf(tid);
    assert w.edges(tid) == Edges(g, tid);
    assert attributes[..|attributes|] == attributes;
    assert g.registered[..|g.registered|] == g.registered;
    assert g.aggregates[..|g.aggregates|] == g.aggregates;
  }

  lemma AttributeAt(g: Graph, w: Web, tid: TypeId, i: nat)
    requires Matches(g, w) && i < |g.AttributesOf(tid)|
    ensures var n, found := AttributeMark(g, tid, i), AttributeEdge(g, g.AttributesOf(tid)[i]);
      && AttributeMark(g, tid, i + 1) == n + |found| <= |w.edges(tid)|
      && (found != [] ==> w.edges(tid)[n] == found[0])
  {
    assert w.edges(tid) == Edges(g, tid);
    AttributeEdgesPrefix(g, g.AttributesOf(tid), i);
  }

  lemma ChildAt(g: Graph, w: Web, tid: TypeId, j: nat)
    requires Matches(g, w) && j < |g.registered|
    ensures var n, found := ChildMark(g, tid, j), ChildEdge(g, tid, g.registered[j]);
      && ChildMark(g, tid, j + 1) == n + |found| <= |w.edges(tid)|
      && (found != [] ==> w.edges(tid)[n] == found[0])
  {
    assert w.edges(tid) == Edges(g, tid);
    ChildEdgesPrefix(g, tid, g.registered, j);
  }

  lemma AggregateAt(g: Graph, w: Web, tid: TypeId, j: nat)
    requires Matches(g, w) && j < |g.aggregates|
    ensures var n, found := AggregateMark(g, tid, j), AggregateEdge(tid, g.aggregates[j]);
      && AggregateMark(g, tid, j + 1) == n + |found| <= |w.edges(tid)|
      && (found != [] ==> w.edges(tid)[n] == found[0])
  {
    assert w.edges(tid) == Edges(g, tid);
    AggregateEdgesPrefix(tid, g.aggregates, j);
  }

  class StaticInformation {
    var output: seq<Record>
    var currentPath: seq<string>
    var alreadyProcessed: seq<TypeId>

    constructor ()
      ensures output == [] && currentPath == [] && alreadyProcessed == []
    {
      output, currentPath, alreadyProcessed := [], [], [];
    }

    method GetCurrentPath() returns (path: string)
      ensures path == RenderPath(currentPath)
    {
      path := "";
      for i := 0 to |currentPath|
        invariant path == RenderPath(currentPath[..i])
      {
        path := path + "/" + currentPath[i];
        assert currentPath[..i + 1][..i] == currentPath[..i];
      }
      assert currentPath[..|currentPath|] == currentPath;
    }

    method HasAlreadyBeenProcessed(tid: TypeId) returns (found: bool)
      ensures found <==> tid in alreadyProcessed
    {
      for i := 0 to |alreadyProcessed|
        invariant tid !in alreadyProcessed[..i]
      {
        if alreadyProcessed[i] == tid { return true; }
        assert alreadyProcessed[..i + 1] == alreadyProcessed[..i] + [alreadyProcessed[i]];
      }
      assert alreadyProcessed[..|alreadyProcessed|] == alreadyProcessed;
      return false;
    }

    method RecordOutput(tid: TypeId)
      modifies this`output
      ensures output == old(output) + [(tid, RenderPath(currentPath))]
    {
      var path := GetCurrentPath();
      output := output + [(tid, path)];
    }

    /** Push name and type, gather the target, pop both. */
    method Follow(g: Graph, ghost w: Web, tid: TypeId, e: Edge, ghost n: nat)
      requires Matches(g, w) && tid !in alreadyProcessed && n < |w.edges(tid)| && e == w.edges(tid)[n]
      modifies this
      ensures currentPath == old(currentPath) && alreadyProcessed == old(alreadyProcessed)
      ensures output == old(output) + Gathered(w, e.target, currentPath + [e.name], alreadyProcessed + [tid])
      decreases Remaining(w, tid, alreadyProcessed), 0
    {
      RemainingShrinks(w, tid, alreadyProcessed, n);
      currentPath := currentPath + [e.name];
      alreadyProcessed := alreadyProcessed + [tid];
      DoGather(g, w, e.target);
      alreadyProcessed := alreadyProcessed[..|alreadyProcessed| - 1];
      currentPath := currentPath[..|currentPath| - 1];
    }

    /** The output is base and what the first n edges of tid contribute. */
    ghost predicate Holds(w: Web, tid: TypeId, base: seq<Record>, n: nat)
      reads this
    {
      && tid !in alreadyProcessed && n <= |w.edges(tid)|
      && output == base + GatheredUpTo(w, tid, currentPath, alreadyProcessed, n)
    }

    /** Follow edge number n after the first n edges have been followed. */
    method FollowNext(g: Graph, ghost w: Web, tid: TypeId, e: Edge, ghost n: nat, ghost base: seq<Record>)
      requires Matches(g, w) && Holds(w, tid, base, n) && n < |w.edges(tid)| && e == w.edges(tid)[n]
      modifies this
      ensures currentPath == old(currentPath) && alreadyProcessed == old(alreadyProcessed)
      ensures Holds(w, tid, base, n + 1)
      decreases Remaining(w, tid, alreadyProcessed), 1
    {
      Follow(g, w, tid, e, n);
    }

    /** One iteration of the loop over the attributes. */
    method GatherAttribute(g: Graph, ghost w: Web, tid: TypeId, a: Attribute,
                           ghost n: nat, ghost m: nat, ghost base: seq<Record>)
      requires Matches(g, w) && Holds(w, tid, base, n) && m == n + |AttributeEdge(g, a)| && m <= |w.edges(tid)|
      requires AttributeEdge(g, a) != [] ==> w.edges(tid)[n] == AttributeEdge(g, a)[0]
      modifies this
      ensures currentPath == old(currentPath) && alreadyProcessed == old(alreadyProcessed)
      ensures Holds(w, tid, base, m)
      decreases Remaining(w, tid, alreadyProcessed), 2
    {
      match a {
        case Pointer(name, pointee) =>
          if pointee != g.objectType {
            FollowNext(g, w, tid, Edge(name, pointee), n, base);
          }
        case Container(name, item) =>
          FollowNext(g, w, tid, Edge(name + "/[i]", item), n, base);
        case Plain(_) =>
      }
    }

    method GatherAttributes(g: Graph, ghost w: Web, tid: TypeId, ghost base: seq<Record>)
      requires Matches(g, w) && Holds(w, tid, base, AttributeMark(g, tid, 0))
      modifies this
      ensures currentPath == old(currentPath) && alreadyProcessed == old(alreadyProcessed)
      ensures Holds(w, tid, base, AttributeMark(g, tid, |g.AttributesOf(tid)|))
      decreases Remaining(w, tid, alreadyProcessed), 3
    {
      var attributes := g.AttributesOf(tid);
      for i := 0 to |attributes|
        invariant currentPath == old(currentPath) && alreadyProcessed == old(alreadyProcessed)
        invariant Holds(w, tid, base, AttributeMark(g, tid, i))
      {
        AttributeAt(g, w, tid, i);
        GatherAttribute(g, w, tid, attributes[i], AttributeMark(g, tid, i), AttributeMark(g, tid, i + 1), base);
      }
    }

    method GatherChild(g: Graph, ghost w: Web, tid: TypeId, child: TypeId,
                       ghost n: nat, ghost m: nat, ghost base: seq<Record>)
      requires Matches(g, w) && Holds(w, tid, base, n) && m == n + |ChildEdge(g, tid, child)| && m <= |w.edges(tid)|
      requires ChildEdge(g, tid, child) != [] ==> w.edges(tid)[n] == ChildEdge(g, tid, child)[0]
      modifies this
      ensures currentPath == old(currentPath) && alreadyProcessed == old(alreadyProcessed)
      ensures Holds(w, tid, base, m)
      decreases Remaining(w, tid, alreadyProcessed), 2
    {
      if (child, tid) in g.childOf {
        FollowNext(g, w, tid, Edge("$" + child.name, child), n, base);
      }
    }

    method GatherChildren(g: Graph, ghost w: Web, tid: TypeId, ghost base: seq<Record>)
      requires Matches(g, w) && Holds(w, tid, base, ChildMark(g, tid, 0))
      modifies this
      ensures currentPath == old(currentPath) && alreadyProcessed == old(alreadyProcessed)
      ensures Holds(w, tid, base, ChildMark(g, tid, |g.registered|))
      decreases Remaining(w, tid, alreadyProcessed), 3
    {
      for j := 0 to |g.registered|
        invariant currentPath == old(currentPath) && alreadyProcessed == old(alreadyProcessed)
        invariant Holds(w, tid, base, ChildMark(g, tid, j))
      {
        ChildAt(g, w, tid, j);
        GatherChild(g, w, tid, g.registered[j], ChildMark(g, tid, j), ChildMark(g, tid, j + 1), base);
      }
    }

    method GatherAggregate(g: Graph, ghost w: Web, tid: TypeId, item: (TypeId, TypeId),
                           ghost n: nat, ghost m: nat, ghost base: seq<Record>)
      requires Matches(g, w) && Holds(w, tid, base, n) && m == n + |AggregateEdge(tid, item)| && m <= |w.edges(tid)|
      requires AggregateEdge(tid, item) != [] ==> w.edges(tid)[n] == AggregateEdge(tid, item)[0]
      modifies this
      ensures currentPath == old(currentPath) && alreadyProcessed == old(alreadyProcessed)
      ensures Holds(w, tid, base, m)
      decreases Remaining(w, tid, alreadyProcessed), 2
    {
      if item.0 == tid || item.1 == tid {
        var other := item.1;
        if item.1 == tid {
          other := item.0;
        }
        FollowNext(g, w, tid, Edge("$" + other.name, other), n, base);
      }
    }

    method GatherAggregates(g: Graph, ghost w: Web, tid: TypeId, ghost base: seq<Record>)
      requires Matches(g, w) && Holds(w, tid, base, AggregateMark(g, tid, 0))
      modifies this
      ensures currentPath == old(currentPath) && alreadyProcessed == old(alreadyProcessed)
      ensures Holds(w, tid, base, AggregateMark(g, tid, |g.aggregates|))
      decreases Remaining(w, tid, alreadyProcessed), 3
    {
      for j := 0 to |g.aggregates|
        invariant currentPath == old(currentPath) && alreadyProcessed == old(alreadyProcessed)
        invariant Holds(w, tid, base, AggregateMark(g, tid, j))
      {
        AggregateAt(g, w, tid, j);
        GatherAggregate(g, w, tid, g.aggregates[j], AggregateMark(g, tid, j), AggregateMark(g, tid, j + 1), base);
      }
    }

    /** Terminates on every graph, restores both stacks, and appends one record
        for each simple route that avoids the stack. */
    method DoGather(g: Graph, ghost w: Web, tid: TypeId)
      requires Matches(g, w)
      modifies this
      ensures currentPath == old(currentPath) && alreadyProcessed == old(alreadyProcessed)
      ensures output == old(output) + Gathered(w, tid, currentPath, alreadyProcessed)
      decreases Remaining(w, tid, alreadyProcessed), 4
    {
      var seen := HasAlreadyBeenProcessed(tid);
      if seen { return; }
      ghost var base := output;
      MarksMeet(g, w, tid);
      RecordOutput(tid);
      GatherAttributes(g, w, tid, base);
      GatherChildren(g, w, tid, base);
      GatherAggregates(g, w, tid, base);
    }

    /** Uniquefy receives a copy of the output, so it leaves the records as they are. */
    method Gather(g: Graph, tid: TypeId)
      requires currentPath == [] && alreadyProcessed == []
      modifies this
      ensures currentPath == [] && alreadyProcessed == []
      ensures output == old(output) + Gathered(WebOf(g), tid, [], [])
    {
      DoGather(g, WebOf(g), tid);
    }

    method Get(tid: TypeId) returns (paths: seq<string>)
      ensures paths == PathsTo(output, tid)
    {
      paths := [];
      for i := 0 to |output|
        invariant paths == PathsTo(output[..i], tid)
      {
        if output[i].0 == tid {
          paths := paths + [output[i].1];
        }
        assert output[..i + 1][..i] == output[..i];
      }
      assert output[..|output|] == output;
    }

    /** Gather every root in turn, starting from empty stacks. */
    method GatherAll(g: Graph, roots: seq<TypeId>)
      requires output == [] && currentPath == [] && alreadyProcessed == []
      modifies this
      ensures output == GatheredFrom(WebOf(g), roots)
    {
      ghost var w := WebOf(g);
      for i := 0 to |roots|
        invariant currentPath == [] && alreadyProcessed == []
        invariant output == GatheredFrom(w, roots[..i])
      {
        Gather(g, roots[i]);
        GatheredFromPrefix(w, roots, i);
      }
      assert roots[..|roots|] == roots;
    }
  }

  lemma {:induction false} GatheredFromPrefix(w: Web, roots: seq<TypeId>, i: nat)
    requires i < |roots|
    ensures GatheredFrom(w, roots[..i + 1]) == GatheredFrom(w, roots[..i]) + Gathered(w, roots[i], [], [])
  {
    assert roots[..i + 1][..i] == roots[..i];
  }

  lemma {:induction false} PathsAreConfigPaths(w: Web, roots: seq<TypeId>, tid: TypeId)
    ensures forall path :: path in PathsTo(GatheredFrom(w, roots), tid) <==> IsConfigPath(w, roots, tid, path)
  {
    forall path ensures path in PathsTo(GatheredFrom(w, roots), tid) <==> IsConfigPath(w, roots, tid, path) {
      PathsToMembers(GatheredFrom(w, roots), tid, path);
      GatheredFromRoots(w, roots, (tid, path));
    }
  }

  /** The types follow each other by what the registry yields, under the given
      labels, and none comes twice. */
  ghost predicate IsTrail(g: Graph, types: seq<TypeId>, labels: seq<string>) {
    && |types| == |labels| + 1 && Distinct(types)
    && forall i :: 0 <= i < |labels| ==> HasEdge(g, types[i], Edge(labels[i], types[i + 1]))
  }

  lemma TrailIsLinked(g: Graph, types: seq<TypeId>, labels: seq<string>)
    ensures IsTrail(g, types, labels) <==> Linked(WebOf(g), types, labels) && Distinct(types)
  {
    if |types| == |labels| + 1 {
      forall i | 0 <= i < |labels|
        ensures Edge(labels[i], types[i + 1]) in WebOf(g).edges(types[i])
          <==> HasEdge(g, types[i], Edge(labels[i], types[i + 1]))
      {
        EdgeIff(g, types[i], Edge(labels[i], types[i + 1]));
      }
    }
  }

  /** The configuration paths in terms of the registry alone. */
  lemma ConfigPathIff(g: Graph, roots: seq<TypeId>, tid: TypeId, path: string)
    ensures IsConfigPath(WebOf(g), roots, tid, path) <==>
      exists types, labels :: IsTrail(g, types, labels) && types[0] in roots && types[|labels|] == tid
                              && path == RenderPath(labels)
  {
    var w := WebOf(g);
    if IsConfigPath(w, roots, tid, path) {
      var root, r :| root in roots && IsSimple(w, root, r) && EndOf(w, root, r) == tid
                     && path == RenderPath(Labels(w, root, r));
      RouteIsLinked(w, root, r);
      TrailIsLinked(g, Visited(w, root, r), Labels(w, root, r));
    }
    if types, labels :| IsTrail(g, types, labels) && types[0] in roots && types[|labels|] == tid
                        && path == RenderPath(labels) {
      TrailIsLinked(g, types, labels);
      var r := LinkedHasRoute(w, types, labels);
      assert IsSimple(w, types[0], r) && EndOf(w, types[0], r) == tid;
    }
  }

  lemma ConfigPathsIff(g: Graph, roots: seq<TypeId>, tid: TypeId)
    ensures forall path :: IsConfigPath(WebOf(g), roots, tid, path) <==>
      exists types, labels :: IsTrail(g, types, labels) && types[0] in roots && types[|labels|] == tid
                              && path == RenderPath(labels)
  {
    forall path
      ensures IsConfigPath(WebOf(g), roots, tid, path) <==>
        exists types, labels :: IsTrail(g, types, labels) && types[0] in roots && types[|labels|] == tid
                                && path == RenderPath(labels)
    {
      ConfigPathIff(g, roots, tid, path);
    }
  }

  /** From the root objects to the documented paths of one type: the records of
      the simple routes, root after root, filtered for the type. */
  method ConfigPathsOf(g: Graph, roots: seq<TypeId>, tid: TypeId) returns (paths: seq<string>)
    ensures paths == PathsTo(GatheredFrom(WebOf(g), roots), tid)
    ensures forall path :: path in paths <==>
      exists types, labels :: IsTrail(g, types, labels) && types[0] in roots && types[|labels|] == tid
                              && path == RenderPath(labels)
  {
    var info := new StaticInformation();
    info.GatherAll(g, roots);
    paths := info.Get(tid);
    PathsAreConfigPaths(WebOf(g), roots, tid);
    ConfigPathsIff(g, roots, tid);
  }
}
