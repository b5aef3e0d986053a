/** The type graph that print-introspected-doxygen.cc walks. */
module TypeGraph {
  import opened Walks

  datatype Attribute =
    | Pointer(name: string, pointee: TypeId)
    | Container(name: string, item: TypeId)
    | Plain(name: string)

  /** The registry (attributes, registration order, the transitive "is child
      of" relation, the type ns3::Object) and the recorded aggregations. */
  datatype Graph = Graph(
    attributes: map<TypeId, seq<Attribute>>,
    registered: seq<TypeId>,
    childOf: set<(TypeId, TypeId)>,
    objectType: TypeId,
    aggregates: seq<(TypeId, TypeId)>)
  {
    function AttributesOf(tid: TypeId): seq<Attribute> {
      if tid in attributes then attributes[tid] else []
    }
  }

  // ---------------------------------------------------------------------
  // Edges, in the order of the three loops of DoGather
  // ---------------------------------------------------------------------

  function AttributeEdge(g: Graph, a: Attribute): seq<Edge> {
    match a
    case Pointer(name, pointee) => if pointee == g.objectType then [] else [Edge(name, pointee)]
    case Container(name, item) => [Edge(name + "/[i]", item)]
    case Plain(_) => []
  }

  function AttributeEdges(g: Graph, attributes: seq<Attribute>): seq<Edge> {
    if attributes == [] then []
    else AttributeEdges(g, attributes[..|attributes| - 1]) + AttributeEdge(g, attributes[|attributes| - 1])
  }

  function ChildEdge(g: Graph, tid: TypeId, child: TypeId): seq<Edge> {
    if (child, tid) in g.childOf then [Edge("$" + child.name, child)] else []
  }

  function ChildEdges(g: Graph, tid: TypeId, registered: seq<TypeId>): seq<Edge> {
    if registered == [] then []
    else ChildEdges(g, tid, registered[..|registered| - 1]) + ChildEdge(g, tid, registered[|registered| - 1])
  }

  function AggregateEdge(tid: TypeId, pair: (TypeId, TypeId)): seq<Edge> {
    if pair.1 == tid then [Edge("$" + pair.0.name, pair.0)]
    else if pair.0 == tid then [Edge("$" + pair.1.name, pair.1)]
    else []
  }

  function AggregateEdges(tid: TypeId, aggregates: seq<(TypeId, TypeId)>): seq<Edge> {
    if aggregates == [] then []
    else AggregateEdges(tid, aggregates[..|aggregates| - 1]) + AggregateEdge(tid, aggregates[|aggregates| - 1])
  }

  function Edges(g: Graph, tid: TypeId): seq<Edge> {
    AttributeEdges(g, g.AttributesOf(tid)) + ChildEdges(g, tid, g.registered) + AggregateEdges(tid, g.aggregates)
  }

  lemma {:induction false} AttributeEdgesPrefix(g: Graph, attributes: seq<Attribute>, i: nat)
    requires i < |attributes|
    ensures AttributeEdges(g, attributes[..i + 1])
      == AttributeEdges(g, attributes[..i]) + AttributeEdge(g, attributes[i])
    ensures AttributeEdges(g, attributes[..i + 1]) <= AttributeEdges(g, attributes)
    decreases |attributes| - i
  {
    assert attributes[..i + 1][..i] == attributes[..i];
    if i + 1 < |attributes| {
      AttributeEdgesPrefix(g, attributes, i + 1);
    } else {
      assert attributes[..i + 1] == attributes;
    }
  }

  lemma {:induction false} ChildEdgesPrefix(g: Graph, tid: TypeId, registered: seq<TypeId>, j: nat)
    requires j < |registered|
    ensures ChildEdges(g, tid, registered[..j + 1])
      == ChildEdges(g, tid, registered[..j]) + ChildEdge(g, tid, registered[j])
    ensures ChildEdges(g, tid, registered[..j + 1]) <= ChildEdges(g, tid, registered)
    decreases |registered| - j
  {
    assert registered[..j + 1][..j] == registered[..j];
    if j + 1 < |registered| {
      ChildEdgesPrefix(g, tid, registered, j + 1);
    } else {
      assert registered[..j + 1] == registered;
    }
  }

  lemma {:induction false} AggregateEdgesPrefix(tid: TypeId, aggregates: seq<(TypeId, TypeId)>, j: nat)
    requires j < |aggregates|
    ensures AggregateEdges(tid, aggregates[..j + 1])
      == AggregateEdges(tid, aggregates[..j]) + AggregateEdge(tid, aggregates[j])
    ensures AggregateEdges(tid, aggregates[..j + 1]) <= AggregateEdges(tid, aggregates)
    decreases |aggregates| - j
  {
    assert aggregates[..j + 1][..j] == aggregates[..j];
    if j + 1 < |aggregates| {
      AggregateEdgesPrefix(tid, aggregates, j + 1);
    } else {
      assert aggregates[..j + 1] == aggregates;
    }
  }

  // ---------------------------------------------------------------------
  // Where the edges come from
  // ---------------------------------------------------------------------

  /** The entry of the registry that gives rise to an edge. */
  datatype Origin = FromAttribute(i: nat) | FromChild(i: nat) | FromAggregate(i: nat)
  {
    function Stage(): nat {
      if this.FromAttribute? then 0 else if this.FromChild? then 1 else 2
    }
  }

  /** Attributes come before children, children before aggregations, each in its own order. */
  ghost predicate Before(a: Origin, b: Origin) {
    a.Stage() < b.Stage() || (a.Stage() == b.Stage() && a.i < b.i)
  }

  /** The registry gives tid the edge e: a pointer attribute (but not one to the
      object type) under its name, a container attribute under its name and the
      index, a registered child or the other end of an aggregation under its
      type name behind a dollar. */
  ghost predicate Yields(g: Graph, tid: TypeId, origin: Origin, e: Edge) {
    match origin
    case FromAttribute(i) =>
      i < |g.AttributesOf(tid)| &&
      (match g.AttributesOf(tid)[i]
       case Pointer(name, pointee) => pointee != g.objectType && e.name == name && e.target == pointee
       case Container(name, item) => e.name == name + "/[i]" && e.target == item
       case Plain(_) => false)
    case FromChild(i) =>
      && i < |g.registered| && e.target == g.registered[i] && (e.target, tid) in g.childOf
      && e.name == "$" + e.target.name
    case FromAggregate(i) =>
      && i < |g.aggregates| && (g.aggregates[i] == (tid, e.target) || g.aggregates[i] == (e.target, tid))
      && e.name == "$" + e.target.name
  }

  /** Some entry of the registry gives tid the edge e. */
  ghost predicate HasEdge(g: Graph, tid: TypeId, e: Edge) {
    exists origin :: Yields(g, tid, origin, e)
  }

  /** The origins are those of the edges, in strictly increasing order. */
  ghost predicate Explains(g: Graph, tid: TypeId, origins: seq<Origin>, edges: seq<Edge>) {
    && |origins| == |edges|
    && (forall k :: 0 <= k < |edges| ==> Yields(g, tid, origins[k], edges[k]))
    && (forall j, k :: 0 <= j < k < |origins| ==> Before(origins[j], origins[k]))
  }

  /** Every origin of an edge of tid within the first n entries of a stage is listed. */
  ghost predicate ListsAll(g: Graph, tid: TypeId, origins: seq<Origin>, stage: nat, n: nat) {
    forall o, e :: Yields(g, tid, o, e) && o.Stage() == stage && o.i < n ==> o in origins
  }

  ghost predicate FromStage(origins: seq<Origin>, stage: nat, n: nat) {
    forall k :: 0 <= k < |origins| ==> origins[k].Stage() == stage && origins[k].i < n
  }

  /** One more entry of a stage, with the edges it gives (at most one). */
  lemma ExplainNext(g: Graph, tid: TypeId, origins: seq<Origin>, edges: seq<Edge>, o: Origin, found: seq<Edge>)
    returns (more: seq<Origin>)
    requires Explains(g, tid, origins, edges) && FromStage(origins, o.Stage(), o.i)
    requires ListsAll(g, tid, origins, o.Stage(), o.i)
    requires |found| <= 1 && forall e :: Yields(g, tid, o, e) <==> e in found
    ensures Explains(g, tid, more, edges + found) && FromStage(more, o.Stage(), o.i + 1)
    ensures ListsAll(g, tid, more, o.Stage(), o.i + 1)
  {
    more := if found == [] then origins else origins + [o];
    if found != [] {
      assert found[0] in found;
      assert edges + found == edges + [found[0]];
    } else {
      assert edges + found == edges;
    }
    forall p, e | Yields(g, tid, p, e) && p.Stage() == o.Stage() && p.i < o.i + 1 ensures p in more {
      if p.i == o.i {
        assert p == o && e in found;
        assert more[|origins|] == o;
      }
    }
  }

  lemma {:induction false} ExplainAttributes(g: Graph, tid: TypeId, n: nat) returns (origins: seq<Origin>)
    requires n <= |g.AttributesOf(tid)|
    ensures Explains(g, tid, origins, AttributeEdges(g, g.AttributesOf(tid)[..n]))
    ensures FromStage(origins, 0, n) && ListsAll(g, tid, origins, 0, n)
  {
    if n == 0 {
      origins := [];
    } else {
      var attributes := g.AttributesOf(tid);
      origins := ExplainAttributes(g, tid, n - 1);
      assert attributes[..n][..n - 1] == attributes[..n - 1];
      var found := AttributeEdge(g, attributes[n - 1]);
      forall e ensures Yields(g, tid, FromAttribute(n - 1), e) <==> e in found {
      }
      origins := ExplainNext(g, tid, origins, AttributeEdges(g, attributes[..n - 1]), FromAttribute(n - 1), found);
    }
  }

  lemma {:induction false} ExplainChildren(g: Graph, tid: TypeId, n: nat) returns (origins: seq<Origin>)
    requires n <= |g.registered|
    ensures Explains(g, tid, origins, ChildEdges(g, tid, g.registered[..n]))
    ensures FromStage(origins, 1, n) && ListsAll(g, tid, origins, 1, n)
  {
    if n == 0 {
      origins := [];
    } else {
      origins := ExplainChildren(g, tid, n - 1);
      assert g.registered[..n][..n - 1] == g.registered[..n - 1];
      var found := ChildEdge(g, tid, g.registered[n - 1]);
      forall e ensures Yields(g, tid, FromChild(n - 1), e) <==> e in found {
      }
      origins := ExplainNext(g, tid, origins, ChildEdges(g, tid, g.registered[..n - 1]), FromChild(n - 1), found);
    }
  }

  lemma {:induction false} ExplainAggregates(g: Graph, tid: TypeId, n: nat) returns (origins: seq<Origin>)
    requires n <= |g.aggregates|
    ensures Explains(g, tid, origins, AggregateEdges(tid, g.aggregates[..n]))
    ensures FromStage(origins, 2, n) && ListsAll(g, tid, origins, 2, n)
  {
    if n == 0 {
      origins := [];
    } else {
      origins := ExplainAggregates(g, tid, n - 1);
      assert g.aggregates[..n][..n - 1] == g.aggregates[..n - 1];
      var found := AggregateEdge(tid, g.aggregates[n - 1]);
      forall e ensures Yields(g, tid, FromAggregate(n - 1), e) <==> e in found {
      }
      origins := ExplainNext(g, tid, origins, AggregateEdges(tid, g.aggregates[..n - 1]), FromAggregate(n - 1), found);
    }
  }

  lemma ExplainConcat(g: Graph, tid: TypeId, a: seq<Origin>, x: seq<Edge>, b: seq<Origin>, y: seq<Edge>)
    requires Explains(g, tid, a, x) && Explains(g, tid, b, y)
    requires forall j, k :: 0 <= j < |a| && 0 <= k < |b| ==> a[j].Stage() < b[k].Stage()
    ensures Explains(g, tid, a + b, x + y)
  {
  }

  /** The edges of a type are exactly what the registry yields: each origin gives
      its edge once, and they come in the order of the three loops. */
  lemma EdgesExplained(g: Graph, tid: TypeId) returns (origins: seq<Origin>)
    ensures Explains(g, tid, origins, Edges(g, tid))
    ensures forall o, e :: Yields(g, tid, o, e) ==> o in origins
  {
    var attributes := g.AttributesOf(tid);
    var a := ExplainAttributes(g, tid, |attributes|);
    var b := ExplainChildren(g, tid, |g.registered|);
    var c := ExplainAggregates(g, tid, |g.aggregates|);
    assert attributes[..|attributes|] == attributes;
    assert g.registered[..|g.registered|] == g.registered;
    assert g.aggregates[..|g.aggregates|] == g.aggregates;
    var x, y := AttributeEdges(g, attributes), ChildEdges(g, tid, g.registered);
    ExplainConcat(g, tid, a, x, b, y);
    ExplainConcat(g, tid, a + b, x + y, c, AggregateEdges(tid, g.aggregates));
    origins := a + b + c;
    forall o, e | Yields(g, tid, o, e) ensures o in origins {
      assert o in a || o in b || o in c;
    }
  }

  /** tid has the edge e exactly when some entry of the registry yields it. */
  lemma EdgeIff(g: Graph, tid: TypeId, e: Edge)
    ensures e in Edges(g, tid) <==> HasEdge(g, tid, e)
  {
    var origins := EdgesExplained(g, tid);
    if origin :| Yields(g, tid, origin, e) {
      var k :| 0 <= k < |origins| && origins[k] == origin;
      YieldsOne(g, tid, origin, e, Edges(g, tid)[k]);
    }
    if e in Edges(g, tid) {
      var k :| 0 <= k < |Edges(g, tid)| && Edges(g, tid)[k] == e;
      assert Yields(g, tid, origins[k], e);
    }
  }

  lemma YieldsOne(g: Graph, tid: TypeId, origin: Origin, e: Edge, f: Edge)
    requires Yields(g, tid, origin, e) && Yields(g, tid, origin, f)
    ensures e == f
  {
  }

  // ---------------------------------------------------------------------
  // The finite universe of edge targets, and the measure of the walk
  // ---------------------------------------------------------------------

  ghost function Universe(g: Graph): set<TypeId> {
    (set t | t in g.registered)
    + (set t, k | t in g.attributes && 0 <= k < |g.attributes[t]| && g.attributes[t][k].Pointer? :: g.attributes[t][k].pointee)
    + (set t, k | t in g.attributes && 0 <= k < |g.attributes[t]| && g.attributes[t][k].Container? :: g.attributes[t][k].item)
    + (set k | 0 <= k < |g.aggregates| :: g.aggregates[k].0)
    + (set k | 0 <= k < |g.aggregates| :: g.aggregates[k].1)
  }

  lemma {:induction false} AttributeTargets(g: Graph, attributes: seq<Attribute>, e: Edge)
    requires e in AttributeEdges(g, attributes)
    ensures exists k :: 0 <= k < |attributes| && e in AttributeEdge(g, attributes[k])
  {
    var n := |attributes| - 1;
    if e in AttributeEdges(g, attributes[..n]) {
      AttributeTargets(g, attributes[..n], e);
      var k :| 0 <= k < n && e in AttributeEdge(g, attributes[..n][k]);
      assert attributes[..n][k] == attributes[k];
    }
  }

  lemma {:induction false} ChildTargets(g: Graph, tid: TypeId, registered: seq<TypeId>, e: Edge)
    requires e in ChildEdges(g, tid, registered)
    ensures e.target in registered
  {
    var n := |registered| - 1;
    if e in ChildEdges(g, tid, registered[..n]) {
      ChildTargets(g, tid, registered[..n], e);
    }
  }

  lemma {:induction false} AggregateTargets(tid: TypeId, aggregates: seq<(TypeId, TypeId)>, e: Edge)
    requires e in AggregateEdges(tid, aggregates)
    ensures exists k :: 0 <= k < |aggregates| && (e.target == aggregates[k].0 || e.target == aggregates[k].1)
  {
    var n := |aggregates| - 1;
    if e in AggregateEdges(tid, aggregates[..n]) {
      AggregateTargets(tid, aggregates[..n], e);
      var k :| 0 <= k < n && (e.target == aggregates[..n][k].0 || e.target == aggregates[..n][k].1);
      assert aggregates[..n][k] == aggregates[k];
    }
  }

  lemma TargetsAreKnown(g: Graph, tid: TypeId, e: Edge)
    requires e in Edges(g, tid)
    ensures e.target in Universe(g)
  {
    if e in AttributeEdges(g, g.AttributesOf(tid)) {
      AttributeTargets(g, g.AttributesOf(tid), e);
    } else if e in ChildEdges(g, tid, g.registered) {
      ChildTargets(g, tid, g.registered, e);
    } else {
      AggregateTargets(tid, g.aggregates, e);
    }
  }

  /** The registry as a labelled graph. */
  ghost function WebOf(g: Graph): (web: Web)
    ensures forall tid :: web.edges(tid) == Edges(g, tid)
  {
    assert forall t: TypeId, k: nat :: k < |Edges(g, t)| ==> Edges(g, t)[k].target in Universe(g) by {
      forall t: TypeId, k: nat | k < |Edges(g, t)|
        ensures Edges(g, t)[k].target in Universe(g)
      {
        TargetsAreKnown(g, t, Edges(g, t)[k]);
      }
    }
    Net(tid => Edges(g, tid), Universe(g))
  }
}
