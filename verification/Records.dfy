/** What the gathering walk records: one (type, path) pair for each route. */
module Records {
  import opened Walks

  /** One recorded pair: a type and the path that leads to it. */
  type Record = (TypeId, string)

  function RenderPath(labels: seq<string>): string {
    if labels == [] then "" else RenderPath(labels[..|labels| - 1]) + "/" + labels[|labels| - 1]
  }

  /** Every name stands behind a slash, the first one included. */
  lemma {:induction false} RenderPathCons(name: string, rest: seq<string>)
    ensures RenderPath([name] + rest) == "/" + name + RenderPath(rest)
    decreases |rest|
  {
    if rest == [] {
      assert [name] + rest == [name] && [name][..0] == [];
    } else {
      var labels, n := [name] + rest, |rest| - 1;
      assert labels[..|labels| - 1] == [name] + rest[..n];
      RenderPathCons(name, rest[..n]);
    }
  }

  /** The record of a route that starts at tid when path is already on the stack. */
  ghost function RecordOf(g: Web, tid: TypeId, path: seq<string>, r: Route): Record {
    if IsRoute(g, tid, r) then (EndOf(g, tid, r), RenderPath(path + Labels(g, tid, r))) else (TypeId(""), "")
  }

  ghost function RecordsOf(g: Web, tid: TypeId, path: seq<string>, routes: seq<Route>): (records: seq<Record>)
    ensures |records| == |routes|
  {
    if routes == [] then []
    else RecordsOf(g, tid, path, routes[..|routes| - 1]) + [RecordOf(g, tid, path, routes[|routes| - 1])]
  }

  lemma {:induction false} RecordsOfAt(g: Web, tid: TypeId, path: seq<string>, routes: seq<Route>, i: nat)
    requires i < |routes|
    ensures RecordsOf(g, tid, path, routes)[i] == RecordOf(g, tid, path, routes[i])
  {
    if i < |routes| - 1 {
      RecordsOfAt(g, tid, path, routes[..|routes| - 1], i);
    }
  }

  /** What DoGather(tid) must append, given both stacks, ... */
  ghost function Gathered(g: Web, tid: TypeId, path: seq<string>, stack: seq<TypeId>): seq<Record>
    decreases Remaining(g, tid, stack), |g.edges(tid)| + 1
  {
    if tid in stack then [] else GatheredUpTo(g, tid, path, stack, |g.edges(tid)|)
  }

  /** ... and what it has appended once its first n edges are done. */
  ghost function GatheredUpTo(g: Web, tid: TypeId, path: seq<string>, stack: seq<TypeId>, n: nat): seq<Record>
    requires tid !in stack && n <= |g.edges(tid)|
    decreases Remaining(g, tid, stack), n
  {
    if n == 0 then [(tid, RenderPath(path))]
    else
      var e := g.edges(tid)[n - 1];
      RemainingShrinks(g, tid, stack, n - 1);
      GatheredUpTo(g, tid, path, stack, n - 1) + Gathered(g, e.target, path + [e.name], stack + [tid])
  }

  lemma RecordThroughEdge(g: Web, tid: TypeId, path: seq<string>, n: nat, r: Route)
    requires n < |g.edges(tid)|
    ensures RecordOf(g, tid, path, [n] + r)
      == RecordOf(g, g.edges(tid)[n].target, path + [g.edges(tid)[n].name], r)
  {
    var e, through := g.edges(tid)[n], [n] + r;
    assert through[1..] == r;
    if IsRoute(g, e.target, r) {
      assert Visited(g, tid, through) == [tid] + Visited(g, e.target, r);
      assert path + Labels(g, tid, through) == (path + [e.name]) + Labels(g, e.target, r);
    }
  }

  lemma {:induction false} RecordsOfConcat(g: Web, tid: TypeId, path: seq<string>, a: seq<Route>, b: seq<Route>)
    ensures RecordsOf(g, tid, path, a + b) == RecordsOf(g, tid, path, a) + RecordsOf(g, tid, path, b)
  {
    if b == [] {
      assert a + b == a;
    } else {
      assert (a + b)[..|a + b| - 1] == a + b[..|b| - 1];
      RecordsOfConcat(g, tid, path, a, b[..|b| - 1]);
    }
  }

  /** The records of routes through edge n are those of the routes behind it. */
  lemma {:induction false} RecordsThroughEdge(g: Web, tid: TypeId, path: seq<string>, n: nat, routes: seq<Route>)
    requires n < |g.edges(tid)|
    ensures RecordsOf(g, tid, path, Prefixed(n, routes))
      == RecordsOf(g, g.edges(tid)[n].target, path + [g.edges(tid)[n].name], routes)
  {
    if routes != [] {
      var last := |routes| - 1;
      RecordsThroughEdge(g, tid, path, n, routes[..last]);
      RecordThroughEdge(g, tid, path, n, routes[last]);
      assert Prefixed(n, routes)[..last] == Prefixed(n, routes[..last]);
    }
  }

  lemma {:induction false} RecordOfEmptyRoute(g: Web, tid: TypeId, path: seq<string>)
    ensures RecordsOf(g, tid, path, [[]]) == [(tid, RenderPath(path))]
  {
    assert path + Labels(g, tid, []) == path;
    var routes: seq<Route> := [[]];
    assert routes[..0] == [];
  }

  /** The output is the list of records of the routes of the walk. */
  lemma {:induction false} GatheredIsWalk(g: Web, tid: TypeId, path: seq<string>, stack: seq<TypeId>)
    ensures Gathered(g, tid, path, stack) == RecordsOf(g, tid, path, Walk(g, tid, stack))
    decreases Remaining(g, tid, stack), |g.edges(tid)| + 1
  {
    if tid !in stack {
      GatheredUpToIsWalk(g, tid, path, stack, |g.edges(tid)|);
    }
  }

  lemma {:induction false} GatheredUpToIsWalk(g: Web, tid: TypeId, path: seq<string>, stack: seq<TypeId>, n: nat)
    requires tid !in stack && n <= |g.edges(tid)|
    ensures GatheredUpTo(g, tid, path, stack, n) == RecordsOf(g, tid, path, WalkUpTo(g, tid, stack, n))
    decreases Remaining(g, tid, stack), n
  {
    if n == 0 {
      RecordOfEmptyRoute(g, tid, path);
    } else {
      var e := g.edges(tid)[n - 1];
      RemainingShrinks(g, tid, stack, n - 1);
      GatheredIsWalk(g, e.target, path + [e.name], stack + [tid]);
      GatheredUpToIsWalk(g, tid, path, stack, n - 1);
      RecordsStep(g, tid, path, stack, n);
    }
  }

  /** The records of the walk grow by those of the routes through the next edge. */
  lemma RecordsStep(g: Web, tid: TypeId, path: seq<string>, stack: seq<TypeId>, n: nat)
    requires tid !in stack && 0 < n <= |g.edges(tid)|
    ensures RecordsOf(g, tid, path, WalkUpTo(g, tid, stack, n)) == RecordsOf(g, tid, path, WalkUpTo(g, tid, stack, n - 1))
      + RecordsOf(g, g.edges(tid)[n - 1].target, path + [g.edges(tid)[n - 1].name],
                  Walk(g, g.edges(tid)[n - 1].target, stack + [tid]))
  {
    var before, found := WalkUpTo(g, tid, stack, n - 1), Walk(g, g.edges(tid)[n - 1].target, stack + [tid]);
    assert WalkUpTo(g, tid, stack, n) == before + Prefixed(n - 1, found);
    RecordsThroughEdge(g, tid, path, n - 1, found);
    RecordsOfConcat(g, tid, path, before, Prefixed(n - 1, found));
  }

  /** A configuration path of tid: the labels of a simple route from a root to it. */
  ghost predicate IsConfigPath(g: Web, roots: seq<TypeId>, tid: TypeId, path: string) {
    exists root, r :: root in roots && IsSimple(g, root, r) && EndOf(g, root, r) == tid
                      && path == RenderPath(Labels(g, root, r))
  }

  lemma {:induction false} GatheredFromRoot(g: Web, root: TypeId, record: Record)
    ensures record in Gathered(g, root, [], []) <==>
      exists r :: IsSimple(g, root, r) && EndOf(g, root, r) == record.0 && record.1 == RenderPath(Labels(g, root, r))
  {
    var routes, records := Walk(g, root, []), Gathered(g, root, [], []);
    WalkFromRoot(g, root);
    GatheredIsWalk(g, root, [], []);
    if record in records {
      var i :| 0 <= i < |records| && records[i] == record;
      assert routes[i] in routes;
      RecordsOfAt(g, root, [], routes, i);
      assert [] + Labels(g, root, routes[i]) == Labels(g, root, routes[i]);
    }
    forall r | IsSimple(g, root, r) && EndOf(g, root, r) == record.0 && record.1 == RenderPath(Labels(g, root, r))
      ensures record in records
    {
      assert r in routes;
      var i :| 0 <= i < |routes| && routes[i] == r;
      assert [] + Labels(g, root, r) == Labels(g, root, r);
      RecordsOfAt(g, root, [], routes, i);
      assert records[i] == record;
    }
  }

  /** The paths recorded for a type, in order. */
  ghost function PathsTo(records: seq<Record>, tid: TypeId): seq<string> {
    if records == [] then []
    else
      var n := |records| - 1;
      if records[n].0 == tid then PathsTo(records[..n], tid) + [records[n].1] else PathsTo(records[..n], tid)
  }

  lemma {:induction false} PathsToMembers(records: seq<Record>, tid: TypeId, path: string)
    ensures path in PathsTo(records, tid) <==> (tid, path) in records
  {
    if records != [] {
      var n := |records| - 1;
      PathsToMembers(records[..n], tid, path);
      assert records == records[..n] + [records[n]];
    }
  }

  /** What gathering from one root after the other records. */
  ghost function GatheredFrom(g: Web, roots: seq<TypeId>): seq<Record> {
    if roots == [] then [] else GatheredFrom(g, roots[..|roots| - 1]) + Gathered(g, roots[|roots| - 1], [], [])
  }

  lemma {:induction false} GatheredFromRoots(g: Web, roots: seq<TypeId>, record: Record)
    ensures record in GatheredFrom(g, roots) <==> IsConfigPath(g, roots, record.0, record.1)
  {
    if roots != [] {
      var n := |roots| - 1;
      GatheredFromRoots(g, roots[..n], record);
      GatheredFromRoot(g, roots[n], record);
      assert roots == roots[..n] + [roots[n]];
    }
  }
}
