/** Labelled directed graphs whose edges lie in a finite universe of types, and
    the depth-first walk through them.  Routes name edges by position, so two
    parallel edges give two routes even when their labels coincide. */
module Walks {
  import opened Sequences

  datatype TypeId = TypeId(name: string)

  datatype Edge = Edge(name: string, target: TypeId)

  datatype Net = Net(edges: TypeId -> seq<Edge>, universe: set<TypeId>)

  /** Every edge stays in the universe; cycles and parallel edges are allowed. */
  ghost predicate Closed(g: Net) {
    forall t: TypeId, k: nat :: k < |g.edges(t)| ==> g.edges(t)[k].target in g.universe
  }

  type Web = g: Net | Closed(g) witness Net(_ => [], {})

  /** The types that may still be entered from tid with the given stack. */
  ghost function Remaining(g: Web, tid: TypeId, stack: seq<TypeId>): set<TypeId> {
    (g.universe + {tid}) - (set t | t in stack)
  }

  /** Following an edge leaves strictly fewer types to enter. */
  lemma RemainingShrinks(g: Web, tid: TypeId, stack: seq<TypeId>, k: nat)
    requires tid !in stack && k < |g.edges(tid)|
    ensures Remaining(g, g.edges(tid)[k].target, stack + [tid]) < Remaining(g, tid, stack)
  {
    var less, more := Remaining(g, g.edges(tid)[k].target, stack + [tid]), Remaining(g, tid, stack);
    assert tid in more && tid in stack + [tid];
    assert tid !in less;
  }

  // ---------------------------------------------------------------------
  // Routes
  // ---------------------------------------------------------------------

  type Route = seq<nat>

  ghost predicate IsRoute(g: Web, tid: TypeId, r: Route)
    decreases |r|
  {
    r == [] || (r[0] < |g.edges(tid)| && IsRoute(g, g.edges(tid)[r[0]].target, r[1..]))
  }

  /** The types a route visits, its start included. */
  ghost function Visited(g: Web, tid: TypeId, r: Route): (types: seq<TypeId>)
    requires IsRoute(g, tid, r)
    ensures |types| == |r| + 1 && types[0] == tid
    decreases |r|
  {
    if r == [] then [tid] else [tid] + Visited(g, g.edges(tid)[r[0]].target, r[1..])
  }

  ghost function Labels(g: Web, tid: TypeId, r: Route): (labels: seq<string>)
    requires IsRoute(g, tid, r)
    ensures |labels| == |r|
    decreases |r|
  {
    if r == [] then []
    else
      var e := g.edges(tid)[r[0]];
      [e.name] + Labels(g, e.target, r[1..])
  }

  ghost function EndOf(g: Web, tid: TypeId, r: Route): TypeId
    requires IsRoute(g, tid, r)
  {
    var types := Visited(g, tid, r);
    types[|types| - 1]
  }

  /** A route that visits no type twice. */
  ghost predicate IsSimple(g: Web, tid: TypeId, r: Route) {
    IsRoute(g, tid, r) && Distinct(Visited(g, tid, r))
  }

  /** Edges with the given labels lead from each type to the next. */
  ghost predicate Linked(g: Web, types: seq<TypeId>, labels: seq<string>) {
    && |types| == |labels| + 1
    && forall i :: 0 <= i < |labels| ==> Edge(labels[i], types[i + 1]) in g.edges(types[i])
  }

  lemma {:induction false} RouteIsLinked(g: Web, tid: TypeId, r: Route)
    requires IsRoute(g, tid, r)
    ensures Linked(g, Visited(g, tid, r), Labels(g, tid, r))
    decreases |r|
  {
    if r != [] {
      var e := g.edges(tid)[r[0]];
      RouteIsLinked(g, e.target, r[1..]);
      var types, labels := Visited(g, tid, r), Labels(g, tid, r);
      forall i | 0 <= i < |labels| ensures Edge(labels[i], types[i + 1]) in g.edges(types[i]) {
        if i == 0 {
          assert Edge(labels[0], types[1]) == e;
        } else {
          assert types[i] == types[1..][i - 1] && types[i + 1] == types[1..][i] && labels[i] == labels[1..][i - 1];
        }
      }
    }
  }

  lemma {:induction false} LinkedHasRoute(g: Web, types: seq<TypeId>, labels: seq<string>) returns (r: Route)
    requires Linked(g, types, labels)
    ensures IsRoute(g, types[0], r) && Visited(g, types[0], r) == types && Labels(g, types[0], r) == labels
    decreases |labels|
  {
    if labels == [] {
      r := [];
    } else {
      var e := Edge(labels[0], types[1]);
      assert e in g.edges(types[0]);
      var k :| 0 <= k < |g.edges(types[0])| && g.edges(types[0])[k] == e;
      assert forall i :: 0 <= i < |labels[1..]| ==> labels[1..][i] == labels[i + 1] && types[1..][i + 1] == types[i + 2];
      var rest := LinkedHasRoute(g, types[1..], labels[1..]);
      r := [k] + rest;
      assert r[1..] == rest && types == [types[0]] + types[1..] && labels == [labels[0]] + labels[1..];
    }
  }

  ghost predicate Disjoint<T(!new)>(a: seq<T>, b: seq<T>) {
    forall i, j :: 0 <= i < |a| && 0 <= j < |b| ==> a[i] != b[j]
  }

  ghost predicate IsSimpleOff(g: Web, tid: TypeId, stack: seq<TypeId>, r: Route) {
    IsSimple(g, tid, r) && Disjoint(stack, Visited(g, tid, r))
  }

  ghost function Prefixed(k: nat, routes: seq<Route>): (result: seq<Route>)
    ensures |result| == |routes|
    ensures forall i :: 0 <= i < |routes| ==> result[i] == [k] + routes[i]
  {
    seq(|routes|, i requires 0 <= i < |routes| => [k] + routes[i])
  }

  /** The routes in the order in which the depth-first walk finds them. */
  ghost function Walk(g: Web, tid: TypeId, stack: seq<TypeId>): seq<Route>
    decreases Remaining(g, tid, stack), |g.edges(tid)| + 1
  {
    if tid in stack then [] else WalkUpTo(g, tid, stack, |g.edges(tid)|)
  }

  ghost function WalkUpTo(g: Web, tid: TypeId, stack: seq<TypeId>, n: nat): seq<Route>
    requires tid !in stack && n <= |g.edges(tid)|
    decreases Remaining(g, tid, stack), n
  {
    if n == 0 then [[]]
    else
      var e := g.edges(tid)[n - 1];
      RemainingShrinks(g, tid, stack, n - 1);
      WalkUpTo(g, tid, stack, n - 1) + Prefixed(n - 1, Walk(g, e.target, stack + [tid]))
  }

  // ---------------------------------------------------------------------
  // The walk finds exactly the simple routes, each once, in lexicographic order
  // ---------------------------------------------------------------------

  /** A nonempty route is simple off the stack when its tail is simple off the longer stack. */
  lemma {:induction false} SimpleTail(g: Web, tid: TypeId, stack: seq<TypeId>, r: Route)
    requires r != [] && IsRoute(g, tid, r)
    ensures IsSimpleOff(g, tid, stack, r) <==>
      tid !in stack && IsSimpleOff(g, g.edges(tid)[r[0]].target, stack + [tid], r[1..])
  {
    var rest := Visited(g, g.edges(tid)[r[0]].target, r[1..]);
    var all := Visited(g, tid, r);
    assert all == [tid] + rest;
    var longer := stack + [tid];
    assert forall i :: 0 <= i < |rest| ==> all[i + 1] == rest[i];
    assert forall i :: 0 <= i < |stack| ==> longer[i] == stack[i];
    assert longer[|stack|] == tid;
    if IsSimpleOff(g, tid, stack, r) {
      forall i, j | 0 <= i < j < |rest| ensures rest[i] != rest[j] {
        assert all[i + 1] != all[j + 1];
      }
      forall i, j | 0 <= i < |longer| && 0 <= j < |rest| ensures longer[i] != rest[j] {
        assert if i < |stack| then stack[i] != all[j + 1] else all[0] != all[j + 1];
      }
      assert forall i :: 0 <= i < |stack| ==> stack[i] != all[0];
    }
    if tid !in stack && IsSimpleOff(g, g.edges(tid)[r[0]].target, longer, r[1..]) {
      forall i, j | 0 <= i < j < |all| ensures all[i] != all[j] {
        assert all[j] == rest[j - 1];
        if i == 0 {
          assert longer[|stack|] != rest[j - 1];
        } else {
          assert all[i] == rest[i - 1];
        }
      }
      forall i, j | 0 <= i < |stack| && 0 <= j < |all| ensures stack[i] != all[j] {
        if j > 0 {
          assert longer[i] != rest[j - 1];
        }
      }
    }
  }

  /** The same, in the order in which a walk meets the types. */
  ghost predicate Avoids(g: Web, tid: TypeId, stack: seq<TypeId>, r: Route)
    decreases |r|
  {
    tid !in stack && (r == [] || AvoidsAfterEdge(g, tid, stack, r))
  }

  ghost predicate AvoidsAfterEdge(g: Web, tid: TypeId, stack: seq<TypeId>, r: Route)
    requires r != []
    decreases |r|, 0
  {
    r[0] < |g.edges(tid)| && Avoids(g, g.edges(tid)[r[0]].target, stack + [tid], r[1..])
  }

  lemma {:induction false} AvoidsIsSimple(g: Web, tid: TypeId, stack: seq<TypeId>, r: Route)
    ensures Avoids(g, tid, stack, r) <==> IsSimpleOff(g, tid, stack, r)
    decreases |r|
  {
    if r == [] {
      EmptyRouteIsSimple(g, tid, stack);
    } else if r[0] < |g.edges(tid)| {
      AvoidsIsSimple(g, g.edges(tid)[r[0]].target, stack + [tid], r[1..]);
      EdgeThenTail(g, tid, stack, r);
    }
  }

  lemma {:induction false} WalkFinds(g: Web, tid: TypeId, stack: seq<TypeId>, r: Route)
    ensures r in Walk(g, tid, stack) <==> Avoids(g, tid, stack, r)
    decreases Remaining(g, tid, stack), |g.edges(tid)| + 1
  {
    if tid !in stack {
      WalkUpToFinds(g, tid, stack, |g.edges(tid)|, r);
    }
  }

  lemma {:induction false} WalkUpToFinds(g: Web, tid: TypeId, stack: seq<TypeId>, n: nat, r: Route)
    requires tid !in stack && n <= |g.edges(tid)|
    ensures r in WalkUpTo(g, tid, stack, n) <==> r == [] || (r[0] < n && AvoidsAfterEdge(g, tid, stack, r))
    decreases Remaining(g, tid, stack), n
  {
    if n > 0 {
      RemainingShrinks(g, tid, stack, n - 1);
      WalkStep(g, tid, stack, n, r);
      WalkUpToFinds(g, tid, stack, n - 1, r);
      if r != [] && r[0] == n - 1 {
        WalkFinds(g, g.edges(tid)[n - 1].target, stack + [tid], r[1..]);
      }
    }
  }

  lemma EmptyRouteIsSimple(g: Web, tid: TypeId, stack: seq<TypeId>)
    ensures tid !in stack <==> IsSimpleOff(g, tid, stack, [])
  {
    assert Visited(g, tid, []) == [tid];
    if tid in stack {
      var i :| 0 <= i < |stack| && stack[i] == tid;
      assert stack[i] == Visited(g, tid, [])[0];
    }
  }

  lemma EdgeThenTail(g: Web, tid: TypeId, stack: seq<TypeId>, r: Route)
    requires r != [] && r[0] < |g.edges(tid)|
    ensures IsSimpleOff(g, tid, stack, r)
      <==> tid !in stack && IsSimpleOff(g, g.edges(tid)[r[0]].target, stack + [tid], r[1..])
  {
    if IsRoute(g, g.edges(tid)[r[0]].target, r[1..]) {
      SimpleTail(g, tid, stack, r);
    }
  }

  lemma WalkStep(g: Web, tid: TypeId, stack: seq<TypeId>, n: nat, r: Route)
    requires tid !in stack && 0 < n <= |g.edges(tid)|
    ensures r in WalkUpTo(g, tid, stack, n) <==>
      r in WalkUpTo(g, tid, stack, n - 1)
      || (r != [] && r[0] == n - 1 && r[1..] in Walk(g, g.edges(tid)[n - 1].target, stack + [tid]))
  {
    PrefixedMembers(n - 1, Walk(g, g.edges(tid)[n - 1].target, stack + [tid]), r);
  }

  lemma PrefixedMembers(k: nat, routes: seq<Route>, r: Route)
    ensures r in Prefixed(k, routes) <==> r != [] && r[0] == k && r[1..] in routes
  {
    var all := Prefixed(k, routes);
    if r in all {
      var i :| 0 <= i < |all| && all[i] == r;
      assert r[1..] == routes[i];
    }
    if r != [] && r[0] == k && r[1..] in routes {
      var i :| 0 <= i < |routes| && routes[i] == r[1..];
      assert all[i] == r;
    }
  }

  ghost predicate LexLess(a: Route, b: Route)
    decreases |a|
  {
    b != [] && (a == [] || a[0] < b[0] || (a[0] == b[0] && LexLess(a[1..], b[1..])))
  }

  ghost predicate LexSorted(routes: seq<Route>) {
    forall i, j :: 0 <= i < j < |routes| ==> LexLess(routes[i], routes[j])
  }

  lemma {:induction false} LexLessIrreflexive(a: Route)
    ensures !LexLess(a, a)
  {
    if a != [] {
      LexLessIrreflexive(a[1..]);
    }
  }

  lemma PrefixedSorted(k: nat, routes: seq<Route>)
    requires LexSorted(routes)
    ensures LexSorted(Prefixed(k, routes))
  {
    var all := Prefixed(k, routes);
    forall i, j | 0 <= i < j < |all| ensures LexLess(all[i], all[j]) {
      assert all[i][1..] == routes[i] && all[j][1..] == routes[j];
    }
  }

  lemma {:induction false} WalkIsSorted(g: Web, tid: TypeId, stack: seq<TypeId>)
    ensures LexSorted(Walk(g, tid, stack))
    decreases Remaining(g, tid, stack), |g.edges(tid)| + 1
  {
    if tid !in stack {
      WalkUpToIsSorted(g, tid, stack, |g.edges(tid)|);
    }
  }

  lemma {:induction false} WalkUpToIsSorted(g: Web, tid: TypeId, stack: seq<TypeId>, n: nat)
    requires tid !in stack && n <= |g.edges(tid)|
    ensures LexSorted(WalkUpTo(g, tid, stack, n))
    decreases Remaining(g, tid, stack), n
  {
    if n > 0 {
      assert LexSorted(Walk(g, g.edges(tid)[n - 1].target, stack + [tid])) by {
        RemainingShrinks(g, tid, stack, n - 1);
        WalkIsSorted(g, g.edges(tid)[n - 1].target, stack + [tid]);
      }
      WalkUpToIsSorted(g, tid, stack, n - 1);
      SortedStep(g, tid, stack, n);
    }
  }

  lemma SortedStep(g: Web, tid: TypeId, stack: seq<TypeId>, n: nat)
    requires tid !in stack && 0 < n <= |g.edges(tid)|
    requires LexSorted(WalkUpTo(g, tid, stack, n - 1))
    requires LexSorted(Walk(g, g.edges(tid)[n - 1].target, stack + [tid]))
    ensures LexSorted(WalkUpTo(g, tid, stack, n))
  {
    WalkUpToHeads(g, tid, stack, n - 1);
    SortedJoin(WalkUpTo(g, tid, stack, n - 1), n - 1, Walk(g, g.edges(tid)[n - 1].target, stack + [tid]));
  }

  ghost predicate HeadsBelow(routes: seq<Route>, k: nat) {
    forall i :: 0 <= i < |routes| ==> routes[i] == [] || routes[i][0] < k
  }

  lemma {:induction false} WalkUpToHeads(g: Web, tid: TypeId, stack: seq<TypeId>, n: nat)
    requires tid !in stack && n <= |g.edges(tid)|
    ensures HeadsBelow(WalkUpTo(g, tid, stack, n), n)
  {
    var routes := WalkUpTo(g, tid, stack, n);
    forall i | 0 <= i < |routes| ensures routes[i] == [] || routes[i][0] < n {
      WalkUpToFinds(g, tid, stack, n, routes[i]);
    }
  }

  lemma SortedJoin(before: seq<Route>, k: nat, found: seq<Route>)
    requires LexSorted(before) && LexSorted(found) && HeadsBelow(before, k)
    ensures LexSorted(before + Prefixed(k, found))
  {
    PrefixedSorted(k, found);
  }

  /** The walk from a root: exactly the simple routes, none twice. */
  lemma {:induction false} WalkFromRoot(g: Web, root: TypeId)
    ensures forall r :: r in Walk(g, root, []) <==> IsSimple(g, root, r)
    ensures Distinct(Walk(g, root, []))
  {
    forall r ensures r in Walk(g, root, []) <==> IsSimple(g, root, r) {
      WalkFinds(g, root, [], r);
      AvoidsIsSimple(g, root, [], r);
    }
    WalkIsSorted(g, root, []);
    var routes := Walk(g, root, []);
    forall i, j | 0 <= i < j < |routes| ensures routes[i] != routes[j] {
      LexLessIrreflexive(routes[i]);
    }
  }
}
