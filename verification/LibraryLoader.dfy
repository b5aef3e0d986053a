/** The imperative half of sort_to_dependencies: nested loops and a recursion
    over lists that are changed in place. */
module LibraryLoader {
  import opened Layers
  import opened Sequences

  /** The elements of s that lie in the set, in the order of s. */
  ghost function Keep(s: seq<Library>, keep: set<Library>): seq<Library> {
    if s == [] then []
    else
      var n := |s| - 1;
      if s[n] in keep then Keep(s[..n], keep) + [s[n]] else Keep(s[..n], keep)
  }

  lemma {:induction false} KeepMembers(s: seq<Library>, keep: set<Library>)
    ensures forall x :: x in Keep(s, keep) <==> x in s && x in keep
  {
    if s != [] {
      KeepMembers(s[..|s| - 1], keep);
      assert s == s[..|s| - 1] + [s[|s| - 1]];
    }
  }

  lemma {:induction false} KeepKeep(s: seq<Library>, a: set<Library>, b: set<Library>)
    ensures Keep(Keep(s, a), b) == Keep(s, a * b)
  {
    if s != [] {
      var n := |s| - 1;
      KeepKeep(s[..n], a, b);
      if s[n] in a {
        var inner := Keep(s[..n], a) + [s[n]];
        assert inner[..|inner| - 1] == Keep(s[..n], a);
      }
    }
  }

  lemma {:induction false} KeepAll(s: seq<Library>, a: set<Library>)
    requires forall x :: x in s ==> x in a
    ensures Keep(s, a) == s
  {
    if s != [] {
      KeepAll(s[..|s| - 1], a);
    }
  }

  lemma {:induction false} KeepNone(s: seq<Library>, a: set<Library>)
    requires forall x :: x in s ==> x !in a
    ensures Keep(s, a) == []
  {
    if s != [] {
      KeepNone(s[..|s| - 1], a);
    }
  }

  /** list.remove. */
  function RemoveFirst(s: seq<Library>, x: Library): seq<Library> {
    if s == [] then []
    else if s[0] == x then s[1..]
    else [s[0]] + RemoveFirst(s[1..], x)
  }

  lemma {:induction false} RemoveFirstAbsent(s: seq<Library>, x: Library)
    requires x !in s
    ensures RemoveFirst(s, x) == s
  {
    if s != [] {
      RemoveFirstAbsent(s[1..], x);
    }
  }

  lemma {:induction false} RemoveFirstAppend(s: seq<Library>, y: Library, x: Library)
    ensures x in s ==> RemoveFirst(s + [y], x) == RemoveFirst(s, x) + [y]
    ensures x !in s && x == y ==> RemoveFirst(s + [y], x) == s
    ensures x !in s && x != y ==> RemoveFirst(s + [y], x) == s + [y]
  {
    if s == [] {
      assert s + [y] == [y];
      assert RemoveFirst([y], x) == if x == y then [] else [y];
    } else {
      assert (s + [y])[0] == s[0] && (s + [y])[1..] == s[1..] + [y];
      if s[0] != x {
        assert s == [s[0]] + s[1..];
        assert x in s <==> x in s[1..];
        RemoveFirstAppend(s[1..], y, x);
      }
    }
  }

  /** Removing a library from what is kept of a list without repetition. */
  lemma {:induction false} RemoveKept(s: seq<Library>, a: set<Library>, x: Library)
    requires Distinct(s)
    ensures RemoveFirst(Keep(s, a), x) == Keep(s, a - {x})
  {
    if s != [] {
      var front, last := s[..|s| - 1], s[|s| - 1];
      var kept := Keep(front, a);
      RemoveKept(front, a, x);
      RemoveFirstAppend(kept, last, x);
      if x !in kept {
        RemoveFirstAbsent(kept, x);
      } else {
        KeepMembers(front, a);
        assert last !in front;
      }
    }
  }

  // ---------------------------------------------------------------------
  // The loader
  // ---------------------------------------------------------------------

  /** The keys of the dictionary in insertion order, and the dictionary. */
  ghost predicate IsDictionary(order: seq<Library>, deps: Dependencies) {
    Distinct(order) && SetOf(order) == deps.Keys
  }

  /** The libraries that step k loads, in list order. */
  ghost function Layer(order: seq<Library>, deps: Dependencies, k: nat): seq<Library> {
    Keep(order, Loaded(deps, k + 1) - Loaded(deps, k))
  }

  ghost function LayersUpTo(order: seq<Library>, deps: Dependencies, k: nat): seq<seq<Library>> {
    seq(k, i requires i >= 0 => Layer(order, deps, i))
  }

  ghost predicate AllLoaded(deps: Dependencies, k: nat) {
    Loaded(deps, k) == deps.Keys
  }

  method ModulesThatCanBeLoaded(deps: Dependencies, pending: seq<Library>, current: seq<Library>)
    returns (modules: seq<Library>)
    requires forall m :: m in pending ==> m in deps
    ensures modules == Keep(pending, Ready(deps, SetOf(current)))
  {
    modules := [];
    for i := 0 to |pending|
      invariant modules == Keep(pending[..i], Ready(deps, SetOf(current)))
    {
      var canBeLoaded := true;
      var needed := deps[pending[i]];
      for j := 0 to |needed|
        invariant canBeLoaded <==> SetOf(needed[..j]) <= SetOf(current)
      {
        assert needed[..j + 1] == needed[..j] + [needed[j]];
        assert needed[j] in SetOf(needed[..j + 1]);
        if needed[j] !in current {
          canBeLoaded := false;
          assert needed[j] in SetOf(needed);
          break;
        }
      }
      if canBeLoaded {
        assert needed[..|needed|] == needed;
        modules := modules + [pending[i]];
      }
      assert canBeLoaded <==> SetOf(needed) <= SetOf(current);
      assert pending[..i + 1][..i] == pending[..i];
    }
    assert pending[..|pending|] == pending;
  }

  class Loader {
    var pending: seq<Library>
    var current: seq<Library>
    var steps: seq<seq<Library>>

    constructor (order: seq<Library>)
      ensures pending == order && current == [] && steps == []
    {
      pending, current, steps := order, [], [];
    }

    /** Exactly k steps have been done. */
    ghost predicate AtStep(order: seq<Library>, deps: Dependencies, k: nat)
      reads this
    {
      && pending == Keep(order, deps.Keys - Loaded(deps, k))
      && SetOf(current) == Loaded(deps, k)
      && steps == LayersUpTo(order, deps, k)
    }

    /** The call with everything pending. */
    method Start(order: seq<Library>, deps: Dependencies, frames: nat) returns (finished: bool, ghost n: nat)
      requires IsDictionary(order, deps) && AtStep(order, deps, 0)
      modifies this
      ensures AtStep(order, deps, n)
      ensures finished <==> AllLoaded(deps, frames)
      ensures finished ==> AllLoaded(deps, n)
      ensures finished ==> forall l :: 0 <= l < n ==> !AllLoaded(deps, l)
    {
      finished, n := DependencyOrder(order, deps, frames, 0);
    }

    /** The inner loop: the ready libraries move, one by one, from pending to
        current and to the new entry of steps. */
    method MoveReady(order: seq<Library>, ready: seq<Library>, ghost rest: set<Library>)
      requires Distinct(order) && pending == Keep(order, rest)
      modifies this
      ensures pending == Keep(order, rest - SetOf(ready))
      ensures current == old(current) + ready
      ensures steps == old(steps) + [ready]
    {
      var step := |steps|;
      steps := steps + [[]];
      assert rest - SetOf(ready[..0]) == rest;
      for i := 0 to |ready|
        invariant steps == old(steps) + [ready[..i]]
        invariant current == old(current) + ready[..i]
        invariant pending == Keep(order, rest - SetOf(ready[..i]))
      {
        var m := ready[i];
        assert ready[..i + 1] == ready[..i] + [m];
        RemoveKept(order, rest - SetOf(ready[..i]), m);
        assert rest - SetOf(ready[..i]) - {m} == rest - SetOf(ready[..i + 1]);
        steps := steps[step := steps[step] + [m]];
        pending := RemoveFirst(pending, m);
        current := current + [m];
      }
      assert ready[..|ready|] == ready;
    }

    /** One step: everything that can be loaded moves from pending to current. */
    method DoStep(order: seq<Library>, deps: Dependencies, ghost k: nat)
      requires IsDictionary(order, deps) && AtStep(order, deps, k)
      modifies this
      ensures AtStep(order, deps, k + 1)
    {
      KeepMembers(order, deps.Keys - Loaded(deps, k));
      var ready := ModulesThatCanBeLoaded(deps, pending, current);
      StepSets(order, deps, k);
      MoveReady(order, ready, deps.Keys - Loaded(deps, k));
      SetOfConcat(old(current), ready);
      assert steps == LayersUpTo(order, deps, k + 1);
    }

    /** The recursion.  frames is the number of nested calls Python still
        allows; finished is false when they run out (RecursionError).  On
        return, n steps have been done. */
    method DependencyOrder(order: seq<Library>, deps: Dependencies, frames: nat, ghost k: nat)
      returns (finished: bool, ghost n: nat)
      requires IsDictionary(order, deps) && AtStep(order, deps, k)
      modifies this
      ensures AtStep(order, deps, n)
      ensures finished <==> AllLoaded(deps, k + frames)
      ensures finished ==> k <= n <= k + frames && AllLoaded(deps, n)
      ensures finished ==> forall l :: k <= l < n ==> !AllLoaded(deps, l)
      ensures !finished ==> n == k + frames + 1
      decreases frames
    {
      PendingEmptyIff(order, deps, k);
      if |pending| == 0 {
        AllLoadedStays(deps, k, k + frames);
        return true, k;
      }
      DoStep(order, deps, k);
      if frames == 0 {
        return false, k + 1;
      }
      finished, n := DependencyOrder(order, deps, frames - 1, k + 1);
      assert (k + 1) + (frames - 1) == k + frames;
    }
  }

  lemma AllLoadedStays(deps: Dependencies, k: nat, l: nat)
    requires k <= l && AllLoaded(deps, k)
    ensures AllLoaded(deps, l)
  {
    LoadedGrowsTo(deps, k, l);
    LoadedGrows(deps, l);
  }

  lemma StepSets(order: seq<Library>, deps: Dependencies, k: nat)
    requires IsDictionary(order, deps)
    ensures var loaded, next := Loaded(deps, k), Loaded(deps, k + 1);
      && next == Ready(deps, loaded)
      && Keep(Keep(order, deps.Keys - loaded), next) == Layer(order, deps, k)
      && loaded + SetOf(Layer(order, deps, k)) == next
      && deps.Keys - loaded - SetOf(Layer(order, deps, k)) == deps.Keys - next
  {
    var loaded, next := Loaded(deps, k), Loaded(deps, k + 1);
    LoadedGrows(deps, k);
    KeepKeep(order, deps.Keys - loaded, next);
    assert (deps.Keys - loaded) * next == next - loaded;
    KeepMembers(order, next - loaded);
    assert SetOf(Layer(order, deps, k)) == next - loaded by {
      assert forall m :: m in order <==> m in SetOf(order);
    }
  }

  lemma {:induction false} PendingEmptyIff(order: seq<Library>, deps: Dependencies, k: nat)
    requires IsDictionary(order, deps)
    ensures Keep(order, deps.Keys - Loaded(deps, k)) == [] <==> AllLoaded(deps, k)
  {
    LoadedGrows(deps, k);
    KeepMembers(order, deps.Keys - Loaded(deps, k));
    var rest := Keep(order, deps.Keys - Loaded(deps, k));
    if rest == [] {
      forall m | m in deps.Keys ensures m in Loaded(deps, k) {
        assert m in SetOf(order);
        assert m !in rest;
      }
    } else {
      assert rest[0] in rest;
    }
  }

  // ---------------------------------------------------------------------
  // The sorted list
  // ---------------------------------------------------------------------

  function Flatten(steps: seq<seq<Library>>): seq<Library> {
    if steps == [] then [] else Flatten(steps[..|steps| - 1]) + steps[|steps| - 1]
  }

  /** Every dependency comes earlier in the list. */
  ghost predicate IsTopological(deps: Dependencies, s: seq<Library>) {
    forall i, d :: 0 <= i < |s| && s[i] in deps && d in deps[s[i]] ==> d in s[..i]
  }

  lemma {:induction false} KeepUnion(s: seq<Library>, a: set<Library>, b: set<Library>)
    requires a !! b
    ensures multiset(Keep(s, a + b)) == multiset(Keep(s, a)) + multiset(Keep(s, b))
  {
    if s != [] {
      KeepUnion(s[..|s| - 1], a, b);
    }
  }

  lemma {:induction false} ContentsStep(order: seq<Library>, flat: seq<Library>, loaded: set<Library>, next: set<Library>)
    requires loaded <= next && multiset(flat) == multiset(Keep(order, loaded))
    ensures multiset(flat + Keep(order, next - loaded)) == multiset(Keep(order, next))
  {
    KeepUnion(order, loaded, next - loaded);
    assert loaded + (next - loaded) == next;
  }

  lemma FlatLayersStep(order: seq<Library>, deps: Dependencies, n: nat)
    ensures Flatten(LayersUpTo(order, deps, n + 1)) == Flatten(LayersUpTo(order, deps, n)) + Layer(order, deps, n)
  {
    assert LayersUpTo(order, deps, n + 1)[..n] == LayersUpTo(order, deps, n);
  }

  /** The first n layers list exactly the libraries loaded in n steps, ... */
  lemma {:induction false} FlatLayersContents(order: seq<Library>, deps: Dependencies, n: nat)
    requires IsDictionary(order, deps)
    ensures multiset(Flatten(LayersUpTo(order, deps, n))) == multiset(Keep(order, Loaded(deps, n)))
  {
    if n == 0 {
      KeepNone(order, {});
    } else {
      FlatLayersContents(order, deps, n - 1);
      FlatLayersStep(order, deps, n - 1);
      LoadedGrows(deps, n - 1);
      ContentsStep(order, Flatten(LayersUpTo(order, deps, n - 1)), Loaded(deps, n - 1), Loaded(deps, n));
    }
  }

  /** ... each after all its dependencies. */
  lemma {:induction false} FlatLayersTopological(order: seq<Library>, deps: Dependencies, n: nat)
    requires IsDictionary(order, deps)
    ensures SetOf(Flatten(LayersUpTo(order, deps, n))) == Loaded(deps, n)
    ensures IsTopological(deps, Flatten(LayersUpTo(order, deps, n)))
  {
    if n > 0 {
      var before, layer := Flatten(LayersUpTo(order, deps, n - 1)), Layer(order, deps, n - 1);
      FlatLayersTopological(order, deps, n - 1);
      FlatLayersStep(order, deps, n - 1);
      StepSets(order, deps, n - 1);
      SetOfConcat(before, layer);
      LayerKeepsTopological(deps, before, layer, Loaded(deps, n - 1));
    }
  }

  lemma SetOfConcat(a: seq<Library>, b: seq<Library>)
    ensures SetOf(a + b) == SetOf(a) + SetOf(b)
  {
  }

  lemma LayerKeepsTopological(deps: Dependencies, before: seq<Library>, layer: seq<Library>, loaded: set<Library>)
    requires IsTopological(deps, before) && SetOf(before) == loaded
    requires SetOf(layer) <= Ready(deps, loaded)
    ensures IsTopological(deps, before + layer)
  {
    var s := before + layer;
    forall i, d | 0 <= i < |s| && s[i] in deps && d in deps[s[i]] ensures d in s[..i] {
      if i < |before| {
        assert s[i] == before[i] && s[..i] == before[..i];
      } else {
        assert s[i] == layer[i - |before|] && s[i] in SetOf(layer);
        assert d in SetOf(deps[s[i]]);
        assert d in SetOf(before);
        assert s[..i] == before + layer[..i - |before|];
      }
    }
  }

  /** The layers one after the other, no more of them than libraries. */
  ghost predicate IsLayered(order: seq<Library>, deps: Dependencies, s: seq<Library>) {
    exists n: nat :: n <= |deps| && s == Flatten(LayersUpTo(order, deps, n))
  }

  /** sort_to_dependencies.  It finishes exactly when the frames suffice to
      load everything; as soon as there are as many frames as libraries, that
      is exactly when no library is absent and no dependency chain is a cycle. */
  method SortToDependencies(order: seq<Library>, deps: Dependencies, frames: nat)
    returns (finished: bool, sorted: seq<Library>)
    requires IsDictionary(order, deps)
    ensures finished <==> AllLoaded(deps, frames)
    ensures frames >= |deps| ==> (finished <==> NoneAbsent(deps) && Acyclic(deps))
    ensures finished ==> multiset(sorted) == multiset(order)
    ensures finished ==> IsTopological(deps, sorted)
    ensures finished ==> IsLayered(order, deps, sorted)
  {
    var loader := new Loader(order);
    assert loader.AtStep(order, deps, 0) by {
      assert forall m :: m in order ==> m in SetOf(order);
      KeepAll(order, deps.Keys - Loaded(deps, 0));
      assert SetOf(loader.current) == {};
      assert LayersUpTo(order, deps, 0) == [];
    }
    ghost var n;
    finished, n := loader.Start(order, deps, frames);
    EnoughFrames(deps, frames);
    sorted := [];
    if finished {
      sorted := Concatenate(loader.steps);
      FullLayers(order, deps, n);
    }
  }

  method Concatenate(steps: seq<seq<Library>>) returns (sorted: seq<Library>)
    ensures sorted == Flatten(steps)
  {
    sorted := [];
    for i := 0 to |steps|
      invariant sorted == Flatten(steps[..i])
    {
      sorted := sorted + steps[i];
      assert steps[..i + 1][..i] == steps[..i];
    }
    assert steps[..|steps|] == steps;
  }

  lemma EnoughFrames(deps: Dependencies, frames: nat)
    ensures frames >= |deps| ==> (AllLoaded(deps, frames) <==> NoneAbsent(deps) && Acyclic(deps))
  {
    LoadsAllIff(deps);
    if frames >= |deps| {
      FixedAfterSize(deps, frames);
    }
  }

  lemma FullLayers(order: seq<Library>, deps: Dependencies, n: nat)
    requires IsDictionary(order, deps) && AllLoaded(deps, n)
    requires forall l :: 0 <= l < n ==> !AllLoaded(deps, l)
    ensures var s := Flatten(LayersUpTo(order, deps, n));
      multiset(s) == multiset(order) && IsTopological(deps, s) && IsLayered(order, deps, s)
  {
    FlatLayersContents(order, deps, n);
    FlatLayersTopological(order, deps, n);
    KeepAll(order, deps.Keys);
    if n > |deps| {
      FixedAfterSize(deps, n);
      assert AllLoaded(deps, |deps|);
    }
  }
}
