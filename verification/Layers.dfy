/** sort_to_dependencies of bindings/python/ns__init__.py: libraries are loaded
    in steps, each step taking every pending library whose dependencies are all
    loaded.  The recursion has no test for lack of progress, so on some maps it
    runs until Python's recursion limit; the number of frames still available
    is a parameter. */
module Layers {
  import opened Sequences

  datatype Library = Library(name: string)

  type Dependencies = map<Library, seq<Library>>

  // ---------------------------------------------------------------------
  // The libraries loaded after k steps
  // ---------------------------------------------------------------------

  /** The libraries whose dependencies all lie in loaded. */
  ghost function Ready(deps: Dependencies, loaded: set<Library>): set<Library> {
    set m | m in deps && SetOf(deps[m]) <= loaded
  }

  ghost function Loaded(deps: Dependencies, k: nat): set<Library> {
    if k == 0 then {} else Ready(deps, Loaded(deps, k - 1))
  }

  lemma {:induction false} LoadedGrows(deps: Dependencies, k: nat)
    ensures Loaded(deps, k) <= Loaded(deps, k + 1) <= deps.Keys
  {
    if k > 0 {
      LoadedGrows(deps, k - 1);
    }
  }

  lemma {:induction false} LoadedGrowsTo(deps: Dependencies, k: nat, l: nat)
    requires k <= l
    ensures Loaded(deps, k) <= Loaded(deps, l)
    decreases l
  {
    if k < l {
      LoadedGrowsTo(deps, k, l - 1);
      LoadedGrows(deps, l - 1);
    }
  }

  lemma {:induction false} FixpointStays(deps: Dependencies, k: nat, l: nat)
    requires k <= l && Loaded(deps, k) == Loaded(deps, k + 1)
    ensures Loaded(deps, l) == Loaded(deps, k)
    decreases l
  {
    if k < l {
      FixpointStays(deps, k, l - 1);
    }
  }

  lemma {:induction false} SubsetSize<T>(a: set<T>, b: set<T>)
    requires a <= b
    ensures |a| <= |b| && (|a| == |b| ==> a == b)
  {
    if a != {} {
      var x :| x in a;
      SubsetSize(a - {x}, b - {x});
    }
  }

  /** As long as no fixpoint is reached every step loads something. */
  lemma {:induction false} GrowsOrFixed(deps: Dependencies, k: nat)
    ensures |Loaded(deps, k)| >= k || Loaded(deps, k) == Loaded(deps, k + 1)
  {
    if k > 0 {
      GrowsOrFixed(deps, k - 1);
      LoadedGrows(deps, k - 1);
      SubsetSize(Loaded(deps, k - 1), Loaded(deps, k));
    }
  }

  /** After as many steps as there are libraries nothing changes any more. */
  lemma FixedAfterSize(deps: Dependencies, k: nat)
    requires k >= |deps|
    ensures Loaded(deps, k) == Loaded(deps, |deps|) == Loaded(deps, |deps| + 1)
  {
    var n := |deps|;
    GrowsOrFixed(deps, n);
    LoadedGrows(deps, n);
    assert |deps.Keys| == n;
    SubsetSize(Loaded(deps, n), deps.Keys);
    FixpointStays(deps, n, k);
  }

  // ---------------------------------------------------------------------
  // Chains of dependencies
  // ---------------------------------------------------------------------

  /** Each library but the last is present and depends on the next. */
  ghost predicate IsChain(deps: Dependencies, c: seq<Library>) {
    c != [] && forall i :: 0 <= i < |c| - 1 ==> c[i] in deps && c[i + 1] in deps[c[i]]
  }

  ghost predicate IsChainFrom(deps: Dependencies, m: Library, c: seq<Library>) {
    IsChain(deps, c) && c[0] == m
  }

  lemma {:induction false} LoadedBoundsChains(deps: Dependencies, k: nat, c: seq<Library>)
    requires IsChain(deps, c) && c[0] in Loaded(deps, k)
    ensures |c| <= k && c[|c| - 1] in deps
  {
    if |c| > 1 {
      var tail := c[1..];
      assert c[1] in SetOf(deps[c[0]]);
      forall i | 0 <= i < |tail| - 1 ensures tail[i] in deps && tail[i + 1] in deps[tail[i]] {
        assert c[i + 1] in deps && c[i + 2] in deps[c[i + 1]];
      }
      LoadedBoundsChains(deps, k - 1, tail);
    }
  }

  /** A library not loaded in k steps has a chain that is too long or ends in an absent library. */
  lemma {:induction false} LongOrAbsentChain(deps: Dependencies, k: nat, m: Library) returns (c: seq<Library>)
    requires m !in Loaded(deps, k)
    ensures IsChainFrom(deps, m, c) && |c| <= k + 1
    ensures |c| == k + 1 || c[|c| - 1] !in deps
  {
    if k == 0 || m !in deps {
      c := [m];
    } else {
      var d :| d in deps[m] && d !in Loaded(deps, k - 1);
      var tail := LongOrAbsentChain(deps, k - 1, d);
      c := [m] + tail;
      forall i | 0 <= i < |c| - 1 ensures c[i] in deps && c[i + 1] in deps[c[i]] {
        if i > 0 {
          assert tail[i - 1] in deps && tail[i] in deps[tail[i - 1]];
        }
      }
    }
  }

  /** When exactly a library is loaded within k steps. */
  lemma {:induction false} LoadedIff(deps: Dependencies, k: nat, m: Library)
    ensures m in Loaded(deps, k) <==>
      forall c :: IsChainFrom(deps, m, c) ==> |c| <= k && c[|c| - 1] in deps
  {
    if m in Loaded(deps, k) {
      forall c | IsChainFrom(deps, m, c) ensures |c| <= k && c[|c| - 1] in deps {
        LoadedBoundsChains(deps, k, c);
      }
    } else {
      var c := LongOrAbsentChain(deps, k, m);
    }
  }

  /** m lands in step k exactly when its longest dependency chain has k links
      and no chain from it leads to an absent library. */
  lemma StepIsLongestChain(deps: Dependencies, k: nat, m: Library)
    ensures m in Loaded(deps, k + 1) - Loaded(deps, k) <==>
      && (exists c :: IsChainFrom(deps, m, c) && |c| == k + 1)
      && (forall c :: IsChainFrom(deps, m, c) ==> |c| <= k + 1 && c[|c| - 1] in deps)
  {
    LoadedIff(deps, k, m);
    LoadedIff(deps, k + 1, m);
    if m in Loaded(deps, k + 1) && m !in Loaded(deps, k) {
      var c := LongOrAbsentChain(deps, k, m);
      assert c[|c| - 1] in deps;
    }
  }

  // ---------------------------------------------------------------------
  // When everything can be loaded
  // ---------------------------------------------------------------------

  ghost predicate NoneAbsent(deps: Dependencies) {
    forall m, d :: m in deps && d in deps[m] ==> d in deps
  }

  ghost predicate IsCycle(deps: Dependencies, c: seq<Library>) {
    IsChain(deps, c) && |c| >= 2 && c[0] == c[|c| - 1]
  }

  ghost predicate Acyclic(deps: Dependencies) {
    forall c :: !IsCycle(deps, c)
  }

  lemma {:induction false} CycleNeverLoads(deps: Dependencies, c: seq<Library>, k: nat, i: nat)
    requires IsCycle(deps, c) && i < |c|
    ensures c[i] !in Loaded(deps, k)
    decreases k
  {
    if k > 0 {
      var here := if i == |c| - 1 then 0 else i;
      CycleNeverLoads(deps, c, k - 1, here + 1);
      assert c[here + 1] in SetOf(deps[c[here]]);
    }
  }

  /** A sequence longer than the set it draws from repeats an element. */
  lemma {:induction false} Pigeonhole<T>(s: seq<T>, all: set<T>) returns (i: nat, j: nat)
    requires forall k :: 0 <= k < |s| ==> s[k] in all
    requires |s| > |all|
    ensures i < j < |s| && s[i] == s[j]
    decreases |s|
  {
    var n := |s| - 1;
    if k :| 0 <= k < n && s[k] == s[n] {
      i, j := k, n;
    } else {
      forall k | 0 <= k < n ensures s[..n][k] in all - {s[n]} {
        assert s[k] != s[n];
      }
      i, j := Pigeonhole(s[..n], all - {s[n]});
    }
  }

  lemma ChainElementsPresent(deps: Dependencies, c: seq<Library>)
    requires IsChain(deps, c) && NoneAbsent(deps) && c[0] in deps
    ensures forall k :: 0 <= k < |c| ==> c[k] in deps.Keys
  {
    forall k | 0 <= k < |c| ensures c[k] in deps.Keys {
      if k > 0 {
        assert c[k - 1] in deps && c[k - 1 + 1] in deps[c[k - 1]];
      }
    }
  }

  lemma {:induction false} AllLoadedIsSound(deps: Dependencies, n: nat)
    requires Loaded(deps, n) == deps.Keys
    ensures NoneAbsent(deps) && Acyclic(deps)
  {
    forall m, d | m in deps && d in deps[m] ensures d in deps {
      LoadedBoundsChains(deps, n, [m, d]);
    }
    forall c | IsCycle(deps, c) ensures false {
      assert c[0] in deps;
      CycleNeverLoads(deps, c, n, 0);
    }
  }

  /** Part of a chain between two occurrences of a library is a cycle. */
  lemma RepeatIsCycle(deps: Dependencies, c: seq<Library>, i: nat, j: nat)
    requires IsChain(deps, c) && i < j < |c| && c[i] == c[j]
    ensures IsCycle(deps, c[i..j + 1])
  {
    var cycle := c[i..j + 1];
    forall k | 0 <= k < |cycle| - 1 ensures cycle[k] in deps && cycle[k + 1] in deps[cycle[k]] {
      assert c[i + k] in deps && c[i + k + 1] in deps[c[i + k]];
    }
  }

  lemma {:induction false} LongChainHasCycle(deps: Dependencies, m: Library)
    requires NoneAbsent(deps) && m in deps && m !in Loaded(deps, |deps|)
    ensures !Acyclic(deps)
  {
    var c := LongOrAbsentChain(deps, |deps|, m);
    ChainElementsPresent(deps, c);
    assert |deps.Keys| == |deps|;
    var i, j := Pigeonhole(c, deps.Keys);
    RepeatIsCycle(deps, c, i, j);
  }

  /** Everything gets loaded, after at most as many steps as there are
      libraries, exactly when no library is absent and no chain is a cycle. */
  lemma {:induction false} LoadsAllIff(deps: Dependencies)
    ensures Loaded(deps, |deps|) == deps.Keys <==> NoneAbsent(deps) && Acyclic(deps)
  {
    LoadedGrows(deps, |deps|);
    if Loaded(deps, |deps|) == deps.Keys {
      AllLoadedIsSound(deps, |deps|);
    } else if NoneAbsent(deps) {
      var m :| m in deps.Keys && m !in Loaded(deps, |deps|);
      LongChainHasCycle(deps, m);
    }
  }

  /** Otherwise a nonempty set of libraries stays pending for ever, each
      waiting on a pending or an absent one. */
  lemma StuckOtherwise(deps: Dependencies, k: nat)
    requires !(NoneAbsent(deps) && Acyclic(deps)) && k >= |deps|
    ensures var pending := deps.Keys - Loaded(deps, k);
      && pending != {}
      && Loaded(deps, k + 1) == Loaded(deps, k)
      && forall m :: m in pending ==> exists d :: d in deps[m] && (d in pending || d !in deps)
  {
    LoadsAllIff(deps);
    FixedAfterSize(deps, k);
    FixedAfterSize(deps, k + 1);
    LoadedGrows(deps, k);
    var pending := deps.Keys - Loaded(deps, k);
    assert Loaded(deps, k) != deps.Keys;
    forall m | m in pending ensures exists d :: d in deps[m] && (d in pending || d !in deps) {
      assert m !in Loaded(deps, k + 1);
      var d :| d in deps[m] && d !in Loaded(deps, k);
    }
  }
}
