/** Weighted totals over sequences: the one counting device shared by the
    test-runner modules.  A weight assigns a natural number to each element. */
module Totals {

  function Total<T>(s: seq<T>, weight: T -> nat): nat {
    if s == [] then 0 else Total(s[..|s| - 1], weight) + weight(s[|s| - 1])
  }

  lemma {:induction false} TotalOfConcat<T>(a: seq<T>, b: seq<T>, weight: T -> nat)
    ensures Total(a + b, weight) == Total(a, weight) + Total(b, weight)
  {
    if b == [] {
      assert a + b == a;
    } else {
      assert (a + b)[..|a + b| - 1] == a + b[..|b| - 1];
      TotalOfConcat(a, b[..|b| - 1], weight);
    }
  }

  lemma {:induction false} TotalOfAppend<T>(s: seq<T>, x: T, weight: T -> nat)
    ensures Total(s + [x], weight) == Total(s, weight) + weight(x)
  {
    assert (s + [x])[..|s|] == s;
  }

  lemma {:induction false} TotalOfTail<T>(s: seq<T>, weight: T -> nat)
    requires s != []
    ensures Total(s, weight) == weight(s[0]) + Total(s[1..], weight)
  {
    assert s == [s[0]] + s[1..];
    TotalOfConcat([s[0]], s[1..], weight);
    assert Total([s[0]], weight) == weight(s[0]) by {
      assert [s[0]][..0] == [];
    }
  }

  lemma {:induction false} TotalOfUpdate<T>(s: seq<T>, k: nat, x: T, weight: T -> nat)
    requires k < |s|
    ensures Total(s[k := x], weight) + weight(s[k]) == Total(s, weight) + weight(x)
  {
    var n := |s| - 1;
    if k == n {
      assert s[k := x][..n] == s[..n];
    } else {
      assert s[k := x][..n] == s[..n][k := x];
      TotalOfUpdate(s[..n], k, x, weight);
    }
  }

  lemma {:induction false} TotalAtLeast<T>(s: seq<T>, k: nat, weight: T -> nat)
    requires k < |s|
    ensures Total(s, weight) >= weight(s[k])
  {
    if k < |s| - 1 {
      TotalAtLeast(s[..|s| - 1], k, weight);
    }
  }

  lemma {:induction false} TotalZero<T>(s: seq<T>, weight: T -> nat)
    requires forall k :: 0 <= k < |s| ==> weight(s[k]) == 0
    ensures Total(s, weight) == 0
  {
    if s != [] {
      TotalZero(s[..|s| - 1], weight);
    }
  }

  /** Weights that never exceed one add up to the length exactly when every
      element weighs one. */
  lemma {:induction false} TotalOfUnits<T>(s: seq<T>, weight: T -> nat)
    requires forall k :: 0 <= k < |s| ==> weight(s[k]) <= 1
    ensures Total(s, weight) <= |s|
    ensures Total(s, weight) == |s| <==> forall k :: 0 <= k < |s| ==> weight(s[k]) == 1
  {
    if s != [] {
      var front := s[..|s| - 1];
      TotalOfUnits(front, weight);
      assert forall k :: 0 <= k < |front| ==> s[k] == front[k];
    }
  }

  /** Pointwise equal weights give equal totals. */
  lemma {:induction false} TotalAgrees<T>(s: seq<T>, weight: T -> nat, other: T -> nat)
    requires forall k :: 0 <= k < |s| ==> weight(s[k]) == other(s[k])
    ensures Total(s, weight) == Total(s, other)
  {
    if s != [] {
      TotalAgrees(s[..|s| - 1], weight, other);
    }
  }

  /** The positions of the elements that have a weight. */
  ghost function Where<T>(s: seq<T>, weight: T -> nat): set<nat> {
    set k: nat | k < |s| && weight(s[k]) > 0
  }

  /** With weights zero and one the total is the number of elements that have one. */
  lemma {:induction false} TotalIsNumber<T>(s: seq<T>, weight: T -> nat)
    requires forall k :: 0 <= k < |s| ==> weight(s[k]) <= 1
    ensures Total(s, weight) == |Where(s, weight)|
  {
    if s == [] {
      assert Where(s, weight) == {};
    } else {
      var n := |s| - 1;
      var front := s[..n];
      TotalIsNumber(front, weight);
      WhereStep(s, weight);
      assert n !in Where(front, weight);
    }
  }

  lemma WhereStep<T>(s: seq<T>, weight: T -> nat)
    requires s != []
    ensures var n := |s| - 1;
      Where(s, weight) == Where(s[..n], weight) + if weight(s[n]) > 0 then {n} else {}
  {
    var n := |s| - 1;
    forall k: nat ensures k in Where(s, weight) <==> k in Where(s[..n], weight) || (k == n && weight(s[n]) > 0) {
      if k < n {
        assert s[..n][k] == s[k];
      }
    }
  }
}
