/** TimelineDataRange and TimelineEvent of grid.py: binary searches over sorted
    lists and the index ranges built on them. */
module Timeline {

  datatype Range = Range(start: int, end: int, value: string)

  /** Sorted; neighbouring ranges may share an end point. */
  ghost predicate InOrder(ranges: seq<Range>) {
    && (forall i :: 0 <= i < |ranges| ==> ranges[i].start <= ranges[i].end)
    && (forall i, j :: 0 <= i < j < |ranges| ==> ranges[i].end <= ranges[j].start)
  }

  /** No two ranges share a point. */
  ghost predicate Disjoint(ranges: seq<Range>) {
    forall i, j :: 0 <= i < j < |ranges| ==> ranges[i].end < ranges[j].start
  }

  ghost predicate Contains(r: Range, key: int) {
    r.start <= key <= r.end
  }

  ghost predicate Hits(ranges: seq<Range>, key: int) {
    exists k :: 0 <= k < |ranges| && Contains(ranges[k], key)
  }

  predicate Overlaps(r: Range, start: int, end: int) {
    r.start <= end && start <= r.end
  }

  /** A range and a query overlap exactly when they share a point. */
  lemma OverlapsIff(r: Range, start: int, end: int)
    requires r.start <= r.end && start <= end
    ensures Overlaps(r, start, end) <==> exists x :: Contains(r, x) && start <= x <= end
  {
    var x := if r.start < start then start else r.start;
    if Overlaps(r, start, end) {
      assert Contains(r, x) && start <= x <= end;
    }
  }

  /** The range and the query share more than an end point. */
  ghost predicate OverlapsInside(r: Range, start: int, end: int) {
    r.start < end && start < r.end
  }

  /** The bounds select every range that overlaps the query ... */
  ghost predicate Covers(ranges: seq<Range>, lo: int, hi: int, start: int, end: int) {
    forall k :: 0 <= k < |ranges| && Overlaps(ranges[k], start, end) ==> lo <= k < hi
  }

  /** ... and no other. */
  ghost predicate Selects(ranges: seq<Range>, lo: int, hi: int, start: int, end: int) {
    forall k :: 0 <= k < |ranges| ==> (lo <= k < hi <==> Overlaps(ranges[k], start, end))
  }

  /** Python's list slice for non-negative bounds. */
  function Slice<T>(s: seq<T>, lo: nat, hi: nat): seq<T> {
    var top := if hi < |s| then hi else |s|;
    if lo < top then s[lo..top] else []
  }

  /** The elements that pass the test, in order. */
  ghost function Filter<T>(s: seq<T>, test: T -> bool): seq<T> {
    if s == [] then []
    else
      var n := |s| - 1;
      if test(s[n]) then Filter(s[..n], test) + [s[n]] else Filter(s[..n], test)
  }

  lemma {:induction false} FilterMembers<T>(s: seq<T>, test: T -> bool)
    ensures forall x :: x in Filter(s, test) <==> x in s && test(x)
  {
    if s != [] {
      FilterMembers(s[..|s| - 1], test);
      assert s == s[..|s| - 1] + [s[|s| - 1]];
    }
  }

  /** When the positions that pass form an interval, filtering is slicing. */
  lemma {:induction false} FilterIsSlice<T>(s: seq<T>, test: T -> bool, lo: nat, hi: nat)
    requires forall k :: 0 <= k < |s| ==> (test(s[k]) <==> lo <= k < hi)
    ensures Filter(s, test) == Slice(s, lo, hi)
  {
    if s != [] {
      FilterIsSlice(s[..|s| - 1], test, lo, hi);
      SliceStep(s, lo, hi);
    }
  }

  lemma SliceStep<T>(s: seq<T>, lo: nat, hi: nat)
    requires s != []
    ensures var n := |s| - 1;
      Slice(s, lo, hi) == if lo <= n < hi then Slice(s[..n], lo, hi) + [s[n]] else Slice(s[..n], lo, hi)
  {
    var n := |s| - 1;
    if lo <= n < hi {
      assert Slice(s[..n], lo, hi) == s[lo..n];
      assert s[lo..n] + [s[n]] == s[lo..n + 1];
    } else if hi <= n && lo < hi {
      assert s[..n][lo..hi] == s[lo..hi];
    }
  }

  lemma SliceLength<T>(s: seq<T>, lo: nat, hi: nat)
    ensures var top := if hi < |s| then hi else |s|;
      |Slice(s, lo, hi)| == if lo < top then top - lo else 0
    ensures forall k :: lo <= k < hi && k < |s| ==> k - lo < |Slice(s, lo, hi)| && Slice(s, lo, hi)[k - lo] == s[k]
  {
  }

  /** When the positions that pass are those from a to b, a slice is the filtered
      list exactly when its positions are those that pass. */
  lemma {:induction false} SliceIsFilterIff<T(!new)>(s: seq<T>, test: T -> bool, lo: nat, hi: nat, a: nat, b: nat)
    requires b <= |s| && forall k :: 0 <= k < |s| ==> (test(s[k]) <==> a <= k < b)
    ensures Slice(s, lo, hi) == Filter(s, test)
      <==> forall k :: 0 <= k < |s| ==> (lo <= k < hi <==> test(s[k]))
  {
    if forall k :: 0 <= k < |s| ==> (lo <= k < hi <==> test(s[k])) {
      FilterIsSlice(s, test, lo, hi);
    }
    if Slice(s, lo, hi) == Filter(s, test) {
      SliceWithin(s, test, lo, hi);
      FilterIsSlice(s, test, a, b);
      SliceLength(s, lo, hi);
      SliceLength(s, a, b);
      var top := if hi < |s| then hi else |s|;
      if lo < top {
        assert test(s[lo]) && test(s[top - 1]);
      }
    }
  }

  /** All positions of a slice that is the filtered list pass. */
  lemma {:induction false} SliceWithin<T(!new)>(s: seq<T>, test: T -> bool, lo: nat, hi: nat)
    requires Slice(s, lo, hi) == Filter(s, test)
    ensures forall k :: lo <= k < hi && k < |s| ==> test(s[k])
  {
    FilterMembers(s, test);
    forall k | lo <= k < hi && k < |s| ensures test(s[k]) {
      SliceLength(s, lo, hi);
      assert s[k] in Slice(s, lo, hi);
    }
  }

  /** Where a test that holds of a beginning of the list stops to hold. */
  lemma {:induction false} Prefix<T(!new)>(s: seq<T>, test: T -> bool) returns (n: nat)
    requires forall i, j :: 0 <= i < j < |s| && test(s[j]) ==> test(s[i])
    ensures n <= |s| && forall k :: 0 <= k < |s| ==> (k < n <==> test(s[k]))
  {
    if s == [] {
      n := 0;
    } else {
      var last := |s| - 1;
      n := Prefix(s[..last], test);
      assert forall k :: 0 <= k < last ==> s[..last][k] == s[k];
      if test(s[last]) {
        n := |s|;
      }
    }
  }

  /** The binary search between two indices for a range that contains the key. */
  ghost function BisectRanges(ranges: seq<Range>, key: int, l: nat, u: int): int
    requires l <= u + 1 <= |ranges|
    decreases u + 1 - l
  {
    if l > u then -1
    else
      var i := (l + u) / 2;
      if ranges[i].start <= key <= ranges[i].end then i
      else if key < ranges[i].start then BisectRanges(ranges, key, l, i - 1)
      else BisectRanges(ranges, key, i + 1, u)
  }

  ghost function RangeAt(ranges: seq<Range>, key: int): int {
    BisectRanges(ranges, key, 0, |ranges| - 1)
  }

  lemma BisectRangesStep(ranges: seq<Range>, key: int, l: nat, u: int)
    requires l <= u < |ranges|
    ensures var i := (l + u) / 2;
      BisectRanges(ranges, key, l, u) ==
        if ranges[i].start <= key <= ranges[i].end then i
        else if key < ranges[i].start then BisectRanges(ranges, key, l, i - 1)
        else BisectRanges(ranges, key, i + 1, u)
  {
  }

  ghost predicate Found(ranges: seq<Range>, key: int, i: int) {
    && -1 <= i < |ranges|
    && (i >= 0 ==> Contains(ranges[i], key))
    && (i == -1 <==> !Hits(ranges, key))
  }

  lemma {:induction false} BisectRangesFinds(ranges: seq<Range>, key: int, l: nat, u: int)
    requires InOrder(ranges) && l <= u + 1 <= |ranges|
    requires forall k :: 0 <= k < l ==> ranges[k].end < key
    requires forall k :: u < k < |ranges| ==> key < ranges[k].start
    ensures Found(ranges, key, BisectRanges(ranges, key, l, u))
    decreases u + 1 - l
  {
    if l <= u {
      var i := (l + u) / 2;
      if key < ranges[i].start {
        BisectRangesFinds(ranges, key, l, i - 1);
      } else if key > ranges[i].end {
        BisectRangesFinds(ranges, key, i + 1, u);
      }
    }
  }

  lemma RangeAtFinds(ranges: seq<Range>, key: int)
    requires InOrder(ranges)
    ensures Found(ranges, key, RangeAt(ranges, key))
  {
    BisectRangesFinds(ranges, key, 0, |ranges| - 1);
  }

  class TimelineDataRange {
    var ranges: seq<Range>

    constructor ()
      ensures ranges == []
    {
      ranges := [];
    }

    method AddRange(r: Range)
      modifies this
      ensures ranges == old(ranges) + [r]
    {
      ranges := ranges + [r];
    }

    /** The index of a range that contains the key, or -1; in a sorted list
        without overlaps -1 only when there is none. */
    method Search(key: int) returns (found: int)
      ensures found == RangeAt(ranges, key)
      ensures -1 <= found < |ranges| && (found >= 0 ==> Contains(ranges[found], key))
      ensures InOrder(ranges) ==> Found(ranges, key, found)
    {
      if InOrder(ranges) { RangeAtFinds(ranges, key); }
      ghost var place := RangeAt(ranges, key);
      var l, u := 0, |ranges| - 1;
      while l <= u
        invariant 0 <= l <= u + 1 <= |ranges| && BisectRanges(ranges, key, l, u) == place
      {
        BisectRangesStep(ranges, key, l, u);
        var i := (l + u) / 2;
        if key >= ranges[i].start && key <= ranges[i].end {
          return i;
        } else if key < ranges[i].start {
          u := i - 1;
        } else {
          l := i + 1;
        }
      }
      return -1;
    }

    /** As soon as one end of the query lies in a range, every range that shares
        more than an end point with the query is returned; every range that
        overlaps it, and only those, under the stated conditions. */
    method GetRangesBounds(start: int, end: int) returns (lo: nat, hi: nat)
      requires InOrder(ranges)
      ensures hi <= |ranges|
      ensures Hits(ranges, start) || Hits(ranges, end) ==> CoversInside(ranges, lo, hi, start, end)
      ensures Hits(ranges, start) || Hits(ranges, end) ==>
        (Covers(ranges, lo, hi, start, end) <==> TouchesKept(ranges, start, end))
      ensures Selects(ranges, lo, hi, start, end)
        <==> ExactlyWhen(ranges, start, end) && TouchesKept(ranges, start, end)
    {
      var s := Search(start);
      var e := Search(end);
      BoundsAreExactIff(ranges, start, end, s, e);
      if s == -1 && e == -1 {
        return 0, 0;
      } else if s == -1 {
        return 0, e + 1;
      } else if e == -1 {
        return s, |ranges|;
      } else {
        return s, e + 1;
      }
    }

    /** The answer is the linear filter for overlapping ranges, exactly when
        the conditions hold. */
    method GetRanges(start: int, end: int) returns (selected: seq<Range>)
      requires InOrder(ranges)
      ensures selected == Filter(ranges, OverlapTest(start, end))
        <==> ExactlyWhen(ranges, start, end) && TouchesKept(ranges, start, end)
      ensures Hits(ranges, start) || Hits(ranges, end) ==>
        forall r :: r in ranges && OverlapsInside(r, start, end) ==> r in selected
      ensures (Hits(ranges, start) || Hits(ranges, end)) && TouchesKept(ranges, start, end) ==>
        forall r :: r in ranges && Overlaps(r, start, end) ==> r in selected
    {
      var lo, hi := GetRangesBounds(start, end);
      selected := Slice(ranges, lo, hi);
      SliceMembers(ranges, lo, hi);
      RangesFilterIff(ranges, start, end, lo, hi);
    }
  }

  /** The bounds select every range that shares more than an end point with the query. */
  ghost predicate CoversInside(ranges: seq<Range>, lo: int, hi: int, start: int, end: int) {
    forall k :: 0 <= k < |ranges| && OverlapsInside(ranges[k], start, end) ==> lo <= k < hi
  }

  /** When no range outside the query is returned and none strictly inside is
      missed, in terms of the query and the list: both ends
      lie in ranges; or only the upper one does and the query starts before the
      whole list; or only the lower one does and the query ends after it; or
      neither does and no range lies strictly inside the query. */
  ghost predicate ExactlyWhen(ranges: seq<Range>, start: int, end: int) {
    if Hits(ranges, start) then
      Hits(ranges, end) || end > ranges[|ranges| - 1].end
    else if Hits(ranges, end) then
      start < ranges[0].start
    else
      forall k :: 0 <= k < |ranges| ==> !(start < ranges[k].start && ranges[k].end < end)
  }

  /** No range in front of range s touches the query at its lower end, and none
      behind range e at its upper end. */
  ghost predicate EdgesKept(ranges: seq<Range>, start: int, end: int, s: int, e: int) {
    && (s >= 0 ==> forall k :: 0 <= k < s && k < |ranges| && ranges[k].start <= end ==> ranges[k].end != start)
    && (e >= 0 ==> forall k :: e < k < |ranges| && start <= ranges[k].end ==> ranges[k].start != end)
  }

  /** When no range that touches the query at an end is lost: the search for the
      lower end finds the first range there, the search for the upper end the last. */
  ghost predicate TouchesKept(ranges: seq<Range>, start: int, end: int) {
    EdgesKept(ranges, start, end, RangeAt(ranges, start), RangeAt(ranges, end))
  }

  ghost function OverlapTest(start: int, end: int): Range -> bool {
    r => Overlaps(r, start, end)
  }

  lemma {:induction false} RangesFilterIff(ranges: seq<Range>, start: int, end: int, lo: nat, hi: nat)
    requires InOrder(ranges)
    ensures Slice(ranges, lo, hi) == Filter(ranges, OverlapTest(start, end)) <==> Selects(ranges, lo, hi, start, end)
  {
    var a := Prefix(ranges, (r: Range) => r.end < start);
    var b := Prefix(ranges, (r: Range) => r.start <= end);
    forall k | 0 <= k < |ranges| ensures OverlapTest(start, end)(ranges[k]) <==> a <= k < b {
    }
    SliceIsFilterIff(ranges, OverlapTest(start, end), lo, hi, a, b);
    SelectsIff(ranges, lo, hi, start, end);
  }

  lemma SelectsIff(ranges: seq<Range>, lo: nat, hi: nat, start: int, end: int)
    ensures Selects(ranges, lo, hi, start, end)
      <==> forall k :: 0 <= k < |ranges| ==> (lo <= k < hi <==> OverlapTest(start, end)(ranges[k]))
  {
  }

  ghost function Bounds(n: nat, s: int, e: int): (int, int) {
    if s == -1 && e == -1 then (0, 0)
    else if s == -1 then (0, e + 1)
    else if e == -1 then (s, n)
    else (s, e + 1)
  }

  lemma BoundsAreExactIff(ranges: seq<Range>, start: int, end: int, s: int, e: int)
    requires InOrder(ranges) && Found(ranges, start, s) && Found(ranges, end, e)
    ensures var (lo, hi) := Bounds(|ranges|, s, e);
      && (Hits(ranges, start) || Hits(ranges, end) ==> CoversInside(ranges, lo, hi, start, end))
      && (Hits(ranges, start) || Hits(ranges, end) ==>
            (Covers(ranges, lo, hi, start, end) <==> EdgesKept(ranges, start, end, s, e)))
      && (Selects(ranges, lo, hi, start, end) <==>
            ExactlyWhen(ranges, start, end) && EdgesKept(ranges, start, end, s, e))
  {
    if s == -1 && e == -1 {
      forall k | 0 <= k < |ranges|
        ensures Overlaps(ranges[k], start, end) <==> start < ranges[k].start && ranges[k].end < end
      {
        assert !Contains(ranges[k], start) && !Contains(ranges[k], end);
      }
    } else if s == -1 {
      OnlyUpperHit(ranges, start, end, e);
    } else if e == -1 {
      OnlyLowerHit(ranges, start, end, s);
    } else {
      BothHit(ranges, start, end, s, e);
    }
  }

  lemma BothHit(ranges: seq<Range>, start: int, end: int, s: nat, e: nat)
    requires InOrder(ranges) && s < |ranges| && e < |ranges|
    requires Contains(ranges[s], start) && Contains(ranges[e], end)
    ensures CoversInside(ranges, s, e + 1, start, end)
    ensures Covers(ranges, s, e + 1, start, end) <==> EdgesKept(ranges, start, end, s, e)
    ensures Selects(ranges, s, e + 1, start, end) <==> EdgesKept(ranges, start, end, s, e)
  {
  }

  lemma OnlyUpperHit(ranges: seq<Range>, start: int, end: int, e: nat)
    requires InOrder(ranges) && e < |ranges|
    requires Contains(ranges[e], end) && !Hits(ranges, start)
    ensures CoversInside(ranges, 0, e + 1, start, end)
    ensures Covers(ranges, 0, e + 1, start, end) <==> EdgesKept(ranges, start, end, -1, e)
    ensures Selects(ranges, 0, e + 1, start, end)
      <==> start < ranges[0].start && EdgesKept(ranges, start, end, -1, e)
  {
    assert !Contains(ranges[0], start);
    if Selects(ranges, 0, e + 1, start, end) {
      assert Overlaps(ranges[0], start, end);
    }
  }

  lemma OnlyLowerHit(ranges: seq<Range>, start: int, end: int, s: nat)
    requires InOrder(ranges) && s < |ranges|
    requires Contains(ranges[s], start) && !Hits(ranges, end)
    ensures CoversInside(ranges, s, |ranges|, start, end)
    ensures Covers(ranges, s, |ranges|, start, end) <==> EdgesKept(ranges, start, end, s, -1)
    ensures Selects(ranges, s, |ranges|, start, end)
      <==> end > ranges[|ranges| - 1].end && EdgesKept(ranges, start, end, s, -1)
  {
    var n := |ranges| - 1;
    assert !Contains(ranges[n], end);
    if Selects(ranges, s, |ranges|, start, end) {
      assert Overlaps(ranges[n], start, end);
    }
  }

  lemma SliceMembers<T>(s: seq<T>, lo: nat, hi: nat)
    requires hi <= |s|
    ensures forall x :: x in Slice(s, lo, hi) <==> exists k :: lo <= k < hi && s[k] == x
  {
    var slice := Slice(s, lo, hi);
    if lo < hi {
      assert forall k :: lo <= k < hi ==> slice[k - lo] == s[k];
    }
  }

  /** Ranges that overlap, sorted by their starts: the search passes over a range
      that contains the key. */
  lemma OverlappingRangeIsMissed(a: string, b: string, c: string)
    ensures var ranges := [Range(0, 9, a), Range(1, 2, b), Range(3, 4, c)];
      !InOrder(ranges) && RangeAt(ranges, 5) == -1 && Contains(ranges[0], 5)
  {
    var ranges := [Range(0, 9, a), Range(1, 2, b), Range(3, 4, c)];
    assert BisectRanges(ranges, 5, 2, 2) == -1;
    assert ranges[0].end > ranges[1].start;
  }

  // ---------------------------------------------------------------------
  // Ranges that share an end point
  // ---------------------------------------------------------------------

  /** At most one range contains the key. */
  ghost predicate AtMostOneHit(ranges: seq<Range>, key: int) {
    forall i, j :: 0 <= i < j < |ranges| && Contains(ranges[i], key) ==> !Contains(ranges[j], key)
  }

  /** When no two ranges meet at an end of the query, none is lost. */
  lemma SingleHitsKeepTouches(ranges: seq<Range>, start: int, end: int)
    requires InOrder(ranges) && AtMostOneHit(ranges, start) && AtMostOneHit(ranges, end)
    ensures TouchesKept(ranges, start, end)
  {
    RangeAtFinds(ranges, start);
    RangeAtFinds(ranges, end);
  }

  /** Two ranges that meet, and a query for the point: only one is returned. */
  lemma TouchingRangeIsLost(a: string, b: string)
    ensures var ranges := [Range(0, 5, a), Range(5, 9, b)];
      && InOrder(ranges) && !TouchesKept(ranges, 5, 5)
      && RangeAt(ranges, 5) == 0 && Overlaps(ranges[1], 5, 5)
  {
    var ranges := [Range(0, 5, a), Range(5, 9, b)];
    assert RangeAt(ranges, 5) == 0;
    assert ranges[1].start == 5;
  }

  /** Every query that hits a range returns all ranges it overlaps exactly when
      no two ranges share a point. */
  lemma CoverForAllIff(ranges: seq<Range>)
    requires InOrder(ranges)
    ensures (forall start, end :: Hits(ranges, start) || Hits(ranges, end) ==> TouchesKept(ranges, start, end))
      <==> Disjoint(ranges)
  {
    if Disjoint(ranges) {
      forall start, end ensures TouchesKept(ranges, start, end) {
        SingleHitsKeepTouches(ranges, start, end);
      }
    } else {
      var i, j :| 0 <= i < j < |ranges| && ranges[i].end >= ranges[j].start;
      MeetingRangeIsLost(ranges, i, j);
    }
  }

  lemma MeetingRangeIsLost(ranges: seq<Range>, i: nat, j: nat)
    requires InOrder(ranges) && i < j < |ranges| && ranges[i].end == ranges[j].start
    ensures Hits(ranges, ranges[i].end) && !TouchesKept(ranges, ranges[i].end, ranges[i].end)
  {
    var at := ranges[i].end;
    assert Contains(ranges[i], at) && Contains(ranges[j], at);
    RangeAtFinds(ranges, at);
    assert i < RangeAt(ranges, at) || RangeAt(ranges, at) < j;
  }

  // ---------------------------------------------------------------------
  // Events
  // ---------------------------------------------------------------------

  datatype Event = Event(at: int, value: string)

  ghost predicate Increasing(events: seq<Event>) {
    forall i, j :: 0 <= i < j < |events| ==> events[i].at < events[j].at
  }

  ghost predicate Ordered(events: seq<Event>) {
    forall i, j :: 0 <= i < j < |events| ==> events[i].at <= events[j].at
  }

  /** The event lies in the query interval. */
  predicate Within(e: Event, start: int, end: int) {
    start <= e.at <= end
  }

  ghost function WithinTest(start: int, end: int): Event -> bool {
    e => Within(e, start, end)
  }

  /** The binary search between two indices: an event at the key, or the place
      where one would go. */
  ghost function Bisect(events: seq<Event>, key: int, l: nat, u: int): nat
    requires l <= u + 1 <= |events|
    decreases u + 1 - l
  {
    if l > u then l
    else
      var i := (l + u) / 2;
      if key == events[i].at then i
      else if key < events[i].at then Bisect(events, key, l, i - 1)
      else Bisect(events, key, i + 1, u)
  }

  lemma BisectStep(events: seq<Event>, key: int, l: nat, u: int)
    requires l <= u < |events|
    ensures var i := (l + u) / 2;
      Bisect(events, key, l, u) ==
        if key == events[i].at then i
        else if key < events[i].at then Bisect(events, key, l, i - 1)
        else Bisect(events, key, i + 1, u)
  {
  }

  ghost function Position(events: seq<Event>, key: int): nat {
    Bisect(events, key, 0, |events| - 1)
  }

  lemma {:induction false} BisectFinds(events: seq<Event>, key: int, l: nat, u: int)
    requires Ordered(events) && l <= u + 1 <= |events|
    requires forall k :: 0 <= k < l ==> events[k].at < key
    requires forall k :: u < k < |events| ==> key < events[k].at
    ensures IsPosition(events, key, Bisect(events, key, l, u))
    decreases u + 1 - l
  {
    if l <= u {
      var i := (l + u) / 2;
      if key < events[i].at {
        BisectFinds(events, key, l, i - 1);
      } else if key > events[i].at {
        BisectFinds(events, key, i + 1, u);
      }
    }
  }

  /** Events before the position are not after the key, events from it on are not before it. */
  ghost predicate IsPosition(events: seq<Event>, key: int, found: nat) {
    && found <= |events|
    && ((found < |events| && events[found].at == key)
        || (forall k :: 0 <= k < |events| ==> (k < found <==> events[k].at < key) && events[k].at != key))
  }

  lemma PositionIsPosition(events: seq<Event>, key: int)
    requires Ordered(events)
    ensures IsPosition(events, key, Position(events, key))
  {
    BisectFinds(events, key, 0, |events| - 1);
  }

  /** No two events share the time. */
  ghost predicate Lone(events: seq<Event>, key: int) {
    forall i, j :: 0 <= i < j < |events| && events[i].at == key ==> events[j].at != key
  }

  /** Every event of the interval is at one of the positions s to e ... */
  ghost predicate Complete(events: seq<Event>, start: int, end: int, s: nat, e: nat) {
    forall k :: 0 <= k < |events| && Within(events[k], start, end) ==> s <= k <= e
  }

  /** ... and no other event is. */
  ghost predicate Exclusive(events: seq<Event>, start: int, end: int, s: nat, e: nat) {
    forall k :: s <= k <= e && k < |events| ==> Within(events[k], start, end)
  }

  /** No event at the lower end precedes position s, none at the upper end follows e. */
  ghost predicate EdgesFound(events: seq<Event>, start: int, end: int, s: nat, e: nat) {
    start <= end ==>
      && (forall k :: 0 <= k < s && k < |events| ==> events[k].at != start)
      && (forall k :: e < k < |events| ==> events[k].at != end)
  }

  /** When get_events returns all events of the interval: the search for the
      lower end finds the first event at that time, the search for the upper end the last. */
  ghost predicate CompleteWhen(events: seq<Event>, start: int, end: int) {
    EdgesFound(events, start, end, Position(events, start), Position(events, end))
  }

  /** An event at the upper end, or none after it, or an empty slice. */
  ghost predicate NoSurplus(events: seq<Event>, end: int, s: nat, e: nat) {
    || (exists k :: 0 <= k < |events| && events[k].at == end)
    || (forall k :: 0 <= k < |events| ==> events[k].at < end)
    || e < s
  }

  /** When get_events returns only events of the interval: the upper end is the
      time of an event, or lies after all events, or the search for the lower
      end goes further than that for the upper (which takes a reversed query). */
  ghost predicate ExclusiveWhen(events: seq<Event>, start: int, end: int) {
    NoSurplus(events, end, Position(events, start), Position(events, end))
  }

  class TimelineEvent {
    var events: seq<Event>

    constructor ()
      ensures events == []
    {
      events := [];
    }

    method AddEvent(e: Event)
      modifies this
      ensures events == old(events) + [e]
    {
      events := events + [e];
    }

    /** An event with the given time, or the place where one would go. */
    method Search(key: int) returns (found: nat)
      requires Ordered(events)
      ensures found == Position(events, key) && IsPosition(events, key, found)
    {
      PositionIsPosition(events, key);
      ghost var place := Position(events, key);
      var l, u := 0, |events| - 1;
      while l <= u
        invariant 0 <= l <= u + 1 <= |events| && Bisect(events, key, l, u) == place
      {
        BisectStep(events, key, l, u);
        var i := (l + u) / 2;
        if key == events[i].at {
          return i;
        } else if key < events[i].at {
          u := i - 1;
        } else {
          l := i + 1;
        }
      }
      return l;
    }

    /** Events strictly inside the interval are always returned; all events of
        the interval, and only those, under the stated conditions. */
    method GetEventsBounds(start: int, end: int) returns (lo: nat, hi: nat)
      requires Ordered(events)
      ensures hi > 0 && IsPosition(events, start, lo) && IsPosition(events, end, hi - 1)
      ensures forall k :: 0 <= k < |events| && start < events[k].at < end ==> lo <= k < hi
      ensures Complete(events, start, end, lo, hi - 1) <==> CompleteWhen(events, start, end)
      ensures Exclusive(events, start, end, lo, hi - 1) <==> ExclusiveWhen(events, start, end)
    {
      lo := Search(start);
      var e := Search(end);
      hi := e + 1;
      CompleteIff(events, start, end, lo, e);
      ExclusiveIff(events, start, end, lo, e);
    }

    /** The answer is the linear filter exactly under both conditions.  It holds
        all events strictly inside, and at most one event that is not in the
        interval: the last of the answer, the first after the upper end. */
    method GetEvents(start: int, end: int) returns (selected: seq<Event>)
      requires Ordered(events)
      ensures selected == Filter(events, WithinTest(start, end))
        <==> CompleteWhen(events, start, end) && ExclusiveWhen(events, start, end)
      ensures HoldsInside(events, start, end, selected)
      ensures CompleteWhen(events, start, end) ==> HoldsWithin(events, start, end, selected)
      ensures SurplusIsLast(events, start, end, selected)
    {
      var s := Search(start);
      var e := Search(end);
      selected := Slice(events, s, e + 1);
      EventsOfSlice(events, start, end, s, e);
      SurplusOfSlice(events, start, end, s, e);
      SliceIsFilterWhen(events, start, end, s, e);
    }
  }

  /** The event lies after the time and no other event after it is earlier. */
  ghost predicate FirstAfter(events: seq<Event>, end: int, e: Event) {
    e.at > end && forall k :: 0 <= k < |events| && events[k].at > end ==> e.at <= events[k].at
  }

  ghost predicate HoldsInside(events: seq<Event>, start: int, end: int, selected: seq<Event>) {
    forall x :: x in events && start < x.at < end ==> x in selected
  }

  ghost predicate HoldsWithin(events: seq<Event>, start: int, end: int, selected: seq<Event>) {
    forall x :: x in events && Within(x, start, end) ==> x in selected
  }

  /** Everything selected is an event of the interval, except perhaps the last,
      which is then the first after it. */
  ghost predicate SurplusIsLast(events: seq<Event>, start: int, end: int, selected: seq<Event>) {
    && (forall k :: 0 <= k < |selected| ==> selected[k] in events)
    && (forall k :: 0 <= k < |selected| && !Within(selected[k], start, end) ==>
          k == |selected| - 1 && FirstAfter(events, end, selected[k]))
  }

  ghost predicate Positions(events: seq<Event>, start: int, end: int, s: nat, e: nat) {
    Ordered(events) && IsPosition(events, start, s) && IsPosition(events, end, e)
  }

  lemma CompleteIff(events: seq<Event>, start: int, end: int, s: nat, e: nat)
    requires Positions(events, start, end, s, e)
    ensures Complete(events, start, end, s, e) <==> EdgesFound(events, start, end, s, e)
  {
  }

  lemma ExclusiveIff(events: seq<Event>, start: int, end: int, s: nat, e: nat)
    requires Positions(events, start, end, s, e)
    ensures Exclusive(events, start, end, s, e) <==> NoSurplus(events, end, s, e)
  {
    if e < |events| && s <= e && events[e].at != end {
      assert !Within(events[e], start, end);
    }
  }

  lemma EventsOfSlice(events: seq<Event>, start: int, end: int, s: nat, e: nat)
    requires Positions(events, start, end, s, e)
    ensures HoldsInside(events, start, end, Slice(events, s, e + 1))
    ensures EdgesFound(events, start, end, s, e) ==> HoldsWithin(events, start, end, Slice(events, s, e + 1))
  {
    CompleteIff(events, start, end, s, e);
    var slice := Slice(events, s, e + 1);
    forall k | s <= k <= e && k < |events| ensures events[k] in slice {
      assert slice[k - s] == events[k];
    }
  }

  /** Only the last element of the slice can lie outside the interval. */
  lemma SurplusOfSlice(events: seq<Event>, start: int, end: int, s: nat, e: nat)
    requires Positions(events, start, end, s, e)
    ensures SurplusIsLast(events, start, end, Slice(events, s, e + 1))
  {
    var slice := Slice(events, s, e + 1);
    forall k | 0 <= k < |slice|
      ensures slice[k] in events
      ensures !Within(slice[k], start, end) ==> k == |slice| - 1 && FirstAfter(events, end, slice[k])
    {
      assert slice[k] == events[s + k];
    }
  }

  lemma {:induction false} SliceIsFilterWhen(events: seq<Event>, start: int, end: int, s: nat, e: nat)
    requires Positions(events, start, end, s, e)
    ensures Slice(events, s, e + 1) == Filter(events, WithinTest(start, end))
      <==> EdgesFound(events, start, end, s, e) && NoSurplus(events, end, s, e)
  {
    CompleteIff(events, start, end, s, e);
    ExclusiveIff(events, start, end, s, e);
    var a := Prefix(events, (x: Event) => x.at < start);
    var b := Prefix(events, (x: Event) => x.at <= end);
    forall k | 0 <= k < |events| ensures WithinTest(start, end)(events[k]) <==> a <= k < b {
    }
    SliceIsFilterIff(events, WithinTest(start, end), s, e + 1, a, b);
  }

  // ---------------------------------------------------------------------
  // Several events at one time
  // ---------------------------------------------------------------------

  /** When each end of the query is the time of at most one event, none is lost. */
  lemma LoneEndsLoseNothing(events: seq<Event>, start: int, end: int)
    requires Ordered(events) && Lone(events, start) && Lone(events, end)
    ensures CompleteWhen(events, start, end)
  {
    PositionIsPosition(events, start);
    PositionIsPosition(events, end);
  }

  /** The upper end is the time of an event, or lies after all events, or the
      query is reversed around an event. */
  ghost predicate EventsExactlyWhen(events: seq<Event>, start: int, end: int) {
    || (exists k :: 0 <= k < |events| && events[k].at == end)
    || (forall k :: 0 <= k < |events| ==> events[k].at < end)
    || (exists k :: 0 <= k < |events| && end <= events[k].at < start)
  }

  /** Then the surplus event is absent under a condition on the times alone. */
  lemma LoneStartExclusive(events: seq<Event>, start: int, end: int)
    requires Ordered(events) && Lone(events, start)
    ensures ExclusiveWhen(events, start, end) <==> EventsExactlyWhen(events, start, end)
  {
    PositionIsPosition(events, start);
    PositionIsPosition(events, end);
    var s, e := Position(events, start), Position(events, end);
    if e < s && e < |events| && events[e].at > end {
      assert end <= events[e].at < start;
    }
  }

  /** Three events at one time, and a query for it: only the middle one is returned. */
  lemma TiedEventsAreLost(a: string, b: string, c: string)
    ensures var events := [Event(0, a), Event(0, b), Event(0, c)];
      && Ordered(events) && !CompleteWhen(events, 0, 0)
      && Slice(events, Position(events, 0), Position(events, 0) + 1) == [Event(0, b)]
  {
    var events := [Event(0, a), Event(0, b), Event(0, c)];
    assert Position(events, 0) == 1;
    assert events[0].at == 0;
  }

  /** A query for a single time returns one event, however many there are. */
  lemma OneTimeReturnsOne(events: seq<Event>, at: int, i: nat)
    requires Ordered(events) && i < |events| && events[i].at == at
    ensures |Slice(events, Position(events, at), Position(events, at) + 1)| == 1
    ensures CompleteWhen(events, at, at) <==> Lone(events, at)
  {
    PositionIsPosition(events, at);
    var p := Position(events, at);
    if !Lone(events, at) {
      var j, k :| 0 <= j < k < |events| && events[j].at == at && events[k].at == at;
      assert j < p || p < k;
    }
  }

  /** get_events returns all events of every interval exactly when no two events share a time. */
  lemma CompleteForAllIff(events: seq<Event>)
    requires Ordered(events)
    ensures (forall start, end :: CompleteWhen(events, start, end)) <==> Increasing(events)
  {
    if Increasing(events) {
      forall start, end ensures CompleteWhen(events, start, end) {
        LoneEndsLoseNothing(events, start, end);
      }
    } else {
      var i, j :| 0 <= i < j < |events| && events[i].at >= events[j].at;
      assert events[i].at == events[j].at && !Lone(events, events[i].at);
      OneTimeReturnsOne(events, events[i].at, i);
    }
  }
}
