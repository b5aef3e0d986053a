/** Jain's fairness index as computed in dctcp-example.cc: the exact index and
    its bounds, and the unsigned 64-bit computation of numerator and
    denominator. */
module Fairness {

  /** 2 to the 64. */
  const WORD: nat := 0x1_0000_0000_0000_0000

  function Product(a: int, b: int): int {
    a * b
  }

  function Square(a: int): int {
    Product(a, a)
  }

  ghost function Sum(xs: seq<nat>): nat {
    if xs == [] then 0 else Sum(xs[..|xs| - 1]) + xs[|xs| - 1]
  }

  ghost function SumSquares(xs: seq<nat>): int {
    if xs == [] then 0 else SumSquares(xs[..|xs| - 1]) + Square(xs[|xs| - 1])
  }

  // ---------------------------------------------------------------------
  // The exact index
  // ---------------------------------------------------------------------

  /** The sum of the squared distances of all elements from x. */
  ghost function Gap(xs: seq<nat>, x: int): int {
    if xs == [] then 0 else Gap(xs[..|xs| - 1], x) + Square(xs[|xs| - 1] - x)
  }

  /** The sum of the squared distances of all pairs of elements. */
  ghost function Spread(xs: seq<nat>): int {
    if xs == [] then 0 else Spread(xs[..|xs| - 1]) + Gap(xs[..|xs| - 1], xs[|xs| - 1])
  }

  lemma SquareNonNegative(a: int)
    ensures Square(a) >= 0 && (Square(a) == 0 <==> a == 0)
  {
  }

  lemma SquareOfDifference(a: int, x: int)
    ensures Square(a - x) == Square(a) - 2 * Product(a, x) + Square(x)
  {
  }

  lemma SquareOfSum(a: int, x: int)
    ensures Square(a + x) == Square(a) + 2 * Product(a, x) + Square(x)
  {
  }

  lemma ProductOfSum(a: int, b: int, x: int)
    ensures Product(a + b, x) == Product(a, x) + Product(b, x)
  {
  }

  lemma ProductOfSumRight(n: int, a: int, b: int)
    ensures Product(n + 1, a + b) == Product(n, a) + a + Product(n, b) + b
  {
  }

  lemma {:induction false} GapExpanded(xs: seq<nat>, x: int)
    ensures Gap(xs, x) == SumSquares(xs) - 2 * Product(Sum(xs), x) + Product(|xs|, Square(x))
  {
    if xs != [] {
      var n := |xs| - 1;
      GapExpanded(xs[..n], x);
      SquareOfDifference(xs[n], x);
      ProductOfSum(Sum(xs[..n]), xs[n], x);
      ProductOfSum(n, 1, Square(x));
    }
  }

  /** n times the sum of squares exceeds the squared sum by exactly the spread. */
  lemma {:induction false} SpreadIdentity(xs: seq<nat>)
    ensures Product(|xs|, SumSquares(xs)) == Square(Sum(xs)) + Spread(xs)
  {
    if xs != [] {
      var n := |xs| - 1;
      var front, x := xs[..n], xs[n];
      SpreadIdentity(front);
      GapExpanded(front, x);
      ProductOfSumRight(n, SumSquares(front), Square(x));
      SquareOfSum(Sum(front), x);
    }
  }

  lemma {:induction false} GapZeroIff(xs: seq<nat>, x: int)
    ensures Gap(xs, x) >= 0
    ensures Gap(xs, x) == 0 <==> forall k :: 0 <= k < |xs| ==> xs[k] == x
  {
    if xs != [] {
      var n := |xs| - 1;
      GapZeroIff(xs[..n], x);
      SquareNonNegative(xs[n] - x);
      assert forall k :: 0 <= k < n ==> xs[..n][k] == xs[k];
    }
  }

  ghost predicate AllEqual(xs: seq<nat>) {
    forall i, j :: 0 <= i < |xs| && 0 <= j < |xs| ==> xs[i] == xs[j]
  }

  lemma {:induction false} SpreadZeroIff(xs: seq<nat>)
    ensures Spread(xs) >= 0
    ensures Spread(xs) == 0 <==> AllEqual(xs)
  {
    if xs != [] {
      var n := |xs| - 1;
      SpreadZeroIff(xs[..n]);
      GapZeroIff(xs[..n], xs[n]);
      assert forall k :: 0 <= k < n ==> xs[..n][k] == xs[k];
      if Spread(xs) == 0 {
        forall i, j | 0 <= i < |xs| && 0 <= j < |xs| ensures xs[i] == xs[j] {
          assert forall k :: 0 <= k < n ==> xs[..n][k] == xs[n];
          assert xs[i] == xs[n] && xs[j] == xs[n];
        }
      }
      if AllEqual(xs) {
        assert AllEqual(xs[..n]);
        assert forall k :: 0 <= k < n ==> xs[..n][k] == xs[n];
      }
    }
  }

  ghost predicate AtMostOneNonZero(xs: seq<nat>) {
    forall i, j :: 0 <= i < j < |xs| ==> xs[i] == 0 || xs[j] == 0
  }

  lemma {:induction false} SumZeroIff(xs: seq<nat>)
    ensures Sum(xs) == 0 <==> forall k :: 0 <= k < |xs| ==> xs[k] == 0
  {
    if xs != [] {
      var n := |xs| - 1;
      SumZeroIff(xs[..n]);
      assert forall k :: 0 <= k < n ==> xs[..n][k] == xs[k];
    }
  }

  lemma ProductSign(a: nat, x: nat)
    ensures Product(a, x) >= 0 && (Product(a, x) == 0 <==> a == 0 || x == 0)
  {
  }

  /** The squared sum is at least the sum of squares, with equality exactly
      when at most one element is not zero. */
  lemma {:induction false} SumSquaresBelow(xs: seq<nat>)
    ensures SumSquares(xs) <= Square(Sum(xs))
    ensures SumSquares(xs) == Square(Sum(xs)) <==> AtMostOneNonZero(xs)
  {
    if xs != [] {
      var n := |xs| - 1;
      var front, x := xs[..n], xs[n];
      SumSquaresBelow(front);
      SquareOfSum(Sum(front), x);
      ProductSign(Sum(front), x);
      SumZeroIff(front);
      assert forall k :: 0 <= k < n ==> front[k] == xs[k];
      if AtMostOneNonZero(xs) {
        assert AtMostOneNonZero(front);
        assert x != 0 ==> forall k :: 0 <= k < n ==> front[k] == 0;
      }
      if AtMostOneNonZero(front) && (Sum(front) == 0 || x == 0) {
        forall i, j | 0 <= i < j < |xs| ensures xs[i] == 0 || xs[j] == 0 {
          if j < n {
            assert front[i] == 0 || front[j] == 0;
          }
        }
      }
    }
  }

  lemma {:induction false} SumSquaresPositive(xs: seq<nat>)
    ensures SumSquares(xs) >= 0
    ensures SumSquares(xs) == 0 <==> forall k :: 0 <= k < |xs| ==> xs[k] == 0
  {
    if xs != [] {
      var n := |xs| - 1;
      SumSquaresPositive(xs[..n]);
      SquareNonNegative(xs[n]);
      assert forall k :: 0 <= k < n ==> xs[..n][k] == xs[k];
    }
  }

  /** The fairness quotient, over the reals. */
  ghost function Index(xs: seq<nat>): real
    requires Product(|xs|, SumSquares(xs)) != 0
  {
    Square(Sum(xs)) as real / Product(|xs|, SumSquares(xs)) as real
  }

  lemma QuotientBounds(num: int, n: nat, q: int)
    requires 0 < q <= num <= Product(n, q) && n > 0
    ensures Product(n, q) != 0
    ensures 1.0 / n as real <= num as real / Product(n, q) as real <= 1.0
    ensures num as real / Product(n, q) as real == 1.0 <==> num == Product(n, q)
    ensures num as real / Product(n, q) as real == 1.0 / n as real <==> num == q
  {
    var den := Product(n, q) as real;
    UnitFraction(n as real, q as real, den);
    DividesMonotone(q as real, num as real, den);
    DividesMonotone(num as real, den, den);
  }

  lemma UnitFraction(n: real, q: real, den: real)
    requires n > 0.0 && q > 0.0 && den == n * q
    ensures den > 0.0 && 1.0 / n == q / den
  {
    assert q / den * n == 1.0;
  }

  lemma DividesMonotone(a: real, b: real, den: real)
    requires a <= b && den > 0.0
    ensures a / den <= b / den && (a / den == b / den <==> a == b)
  {
  }

  /** For counters that are not all zero the index lies between 1/n and 1; it
      is 1 exactly when all are equal and 1/n exactly when one alone is not zero. */
  lemma {:induction false} IndexBounds(xs: seq<nat>)
    requires exists k :: 0 <= k < |xs| && xs[k] != 0
    ensures Product(|xs|, SumSquares(xs)) != 0
    ensures 1.0 / |xs| as real <= Index(xs) <= 1.0
    ensures Index(xs) == 1.0 <==> AllEqual(xs)
    ensures Index(xs) == 1.0 / |xs| as real <==> AtMostOneNonZero(xs)
  {
    SumSquaresPositive(xs);
    SumSquaresBelow(xs);
    SpreadIdentity(xs);
    SpreadZeroIff(xs);
    QuotientBounds(Square(Sum(xs)), |xs|, SumSquares(xs));
  }

  // ---------------------------------------------------------------------
  // The 64-bit computation
  // ---------------------------------------------------------------------

  function Wrap(x: int): nat {
    x % WORD
  }

  lemma WrapAdd(a: int, b: int)
    ensures Wrap(Wrap(a) + Wrap(b)) == Wrap(a + b)
  {
  }

  lemma WrapPlus(a: int, b: int)
    ensures Wrap(Wrap(a) + b) == Wrap(a + b)
  {
  }

  lemma WrapMultiple(k: int, r: int)
    ensures Wrap(WORD * k + r) == Wrap(r)
  {
  }

  lemma WrapProduct(a: int, b: int)
    ensures Wrap(Product(a, Wrap(b))) == Wrap(Product(a, b))
  {
    var k, r := b / WORD, Wrap(b);
    assert b == WORD * k + r;
    assert Product(a, b) == WORD * Product(a, k) + Product(a, r) by {
      assert a * (WORD * k + r) == WORD * (a * k) + a * r;
    }
    WrapMultiple(Product(a, k), Product(a, r));
  }

  lemma WrapSquare(a: int)
    ensures Wrap(Square(Wrap(a))) == Wrap(Square(a))
  {
    WrapProduct(Wrap(a), a);
    WrapProduct(a, a);
    assert Product(Wrap(a), a) == Product(a, Wrap(a));
  }

  /** One group of PrintFairness: the numerator and denominator of the quotient
      in unsigned 64-bit arithmetic, for every content of the counters. */
  method NumeratorAndDenominator(bytes: array<nat>) returns (num: nat, den: nat)
    ensures num == Wrap(Square(Sum(bytes[..]))) && den == Wrap(Product(bytes.Length, SumSquares(bytes[..])))
  {
    var sum, sumSquares := 0, 0;
    for i := 0 to bytes.Length
      invariant sum == Wrap(Sum(bytes[..i])) && sumSquares == Wrap(SumSquares(bytes[..i]))
    {
      assert bytes[..i + 1][..i] == bytes[..i];
      WrapAdd(Sum(bytes[..i]), bytes[i]);
      WrapAdd(SumSquares(bytes[..i]), Square(bytes[i]));
      sum := Wrap(sum + Wrap(bytes[i]));
      sumSquares := Wrap(sumSquares + Wrap(Square(bytes[i])));
    }
    assert bytes[..bytes.Length] == bytes[..];
    WrapSquare(Sum(bytes[..]));
    WrapProduct(bytes.Length, SumSquares(bytes[..]));
    num := Wrap(Square(sum));
    den := Wrap(Product(bytes.Length, sumSquares));
  }

  /** What the source prints: a division by zero yields no finite number. */
  datatype Printed = NotANumber | Value(quotient: real)

  function Quotient(num: nat, den: nat): Printed {
    if den == 0 then NotANumber else Value(num as real / den as real)
  }

  /** The printed index of the given byte counts: the quotient of the two words. */
  ghost function PrintedIndex(xs: seq<nat>): Printed {
    Quotient(Wrap(Square(Sum(xs))), Wrap(Product(|xs|, SumSquares(xs))))
  }

  /** The words lose the same multiple of numerator and denominator, and the
      denominator does not vanish. */
  ghost predicate OverflowsAlike(num: int, den: int) {
    Wrap(den) != 0 && Product(num / WORD, den) == Product(den / WORD, num)
  }

  lemma CrossMultiplied(a: real, b: real, c: real, d: real)
    requires b > 0.0 && d > 0.0
    ensures a / b == c / d <==> a * d == c * b
  {
    var x, y := a / b, c / d;
    assert a == x * b && c == y * d;
    ScaledEqual(x, y, b * d, a * d, c * b);
  }

  lemma ScaledEqual(x: real, y: real, k: real, xk: real, yk: real)
    requires k > 0.0 && xk == x * k && yk == y * k
    ensures x == y <==> xk == yk
  {
  }

  /** Cross products of the words and of the exact values agree exactly when the
      multiples of the word size that are lost do. */
  lemma LostMultiples(num: int, den: int)
    ensures Product(Wrap(num), den) == Product(Wrap(den), num)
      <==> Product(num / WORD, den) == Product(den / WORD, num)
  {
    LostMultiple(num, den);
    LostMultiple(den, num);
    assert Product(num, den) == Product(den, num);
  }

  lemma LostMultiple(a: int, b: int)
    ensures Product(a, b) == WORD * Product(a / WORD, b) + Product(Wrap(a), b)
  {
    var k, r := a / WORD, Wrap(a);
    assert a == WORD * k + r;
    assert (WORD * k + r) * b == WORD * (k * b) + r * b;
  }

  lemma QuotientsEqualIff(num: nat, den: nat)
    requires Wrap(den) != 0
    ensures den > 0
    ensures Wrap(num) as real / Wrap(den) as real == num as real / den as real
      <==> Product(Wrap(num), den) == Product(Wrap(den), num)
  {
    CrossMultiplied(Wrap(num) as real, Wrap(den) as real, num as real, den as real);
    ProductAsReal(Wrap(num), den);
    ProductAsReal(Wrap(den), num);
  }

  lemma ProductAsReal(a: int, b: int)
    ensures Product(a, b) as real == a as real * b as real == b as real * a as real
  {
  }

  lemma {:induction false} NumeratorAndDenominatorSigns(xs: seq<nat>)
    ensures 0 <= Square(Sum(xs)) <= Product(|xs|, SumSquares(xs))
    ensures Square(Sum(xs)) == Product(|xs|, SumSquares(xs)) <==> AllEqual(xs)
  {
    SpreadIdentity(xs);
    SpreadZeroIff(xs);
    SquareNonNegative(Sum(xs));
  }

  /** The printed quotient is the index exactly when both words overflow alike. */
  lemma {:induction false} PrintedExactIff(xs: seq<nat>)
    requires Product(|xs|, SumSquares(xs)) != 0
    ensures PrintedIndex(xs) == Value(Index(xs))
      <==> OverflowsAlike(Square(Sum(xs)), Product(|xs|, SumSquares(xs)))
  {
    var num, den := Square(Sum(xs)), Product(|xs|, SumSquares(xs));
    NumeratorAndDenominatorSigns(xs);
    if Wrap(den) != 0 {
      QuotientsEqualIff(num, den);
      LostMultiples(num, den);
    }
  }

  lemma WrapSmallIff(x: nat)
    ensures Wrap(x) == x <==> x < WORD
  {
  }

  /** The two words are the exact numbers exactly when n times the sum of squares
      fits in 64 bits; the squared sum then fits as well. */
  lemma {:induction false} WordsExactIff(xs: seq<nat>)
    ensures Wrap(Square(Sum(xs))) == Square(Sum(xs))
         && Wrap(Product(|xs|, SumSquares(xs))) == Product(|xs|, SumSquares(xs))
      <==> Product(|xs|, SumSquares(xs)) < WORD
  {
    NumeratorAndDenominatorSigns(xs);
    WrapSmallIff(Square(Sum(xs)));
    WrapSmallIff(Product(|xs|, SumSquares(xs)));
  }

  /** The bound suffices: while n times the sum of squares fits in 64 bits the index is exact. */
  lemma {:induction false} ExactBelowBound(xs: seq<nat>)
    requires 0 < Product(|xs|, SumSquares(xs)) < WORD
    ensures PrintedIndex(xs) == Value(Index(xs))
  {
    WordsExactIff(xs);
  }

  lemma QuotientOfEqual(num: nat, den: nat)
    requires num == den && den > 0
    ensures Quotient(num, den) == Value(1.0)
  {
  }

  /** Equal counters print 1 at any size, unless the denominator wraps to zero. */
  lemma {:induction false} ExactForEqual(xs: seq<nat>)
    requires AllEqual(xs) && Product(|xs|, SumSquares(xs)) != 0
    ensures Index(xs) == 1.0
    ensures PrintedIndex(xs) == Value(Index(xs)) <==> Wrap(Product(|xs|, SumSquares(xs))) != 0
  {
    var num, den := Square(Sum(xs)), Product(|xs|, SumSquares(xs));
    assert num == den > 0 by { NumeratorAndDenominatorSigns(xs); }
    QuotientOfEqual(num, den);
    if Wrap(den) != 0 {
      QuotientOfEqual(Wrap(num), Wrap(den));
    }
  }

  lemma {:induction false} ZerosAdd(xs: seq<nat>)
    requires forall k :: 0 <= k < |xs| ==> xs[k] == 0
    ensures Sum(xs) == 0 && SumSquares(xs) == 0
  {
    SumZeroIff(xs);
    SumSquaresPositive(xs);
  }

  /** One flow of four gigabytes among silent ones: the denominator wraps to
      zero although the index is 1/n. */
  lemma OverflowDividesByZero(zeros: seq<nat>)
    requires forall k :: 0 <= k < |zeros| ==> zeros[k] == 0
    ensures var xs := zeros + [0x1_0000_0000];
      Wrap(Square(Sum(xs))) == 0 && Wrap(Product(|xs|, SumSquares(xs))) == 0
      && Product(|xs|, SumSquares(xs)) > 0
  {
    var xs := zeros + [0x1_0000_0000];
    assert xs[..|zeros|] == zeros;
    ZerosAdd(zeros);
    assert Sum(xs) == 0x1_0000_0000;
    assert Square(0x1_0000_0000) == WORD;
    assert SumSquares(xs) == WORD;
    WrapMultiple(1, 0);
    WrapMultiple(|xs|, 0);
  }

  lemma OneByteMore(zeros: seq<nat>)
    requires forall k :: 0 <= k < |zeros| ==> zeros[k] == 0
    ensures var xs := zeros + [1, 0x1_0000_0000];
      Sum(xs) == 0x1_0000_0001 && SumSquares(xs) == WORD + 1
  {
    var front, xs := zeros + [1], zeros + [1, 0x1_0000_0000];
    assert xs[..|front|] == front && front[..|zeros|] == zeros;
    ZerosAdd(zeros);
    assert Square(1) == 1 && Square(0x1_0000_0000) == WORD;
  }

  lemma WordsOfOneByteMore(n: nat)
    requires n < WORD
    ensures Wrap(Square(0x1_0000_0001)) == 0x2_0000_0001 && Wrap(Product(n, WORD + 1)) == n
  {
    assert Square(0x1_0000_0001) == WORD * 1 + 0x2_0000_0001;
    WrapMultiple(1, 0x2_0000_0001);
    assert Product(n, WORD + 1) == WORD * n + n;
    WrapMultiple(n, n);
  }

  lemma QuotientAboveOne(num: nat, den: nat)
    requires 0 < den < num
    ensures Quotient(num, den).Value? && Quotient(num, den).quotient > 1.0
  {
    DividesMonotone(den as real, num as real, den as real);
  }

  /** The same flow beside one that received a single byte: the printed index
      is above 1. */
  lemma OverflowExceedsOne(zeros: seq<nat>)
    requires forall k :: 0 <= k < |zeros| ==> zeros[k] == 0
    requires |zeros| + 2 <= 0x2_0000_0000
    ensures var xs := zeros + [1, 0x1_0000_0000];
      PrintedIndex(xs).Value? && PrintedIndex(xs).quotient > 1.0
  {
    var n := |zeros| + 2;
    OneByteMore(zeros);
    WordsOfOneByteMore(n);
    QuotientAboveOne(0x2_0000_0001, n);
  }

  // ---------------------------------------------------------------------
  // The counters over a measurement window
  // ---------------------------------------------------------------------

  /** A packet received: the index of its flow and its size. */
  type Packet = (nat, nat)

  /** The bytes flow number flow has received. */
  ghost function Received(packets: seq<Packet>, flow: nat): nat {
    if packets == [] then 0
    else
      var (index, size) := packets[|packets| - 1];
      Received(packets[..|packets| - 1], flow) + if index == flow then size else 0
  }

  /** The bytes each of the flows has received. */
  ghost function Loads(packets: seq<Packet>, flows: nat): (xs: seq<nat>)
    ensures |xs| == flows && forall k :: 0 <= k < flows ==> xs[k] == Received(packets, k)
  {
    seq(flows, k requires 0 <= k => Received(packets, k))
  }

  ghost function Bytes(packets: seq<Packet>): nat {
    if packets == [] then 0 else Bytes(packets[..|packets| - 1]) + packets[|packets| - 1].1
  }

  /** Only the packets of the flow count for it, each with its size. */
  lemma {:induction false} ReceivedOnly(packets: seq<Packet>, flow: nat)
    ensures (forall k :: 0 <= k < |packets| ==> packets[k].0 == flow) ==> Received(packets, flow) == Bytes(packets)
    ensures (forall k :: 0 <= k < |packets| ==> packets[k].0 != flow) ==> Received(packets, flow) == 0
  {
    if packets != [] {
      var front := packets[..|packets| - 1];
      assert forall k :: 0 <= k < |front| ==> front[k] == packets[k];
      ReceivedOnly(front, flow);
    }
  }

  lemma {:induction false} SumUpdate(xs: seq<nat>, i: nat, d: nat)
    requires i < |xs|
    ensures Sum(xs[i := xs[i] + d]) == Sum(xs) + d
  {
    var n := |xs| - 1;
    var more := xs[i := xs[i] + d];
    if i < n {
      SumUpdate(xs[..n], i, d);
      assert more[..n] == xs[..n][i := xs[..n][i] + d];
    } else {
      assert more[..n] == xs[..n];
    }
  }

  /** The flows of a group together receive the bytes of all its packets. */
  lemma {:induction false} LoadsConserve(packets: seq<Packet>, flows: nat)
    requires forall k :: 0 <= k < |packets| ==> packets[k].0 < flows
    ensures Sum(Loads(packets, flows)) == Bytes(packets)
  {
    if packets == [] {
      SumZeroIff(Loads(packets, flows));
    } else {
      var n := |packets| - 1;
      var front, last := packets[..n], packets[n];
      assert forall k :: 0 <= k < n ==> front[k] == packets[k];
      LoadsConserve(front, flows);
      var xs := Loads(front, flows);
      assert last.0 < flows;
      SumUpdate(xs, last.0, last.1);
      assert Loads(packets, flows) == xs[last.0 := xs[last.0] + last.1];
    }
  }

  /** Counters that wrapped add up to the same words. */
  lemma {:induction false} WrappedSums(xs: seq<nat>, counters: seq<nat>)
    requires |counters| == |xs| && forall k :: 0 <= k < |xs| ==> counters[k] == Wrap(xs[k])
    ensures Wrap(Sum(counters)) == Wrap(Sum(xs)) && Wrap(SumSquares(counters)) == Wrap(SumSquares(xs))
  {
    if xs != [] {
      var n := |xs| - 1;
      WrappedSums(xs[..n], counters[..n]);
      WrapOfSum(Sum(counters[..n]), Sum(xs[..n]), counters[n], xs[n]);
      WrapSquare(xs[n]);
      WrapOfSum(SumSquares(counters[..n]), SumSquares(xs[..n]), Square(counters[n]), Square(xs[n]));
    }
  }

  lemma WrapOfSum(a: int, b: int, x: int, y: int)
    requires Wrap(a) == Wrap(b) && Wrap(x) == Wrap(y)
    ensures Wrap(a + x) == Wrap(b + y)
  {
    WrapAdd(a, x);
    WrapAdd(b, y);
  }

  lemma WrappedCounters(xs: seq<nat>, counters: seq<nat>)
    requires |counters| == |xs| && forall k :: 0 <= k < |xs| ==> counters[k] == Wrap(xs[k])
    ensures PrintedIndex(counters) == PrintedIndex(xs)
  {
    WrappedSums(xs, counters);
    WrapSquare(Sum(xs));
    WrapSquare(Sum(counters));
    WrapProduct(|xs|, SumSquares(xs));
    WrapProduct(|xs|, SumSquares(counters));
  }

  datatype Group = S1R1 | S2R2 | S3R1 {
    function Flows(): nat {
      if this.S2R2? then 20 else 10
    }
  }

  /** A call of one of the three sinks. */
  datatype Arrival = Arrival(group: Group, index: nat, size: nat)

  /** The packets of a group among the arrivals. */
  ghost function PacketsOf(arrivals: seq<Arrival>, group: Group): seq<Packet> {
    if arrivals == [] then []
    else
      var n := |arrivals| - 1;
      PacketsOf(arrivals[..n], group)
      + if arrivals[n].group == group then [(arrivals[n].index, arrivals[n].size)] else []
  }

  ghost function LoadsOf(arrivals: seq<Arrival>, group: Group): seq<nat> {
    Loads(PacketsOf(arrivals, group), group.Flows())
  }

  class FlowCounters {
    const s1r1: array<nat>
    const s2r2: array<nat>
    const s3r1: array<nat>
    /** The packets received since the counters were initialised. */
    ghost var s1r1Packets: seq<Packet>
    ghost var s2r2Packets: seq<Packet>
    ghost var s3r1Packets: seq<Packet>

    ghost predicate Counts(a: array<nat>, packets: seq<Packet>)
      reads a
    {
      forall flow :: 0 <= flow < a.Length ==> a[flow] == Wrap(Received(packets, flow))
    }

    ghost predicate Valid()
      reads this, s1r1, s2r2, s3r1
    {
      && s1r1 != s2r2 && s1r1 != s3r1 && s2r2 != s3r1
      && s1r1.Length == 10 && s2r2.Length == 20 && s3r1.Length == 10
      && Counts(s1r1, s1r1Packets) && Counts(s2r2, s2r2Packets) && Counts(s3r1, s3r1Packets)
    }

    constructor ()
      ensures Valid() && s1r1Packets == s2r2Packets == s3r1Packets == []
    {
      s1r1, s2r2, s3r1 := new nat[10](_ => 0), new nat[20](_ => 0), new nat[10](_ => 0);
      s1r1Packets, s2r2Packets, s3r1Packets := [], [], [];
    }

    method InitializeCounters()
      requires Valid()
      modifies this, s1r1, s2r2, s3r1
      ensures Valid() && s1r1Packets == s2r2Packets == s3r1Packets == []
    {
      Clear(s1r1);
      Clear(s2r2);
      Clear(s3r1);
      s1r1Packets, s2r2Packets, s3r1Packets := [], [], [];
    }

    static method Clear(a: array<nat>)
      modifies a
      ensures forall i :: 0 <= i < a.Length ==> a[i] == 0
    {
      for i := 0 to a.Length
        invariant forall k :: 0 <= k < i ==> a[k] == 0
      {
        a[i] := 0;
      }
    }

    lemma {:induction false} CountsAfter(a: array<nat>, packets: seq<Packet>, index: nat, size: nat, flow: nat)
      requires index < a.Length && flow < a.Length && Counts(a, packets)
      ensures Wrap(Received(packets + [(index, size)], flow))
        == if flow == index then Wrap(a[index] + size) else a[flow]
    {
      assert (packets + [(index, size)])[..|packets|] == packets;
      if flow == index {
        WrapPlus(Received(packets, flow), size);
      }
    }

    method TraceS1R1Sink(index: nat, size: nat)
      requires Valid() && index < 10
      modifies this, s1r1
      ensures Valid() && s1r1Packets == old(s1r1Packets) + [(index, size)]
      ensures s2r2Packets == old(s2r2Packets) && s3r1Packets == old(s3r1Packets)
    {
      forall flow | 0 <= flow < s1r1.Length { CountsAfter(s1r1, s1r1Packets, index, size, flow); }
      s1r1[index] := Wrap(s1r1[index] + size);
      s1r1Packets := s1r1Packets + [(index, size)];
    }

    method TraceS2R2Sink(index: nat, size: nat)
      requires Valid() && index < 20
      modifies this, s2r2
      ensures Valid() && s2r2Packets == old(s2r2Packets) + [(index, size)]
      ensures s1r1Packets == old(s1r1Packets) && s3r1Packets == old(s3r1Packets)
    {
      forall flow | 0 <= flow < s2r2.Length { CountsAfter(s2r2, s2r2Packets, index, size, flow); }
      s2r2[index] := Wrap(s2r2[index] + size);
      s2r2Packets := s2r2Packets + [(index, size)];
    }

    method TraceS3R1Sink(index: nat, size: nat)
      requires Valid() && index < 10
      modifies this, s3r1
      ensures Valid() && s3r1Packets == old(s3r1Packets) + [(index, size)]
      ensures s1r1Packets == old(s1r1Packets) && s2r2Packets == old(s2r2Packets)
    {
      forall flow | 0 <= flow < s3r1.Length { CountsAfter(s3r1, s3r1Packets, index, size, flow); }
      s3r1[index] := Wrap(s3r1[index] + size);
      s3r1Packets := s3r1Packets + [(index, size)];
    }

    /** The index of one group, from its counters. */
    method GroupFairness(a: array<nat>, ghost packets: seq<Packet>) returns (printed: Printed)
      requires Counts(a, packets)
      ensures printed == PrintedIndex(Loads(packets, a.Length))
    {
      var num, den := NumeratorAndDenominator(a);
      WrappedCounters(Loads(packets, a.Length), a[..]);
      printed := Quotient(num, den);
    }

    method PrintFairness() returns (s1r1Index: Printed, s2r2Index: Printed, s3r1Index: Printed)
      requires Valid()
      ensures s1r1Index == PrintedIndex(Loads(s1r1Packets, 10))
      ensures s2r2Index == PrintedIndex(Loads(s2r2Packets, 20))
      ensures s3r1Index == PrintedIndex(Loads(s3r1Packets, 10))
    {
      s1r1Index := GroupFairness(s1r1, s1r1Packets);
      s2r2Index := GroupFairness(s2r2, s2r2Packets);
      s3r1Index := GroupFairness(s3r1, s3r1Packets);
    }

    ghost predicate Describes(arrivals: seq<Arrival>)
      reads this
    {
      && s1r1Packets == PacketsOf(arrivals, S1R1)
      && s2r2Packets == PacketsOf(arrivals, S2R2)
      && s3r1Packets == PacketsOf(arrivals, S3R1)
    }

    method Arrive(arrival: Arrival, ghost before: seq<Arrival>)
      requires Valid() && Describes(before) && arrival.index < arrival.group.Flows()
      modifies this, s1r1, s2r2, s3r1
      ensures Valid() && Describes(before + [arrival])
    {
      assert (before + [arrival])[..|before|] == before;
      match arrival.group
      case S1R1 => TraceS1R1Sink(arrival.index, arrival.size);
      case S2R2 => TraceS2R2Sink(arrival.index, arrival.size);
      case S3R1 => TraceS3R1Sink(arrival.index, arrival.size);
    }

    method CountWindow(arrivals: seq<Arrival>)
      requires Valid() && forall k :: 0 <= k < |arrivals| ==> arrivals[k].index < arrivals[k].group.Flows()
      modifies this, s1r1, s2r2, s3r1
      ensures Valid() && Describes(arrivals)
    {
      InitializeCounters();
      for i := 0 to |arrivals|
        invariant Valid() && Describes(arrivals[..i])
      {
        assert arrivals[..i + 1] == arrivals[..i] + [arrivals[i]];
        Arrive(arrivals[i], arrivals[..i]);
      }
      assert arrivals[..|arrivals|] == arrivals;
    }

    /** A measurement window: the counters are cleared, the sinks called in any
        order, the indices printed.  For a group that received anything, what is
        printed is the index of the bytes received in the window exactly when
        the two words overflow alike. */
    method Measure(arrivals: seq<Arrival>) returns (printed: map<Group, Printed>)
      requires Valid() && forall k :: 0 <= k < |arrivals| ==> arrivals[k].index < arrivals[k].group.Flows()
      modifies this, s1r1, s2r2, s3r1
      ensures Valid() && Describes(arrivals) && printed.Keys == {S1R1, S2R2, S3R1}
      ensures forall group <- printed.Keys :: ReportsWindow(LoadsOf(arrivals, group), printed[group])
    {
      CountWindow(arrivals);
      var first, second, third := PrintFairness();
      printed := map[S1R1 := first, S2R2 := second, S3R1 := third];
      WindowReported(LoadsOf(arrivals, S1R1));
      WindowReported(LoadsOf(arrivals, S2R2));
      WindowReported(LoadsOf(arrivals, S3R1));
    }
  }

  /** Silence prints no number; anything else prints the index of the loads
      exactly when the words overflow alike. */
  ghost predicate ReportsWindow(loads: seq<nat>, printed: Printed) {
    if forall k :: 0 <= k < |loads| ==> loads[k] == 0 then printed == NotANumber
    else
      && Product(|loads|, SumSquares(loads)) != 0
      && (printed == Value(Index(loads))
          <==> OverflowsAlike(Square(Sum(loads)), Product(|loads|, SumSquares(loads))))
  }

  lemma WindowReported(loads: seq<nat>)
    ensures ReportsWindow(loads, PrintedIndex(loads))
  {
    if forall k :: 0 <= k < |loads| ==> loads[k] == 0 {
      ZerosAdd(loads);
      assert Product(|loads|, 0) == 0;
    } else {
      IndexBounds(loads);
      PrintedExactIff(loads);
    }
  }
}
