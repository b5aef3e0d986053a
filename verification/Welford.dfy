/** BenchSuite::Log of bench-scheduler.cc: mean and second moment of the run
    results by Welford's online algorithm, over the reals. */
module Welford {

  datatype PhaseResult = PhaseResult(time: real, rate: real, period: real)

  datatype Result = Result(init: PhaseResult, run: PhaseResult)

  /** The six columns of the result table. */
  datatype Column = InitTime | InitRate | InitPeriod | RunTime | RunRate | RunPeriod

  function Cell(r: Result, column: Column): real {
    match column
    case InitTime => r.init.time
    case InitRate => r.init.rate
    case InitPeriod => r.init.period
    case RunTime => r.run.time
    case RunRate => r.run.rate
    case RunPeriod => r.run.period
  }

  ghost function Samples(results: seq<Result>, column: Column): (xs: seq<real>)
    ensures |xs| == |results|
  {
    seq(|results|, k requires 0 <= k < |results| => Cell(results[k], column))
  }

  ghost function Sum(xs: seq<real>): real {
    if xs == [] then 0.0 else Sum(xs[..|xs| - 1]) + xs[|xs| - 1]
  }

  function Product(a: real, b: real): real {
    a * b
  }

  function Square(d: real): real {
    Product(d, d)
  }

  /** The sum of squared deviations from c. */
  ghost function Deviation(xs: seq<real>, c: real): real {
    if xs == [] then 0.0 else Deviation(xs[..|xs| - 1], c) + Square(xs[|xs| - 1] - c)
  }

  ghost function Mean(xs: seq<real>): real
    requires xs != []
  {
    Sum(xs) / |xs| as real
  }

  lemma SquareNonNegative(d: real)
    ensures Square(d) >= 0.0
  {
  }

  lemma {:induction false} DeviationNonNegative(xs: seq<real>, c: real)
    ensures Deviation(xs, c) >= 0.0
  {
    if xs != [] {
      DeviationNonNegative(xs[..|xs| - 1], c);
      SquareNonNegative(xs[|xs| - 1] - c);
    }
  }

  /** What moving the centre from a to b costs for n samples with the given sum. */
  ghost function ShiftCost(sum: real, n: real, a: real, b: real): real {
    2.0 * ((a - b) * (sum - n * a)) + n * Square(a - b)
  }

  lemma ShiftCostStep(x: real, a: real, b: real, sum: real, n: real)
    ensures ShiftCost(sum, n, a, b) + Square(x - b) == Square(x - a) + ShiftCost(sum + x, n + 1.0, a, b)
  {
    var d, y, rest := a - b, x - a, sum - n * a;
    assert sum + x - (n + 1.0) * a == rest + y;
    assert d * (rest + y) == d * rest + d * y;
    assert Square(x - b) == Square(y) + 2.0 * (d * y) + Square(d) by {
      assert x - b == y + d;
      assert (y + d) * (y + d) == y * y + 2.0 * (d * y) + d * d;
    }
    assert (n + 1.0) * Square(d) == n * Square(d) + Square(d);
  }

  lemma {:induction false} DeviationShift(xs: seq<real>, a: real, b: real)
    ensures Deviation(xs, b) == Deviation(xs, a) + ShiftCost(Sum(xs), |xs| as real, a, b)
  {
    if xs == [] {
      assert ShiftCost(0.0, 0.0, a, b) == 0.0;
    } else {
      var n := |xs| - 1;
      DeviationShift(xs[..n], a, b);
      ShiftCostStep(xs[n], a, b, Sum(xs[..n]), n as real);
    }
  }

  /** When a is the mean only the quadratic part remains. */
  lemma ShiftFromMean(sum: real, n: real, a: real, b: real)
    requires a * n == sum
    ensures ShiftCost(sum, n, a, b) == n * Square(a - b)
  {
    assert sum - n * a == 0.0;
  }

  /** The running pair describes the samples seen so far. */
  ghost predicate Tracks(xs: seq<real>, average: real, moment2: real) {
    && Product(average, |xs| as real) == Sum(xs)
    && moment2 == Deviation(xs, average)
  }

  /** ACCUMULATE for one column. */
  function NextAverage(average: real, x: real, count: nat): real
    requires count > 0
  {
    average + (x - average) / count as real
  }

  function NextMoment2(average: real, moment2: real, x: real, count: nat): real
    requires count > 0
  {
    moment2 + Product(x - average, x - NextAverage(average, x, count))
  }

  /** n e^2 + f^2 == d f when d == (n + 1) e and f == d - e. */
  lemma StepAlgebra(n: real, e: real, d: real, f: real)
    requires d == Product(e, n + 1.0) && f == d - e
    ensures Product(n, Square(e)) + Square(f) == Product(d, f)
  {
    assert f == n * e;
    assert n * Square(e) == e * f;
    assert e * f + f * f == (e + f) * f;
  }

  lemma AverageStep(average: real, x: real, n: real, e: real)
    requires e * (n + 1.0) == x - average
    ensures (average + e) * (n + 1.0) == average * n + x
  {
    assert (average + e) * (n + 1.0) == average * n + average + e * (n + 1.0);
  }

  lemma {:induction false} SumStep(xs: seq<real>, x: real, average: real, next: real, e: real)
    requires Product(average, |xs| as real) == Sum(xs) && next == average + e
    requires Product(e, |xs| as real + 1.0) == x - average
    ensures Product(next, |xs + [x]| as real) == Sum(xs + [x])
  {
    assert (xs + [x])[..|xs|] == xs;
    AverageStep(average, x, |xs| as real, e);
  }

  lemma {:induction false} DeviationMoves(xs: seq<real>, average: real, next: real, e: real)
    requires Product(average, |xs| as real) == Sum(xs) && next == average + e
    ensures Deviation(xs, next) == Deviation(xs, average) + Product(|xs| as real, Square(e))
  {
    var n, sum := |xs| as real, Sum(xs);
    DeviationShift(xs, average, next);
    MeanShiftCost(sum, n, average, next, e);
  }

  lemma MeanShiftCost(sum: real, n: real, average: real, next: real, e: real)
    requires Product(average, n) == sum && next == average + e
    ensures ShiftCost(sum, n, average, next) == Product(n, Square(e))
  {
    ShiftFromMean(sum, n, average, next);
    SquareOfNegative(e, average - next);
  }

  lemma SquareOfNegative(e: real, f: real)
    requires f == -e
    ensures Square(f) == Square(e)
  {
  }

  lemma {:induction false} DeviationAppend(xs: seq<real>, x: real, c: real)
    ensures Deviation(xs + [x], c) == Deviation(xs, c) + Square(x - c)
  {
    assert (xs + [x])[..|xs|] == xs;
  }

  lemma {:induction false} DeviationStep(xs: seq<real>, x: real, average: real, next: real, e: real)
    requires Product(average, |xs| as real) == Sum(xs) && next == average + e
    requires Product(e, |xs| as real + 1.0) == x - average
    ensures Deviation(xs + [x], next) == Deviation(xs, average) + Product(x - average, x - next)
  {
    var n, d := |xs| as real, x - average;
    var f := x - next;
    calc {
      Deviation(xs + [x], next);
    == { DeviationAppend(xs, x, next); }
      Deviation(xs, next) + Square(f);
    == { DeviationMoves(xs, average, next, e); }
      Deviation(xs, average) + Product(n, Square(e)) + Square(f);
    == { StepAlgebra(n, e, d, f); }
      Deviation(xs, average) + Product(d, f);
    }
  }

  /** One step of the algorithm keeps the pair exact. */
  lemma StepTracks(xs: seq<real>, x: real, average: real, moment2: real)
    requires Tracks(xs, average, moment2) || (xs == [] && moment2 == 0.0)
    ensures Tracks(xs + [x], NextAverage(average, x, |xs| + 1), NextMoment2(average, moment2, x, |xs| + 1))
  {
    var next := NextAverage(average, x, |xs| + 1);
    var e := next - average;
    IncrementTimesCount(average, x, |xs| + 1);
    SumStep(xs, x, average, next, e);
    DeviationStep(xs, x, average, next, e);
  }

  lemma IncrementTimesCount(average: real, x: real, count: nat)
    requires count > 0
    ensures Product(NextAverage(average, x, count) - average, count as real) == x - average
  {
  }

  function Accumulate(average: Result, x: Result, count: nat): Result
    requires count > 0
  {
    Result(
      PhaseResult(
        NextAverage(average.init.time, x.init.time, count),
        NextAverage(average.init.rate, x.init.rate, count),
        NextAverage(average.init.period, x.init.period, count)),
      PhaseResult(
        NextAverage(average.run.time, x.run.time, count),
        NextAverage(average.run.rate, x.run.rate, count),
        NextAverage(average.run.period, x.run.period, count)))
  }

  function AccumulateMoment2(average: Result, moment2: Result, x: Result, count: nat): Result
    requires count > 0
  {
    Result(
      PhaseResult(
        NextMoment2(average.init.time, moment2.init.time, x.init.time, count),
        NextMoment2(average.init.rate, moment2.init.rate, x.init.rate, count),
        NextMoment2(average.init.period, moment2.init.period, x.init.period, count)),
      PhaseResult(
        NextMoment2(average.run.time, moment2.run.time, x.run.time, count),
        NextMoment2(average.run.rate, moment2.run.rate, x.run.rate, count),
        NextMoment2(average.run.period, moment2.run.period, x.run.period, count)))
  }

  ghost predicate TracksAll(results: seq<Result>, average: Result, moment2: Result) {
    forall c: Column :: Tracks(Samples(results, c), Cell(average, c), Cell(moment2, c))
  }

  lemma AllStepsTrack(results: seq<Result>, x: Result, average: Result, moment2: Result)
    requires TracksAll(results, average, moment2)
      || (results == [] && forall c: Column :: Cell(moment2, c) == 0.0)
    ensures TracksAll(results + [x], Accumulate(average, x, |results| + 1),
                      AccumulateMoment2(average, moment2, x, |results| + 1))
  {
    var count := |results| + 1;
    forall c: Column
      ensures Tracks(Samples(results + [x], c), Cell(Accumulate(average, x, count), c),
                     Cell(AccumulateMoment2(average, moment2, x, count), c))
    {
      assert Samples(results + [x], c) == Samples(results, c) + [Cell(x, c)];
      StepTracks(Samples(results, c), Cell(x, c), Cell(average, c), Cell(moment2, c));
    }
  }

  datatype Summary = TooFewRuns | Summary(average: Result, variance: Result)

  /** The loop of Log; variance is what is passed to sqrt. */
  method Log(results: seq<Result>) returns (summary: Summary)
    ensures summary.TooFewRuns? <==> |results| < 2
    ensures summary.Summary? ==> forall c: Column ::
      && Cell(summary.average, c) == Mean(Samples(results, c))
      && Cell(summary.variance, c) == Deviation(Samples(results, c), Mean(Samples(results, c))) / |results| as real
      && Cell(summary.variance, c) >= 0.0
  {
    if |results| < 2 { return TooFewRuns; }
    var zero := PhaseResult(0.0, 0.0, 0.0);
    var average, moment2 := results[0], Result(zero, zero);
    var n := 0;
    while n < |results|
      invariant 0 <= n <= |results|
      invariant n == 0 ==> moment2 == Result(zero, zero)
      invariant n > 0 ==> TracksAll(results[..n], average, moment2)
    {
      AllStepsTrack(results[..n], results[n], average, moment2);
      assert results[..n + 1] == results[..n] + [results[n]];
      average, moment2 :=
        Accumulate(average, results[n], n + 1), AccumulateMoment2(average, moment2, results[n], n + 1);
      n := n + 1;
    }
    assert results[..n] == results;
    forall c: Column
      ensures Cell(average, c) == Mean(Samples(results, c))
      ensures Cell(moment2, c) / n as real
        == Deviation(Samples(results, c), Mean(Samples(results, c))) / |results| as real >= 0.0
    {
      TrackedMean(Samples(results, c), Cell(average, c), Cell(moment2, c));
    }
    summary := Summary(average, Result(
      PhaseResult(moment2.init.time / n as real, moment2.init.rate / n as real, moment2.init.period / n as real),
      PhaseResult(moment2.run.time / n as real, moment2.run.rate / n as real, moment2.run.period / n as real)));
    forall c: Column ensures Cell(summary.variance, c) == Cell(moment2, c) / n as real {
    }
  }

  lemma {:induction false} TrackedMean(xs: seq<real>, average: real, moment2: real)
    requires xs != [] && Tracks(xs, average, moment2)
    ensures average == Mean(xs) && moment2 == Deviation(xs, Mean(xs))
    ensures moment2 / |xs| as real >= 0.0
  {
    DeviationNonNegative(xs, average);
  }

  /** The mean is the centre of least deviation. */
  lemma {:induction false} MeanMinimises(xs: seq<real>, c: real)
    requires xs != []
    ensures Deviation(xs, Mean(xs)) <= Deviation(xs, c)
  {
    MeanTimesLength(xs);
    CentreMinimises(xs, Mean(xs), c);
  }

  lemma {:induction false} MeanTimesLength(xs: seq<real>)
    requires xs != []
    ensures Product(Mean(xs), |xs| as real) == Sum(xs)
  {
  }

  lemma ProductNonNegative(a: real, b: real)
    requires a >= 0.0 && b >= 0.0
    ensures Product(a, b) >= 0.0
  {
  }

  lemma {:induction false} CentreMinimises(xs: seq<real>, m: real, c: real)
    requires Product(m, |xs| as real) == Sum(xs)
    ensures Deviation(xs, m) <= Deviation(xs, c)
  {
    DeviationMoves(xs, m, c, c - m);
    SquareNonNegative(c - m);
    ProductNonNegative(|xs| as real, Square(c - m));
  }
}
