/** The memory-growth trend of a supervised run, over exact real arithmetic. */
module RssTrend {

  datatype Sample = Sample(at: real, rss: int)

  datatype Report = Report(evaluated: bool, samples: nat, growthGib: real, slopeMibPerMinute: real, nondecreasingRatio: real)

  const GIB: real := 1073741824.0
  const MIB: real := 1048576.0

  function Live(samples: seq<Sample>, n: nat): (live: seq<Sample>)
    requires n <= |samples|
    ensures |live| <= n
  {
    if n == 0 then []
    else Live(samples, n - 1) + if samples[n - 1].rss > 0 then [samples[n - 1]] else []
  }

  /** What is left of the live samples behind the warm-up: at least ten, or a third, are dropped. */
  function Tail(live: seq<Sample>): (tail: seq<Sample>) {
    if |live| >= 12 then
      var dropped := if |live| / 3 > 10 then |live| / 3 else 10;
      live[dropped..]
    else []
  }

  function Times(s: seq<Sample>, n: nat): real
    requires n <= |s|
  {
    if n == 0 then 0.0 else Times(s, n - 1) + s[n - 1].at
  }

  function Values(s: seq<Sample>, n: nat): real
    requires n <= |s|
  {
    if n == 0 then 0.0 else Values(s, n - 1) + s[n - 1].rss as real
  }

  lemma SameSignPositive(x: real, y: real)
    requires (x > 0.0 && y > 0.0) || (x < 0.0 && y < 0.0)
    ensures x * y > 0.0
  {
    if x < 0.0 {
      assert x * y == (-x) * (-y);
    }
  }

  function Square(x: real): (square: real)
    ensures square >= 0.0 && (x != 0.0 ==> square > 0.0)
  {
    if x == 0.0 then 0.0
    else
      var y := x;
      SameSignPositive(x, y);
      x * y
  }

  /** The centred sum of squares of the times. */
  function Spread(s: seq<Sample>, mean: real, n: nat): real
    requires n <= |s|
  {
    if n == 0 then 0.0 else Spread(s, mean, n - 1) + Square(s[n - 1].at - mean)
  }

  /** The sum of centred products of times and values. */
  function Products(s: seq<Sample>, mean: real, centre: real, n: nat): real
    requires n <= |s|
  {
    if n == 0 then 0.0
    else Products(s, mean, centre, n - 1) + (s[n - 1].at - mean) * (s[n - 1].rss as real - centre)
  }

  function MeanTime(s: seq<Sample>): real
    requires s != []
  {
    Times(s, |s|) / |s| as real
  }

  function MeanValue(s: seq<Sample>): real
    requires s != []
  {
    Values(s, |s|) / |s| as real
  }

  /** The least-squares slope, zero when all times coincide. */
  function Slope(s: seq<Sample>): real
    requires s != []
  {
    var spread := Spread(s, MeanTime(s), |s|);
    if spread == 0.0 then 0.0 else Products(s, MeanTime(s), MeanValue(s), |s|) / spread
  }

  function Rises(s: seq<Sample>, n: nat): (rises: nat)
    requires n <= |s|
    ensures rises <= (if n == 0 then 0 else n - 1)
  {
    if n <= 1 then 0 else Rises(s, n - 1) + if s[n - 1].rss >= s[n - 2].rss then 1 else 0
  }

  function Ratio(s: seq<Sample>): real
    requires |s| >= 2
  {
    Rises(s, |s|) as real / (|s| - 1) as real
  }

  function Trend(samples: seq<Sample>): Report {
    var tail := Tail(Live(samples, |samples|));
    if |tail| < 3 then Report(false, |tail|, 0.0, 0.0, 0.0)
    else Measured(tail)
  }

  function Measured(tail: seq<Sample>): Report
    requires |tail| >= 3
  {
    Report(true, |tail|, (tail[|tail| - 1].rss - tail[0].rss) as real / GIB, Slope(tail) * 60.0 / MIB, Ratio(tail))
  }

  /** The trend is evaluated exactly from thirteen live samples on: twelve pass the first gate but leave
      too short a tail. */
  lemma EvaluatedIff(samples: seq<Sample>)
    ensures Trend(samples).evaluated <==> |Live(samples, |samples|)| >= 13
  {
  }

  // ---------------------------------------------------------------- centring

  ghost predicate Shifts(s: seq<Sample>, mean: real, a: real, b: real, n: nat)
    requires n <= |s|
  {
    Products(s, mean, a, n) == Products(s, mean, b, n) + (b - a) * (Times(s, n) - n as real * mean)
  }

  lemma ShiftStep(pa: real, pb: real, t: real, v: real, mean: real, a: real, b: real, times: real, n: real)
    requires pa == pb + (b - a) * (times - (n - 1.0) * mean)
    ensures pa + (t - mean) * (v - a) == pb + (t - mean) * (v - b) + (b - a) * (times + t - n * mean)
  {
    var before, step := times - (n - 1.0) * mean, t - mean;
    assert times + t - n * mean == before + step;
    assert (b - a) * (before + step) == (b - a) * before + (b - a) * step;
    assert step * (v - a) == step * (v - b) + step * (b - a);
  }

  lemma ShiftNext(s: seq<Sample>, mean: real, a: real, b: real, n: nat)
    requires n < |s| && Shifts(s, mean, a, b, n)
    ensures Shifts(s, mean, a, b, n + 1)
  {
    ShiftStep(Products(s, mean, a, n), Products(s, mean, b, n), s[n].at, s[n].rss as real, mean, a, b,
              Times(s, n), (n + 1) as real);
  }

  lemma {:induction false} ProductsShift(s: seq<Sample>, mean: real, a: real, b: real, n: nat)
    requires n <= |s|
    ensures Shifts(s, mean, a, b, n)
  {
    if n > 0 {
      ProductsShift(s, mean, a, b, n - 1);
      ShiftNext(s, mean, a, b, n - 1);
    }
  }

  lemma MeanTimesCount(total: real, count: real)
    requires count > 0.0
    ensures total - count * (total / count) == 0.0
  {
  }

  lemma TimesZero(x: real, y: real)
    requires y == 0.0
    ensures x * y == 0.0
  {
  }

  /** Against the mean time, the centre of the values does not matter. */
  lemma CentreIrrelevant(s: seq<Sample>, a: real, b: real)
    requires s != []
    ensures Products(s, MeanTime(s), a, |s|) == Products(s, MeanTime(s), b, |s|)
  {
    ProductsShift(s, MeanTime(s), a, b, |s|);
    MeanTimesCount(Times(s, |s|), |s| as real);
    TimesZero(b - a, Times(s, |s|) - |s| as real * MeanTime(s));
  }

  // ---------------------------------------------------------------- monotone data

  predicate TimesIncrease(s: seq<Sample>) {
    forall i, j :: 0 <= i < j < |s| ==> s[i].at < s[j].at
  }

  predicate ValuesNondecreasing(s: seq<Sample>) {
    forall i, j :: 0 <= i < j < |s| ==> s[i].rss <= s[j].rss
  }

  lemma {:induction false} SpreadNonnegative(s: seq<Sample>, mean: real, n: nat)
    requires n <= |s|
    ensures Spread(s, mean, n) >= 0.0
  {
    if n > 0 {
      SpreadNonnegative(s, mean, n - 1);
    }
  }

  lemma {:induction false} SpreadPositive(s: seq<Sample>, mean: real, n: nat, i: nat)
    requires i < n <= |s| && s[i].at != mean
    ensures Spread(s, mean, n) > 0.0
  {
    if i < n - 1 {
      SpreadPositive(s, mean, n - 1, i);
    } else {
      assert Square(s[n - 1].at - mean) > 0.0;
      SpreadNonnegative(s, mean, n - 1);
    }
  }

  lemma DistinctTimesSpread(s: seq<Sample>, mean: real)
    requires |s| >= 2 && TimesIncrease(s)
    ensures Spread(s, mean, |s|) > 0.0
  {
    SpreadPositive(s, mean, |s|, if s[0].at != mean then 0 else 1);
  }

  /** The first index whose time is past the mean. */
  lemma {:induction false} Crossing(s: seq<Sample>, mean: real, n: nat) returns (k: nat)
    requires n <= |s| && TimesIncrease(s)
    ensures k <= n
    ensures forall i :: 0 <= i < k ==> s[i].at <= mean
    ensures forall i :: k <= i < n ==> s[i].at > mean
  {
    if n == 0 {
      k := 0;
    } else {
      k := Crossing(s, mean, n - 1);
      if s[n - 1].at <= mean {
        k := n;
      }
    }
  }

  lemma ProductSign(x: real, y: real)
    requires (x <= 0.0 && y <= 0.0) || (x >= 0.0 && y >= 0.0)
    ensures x * y >= 0.0
  {
  }

  lemma {:induction false} ProductsNonnegative(s: seq<Sample>, mean: real, centre: real, n: nat)
    requires n <= |s|
    requires forall i :: 0 <= i < n ==>
      (s[i].at <= mean && s[i].rss as real <= centre) || (s[i].at >= mean && s[i].rss as real >= centre)
    ensures Products(s, mean, centre, n) >= 0.0
  {
    if n > 0 {
      ProductsNonnegative(s, mean, centre, n - 1);
      ProductSign(s[n - 1].at - mean, s[n - 1].rss as real - centre);
    }
  }

  lemma {:induction false} AllRise(s: seq<Sample>, n: nat)
    requires n <= |s| && ValuesNondecreasing(s)
    ensures Rises(s, n) == if n == 0 then 0 else n - 1
  {
    if n > 1 {
      AllRise(s, n - 1);
    }
  }

  lemma GrowthProducts(s: seq<Sample>)
    requires s != [] && TimesIncrease(s) && ValuesNondecreasing(s)
    ensures Products(s, MeanTime(s), MeanValue(s), |s|) >= 0.0
  {
    var k := Crossing(s, MeanTime(s), |s|);
    var pivot := s[if k == 0 then 0 else k - 1].rss as real;
    ProductsNonnegative(s, MeanTime(s), pivot, |s|);
    CentreIrrelevant(s, MeanValue(s), pivot);
  }

  lemma QuotientIs(x: real, y: real, quotient: real)
    requires y > 0.0 && x == quotient * y
    ensures x / y == quotient
  {
  }

  lemma FullRatio(s: seq<Sample>)
    requires |s| >= 2 && ValuesNondecreasing(s)
    ensures Ratio(s) == 1.0
  {
    AllRise(s, |s|);
    var steps := (|s| - 1) as real;
    assert Rises(s, |s|) as real == steps;
    QuotientIs(steps, steps, 1.0);
  }

  /** Chebyshev's sum inequality: with increasing times, memory that never shrinks has a slope that is
      not negative, and its nondecreasing ratio is one. */
  lemma GrowthHasNonnegativeSlope(s: seq<Sample>)
    requires |s| >= 2 && TimesIncrease(s) && ValuesNondecreasing(s)
    ensures Slope(s) >= 0.0 && Ratio(s) == 1.0
  {
    GrowthProducts(s);
    DistinctTimesSpread(s, MeanTime(s));
    QuotientSign(Products(s, MeanTime(s), MeanValue(s), |s|), Spread(s, MeanTime(s), |s|));
    FullRatio(s);
  }

  lemma QuotientSign(x: real, y: real)
    requires x >= 0.0 && y > 0.0
    ensures x / y >= 0.0
  {
  }

  // ---------------------------------------------------------------- affine data

  predicate OnLine(sample: Sample, slope: real, start: real) {
    sample.rss as real == start + slope * sample.at
  }

  predicate Affine(s: seq<Sample>, slope: real, start: real) {
    forall i :: 0 <= i < |s| ==> OnLine(s[i], slope, start)
  }

  ghost predicate AffineTo(s: seq<Sample>, slope: real, mean: real, centre: real, n: nat)
    requires n <= |s|
  {
    Products(s, mean, centre, n) == slope * Spread(s, mean, n)
  }

  lemma AffineStep(products: real, spread: real, slope: real, x: real, y: real)
    requires products == slope * spread && y == slope * x
    ensures products + x * y == slope * (spread + Square(x))
  {
    assert x * y == slope * (x * x);
  }

  lemma AffineOffset(slope: real, start: real, at: real, mean: real, value: real, centre: real)
    requires value == start + slope * at && centre == start + slope * mean
    ensures value - centre == slope * (at - mean)
  {
  }

  lemma {:induction false} AffineProducts(s: seq<Sample>, slope: real, start: real, mean: real, centre: real, n: nat)
    requires n <= |s| && Affine(s, slope, start) && centre == start + slope * mean
    ensures AffineTo(s, slope, mean, centre, n)
  {
    if n > 0 {
      var last := s[n - 1];
      AffineProducts(s, slope, start, mean, centre, n - 1);
      AffineOffset(slope, start, last.at, mean, last.rss as real, centre);
      AffineStep(Products(s, mean, centre, n - 1), Spread(s, mean, n - 1), slope, last.at - mean, last.rss as real - centre);
    }
  }

  lemma AffineAtMeans(s: seq<Sample>, slope: real, start: real)
    requires s != [] && Affine(s, slope, start)
    ensures AffineTo(s, slope, MeanTime(s), MeanValue(s), |s|)
  {
    var mean := MeanTime(s);
    var centre := start + slope * mean;
    AffineProducts(s, slope, start, mean, centre, |s|);
    CentreIrrelevant(s, MeanValue(s), centre);
  }

  /** Exactly affine data gives back its own slope. */
  lemma AffineSlopeRecovered(s: seq<Sample>, slope: real, start: real)
    requires |s| >= 2 && TimesIncrease(s) && Affine(s, slope, start)
    ensures Slope(s) == slope
  {
    AffineAtMeans(s, slope, start);
    SlopeIs(s, slope);
  }

  lemma SlopeIs(s: seq<Sample>, slope: real)
    requires |s| >= 2 && TimesIncrease(s) && AffineTo(s, slope, MeanTime(s), MeanValue(s), |s|)
    ensures Slope(s) == slope
  {
    DistinctTimesSpread(s, MeanTime(s));
    QuotientIs(Products(s, MeanTime(s), MeanValue(s), |s|), Spread(s, MeanTime(s), |s|), slope);
  }

  // ---------------------------------------------------------------- the whole report

  predicate Ordered(samples: seq<Sample>) {
    TimesIncrease(samples) && ValuesNondecreasing(samples)
  }

  lemma {:induction false} LiveOrdered(samples: seq<Sample>, n: nat)
    requires n <= |samples| && Ordered(samples)
    ensures Ordered(Live(samples, n))
    ensures forall i :: 0 <= i < |Live(samples, n)| ==> exists j :: 0 <= j < n && Live(samples, n)[i] == samples[j]
  {
    if n > 0 {
      LiveOrdered(samples, n - 1);
    }
  }

  lemma TailOrdered(live: seq<Sample>)
    requires Ordered(live)
    ensures Ordered(Tail(live))
  {
  }

  lemma ReportedGrowth(tail: seq<Sample>, slope: real, first: int, last: int)
    requires slope >= 0.0 && last >= first
    ensures slope * 60.0 / MIB >= 0.0 && (last - first) as real / GIB >= 0.0
  {
  }

  /** A run sampled at increasing times whose memory never shrinks is reported with a slope and a growth
      that are not negative, and with the full ratio, whenever there are samples enough. */
  lemma GrowingRunReported(samples: seq<Sample>)
    requires Ordered(samples) && Trend(samples).evaluated
    ensures Trend(samples).slopeMibPerMinute >= 0.0
    ensures Trend(samples).growthGib >= 0.0
    ensures Trend(samples).nondecreasingRatio == 1.0
  {
    var live := Live(samples, |samples|);
    LiveOrdered(samples, |samples|);
    TailOrdered(live);
    var tail := Tail(live);
    GrowthHasNonnegativeSlope(tail);
    ReportedGrowth(tail, Slope(tail), tail[0].rss, tail[|tail| - 1].rss);
  }

  // ---------------------------------------------------------------- what the numbers mean

  /** The squared distance of the values from the line of this slope and this height at the mean time, summed. */
  function Misfit(s: seq<Sample>, mean: real, height: real, slope: real, n: nat): real
    requires n <= |s|
  {
    if n == 0 then 0.0
    else Misfit(s, mean, height, slope, n - 1) + Square(s[n - 1].rss as real - height - slope * (s[n - 1].at - mean))
  }

  function Scatter(s: seq<Sample>, centre: real, n: nat): real
    requires n <= |s|
  {
    if n == 0 then 0.0 else Scatter(s, centre, n - 1) + Square(s[n - 1].rss as real - centre)
  }

  /** The squared distances from a line, by the sums they are made of. */
  ghost predicate MadeAt(misfit: real, scatter: real, products: real, spread: real, values: real, times: real,
                         count: real, slope: real, offset: real)
  {
    misfit == scatter - 2.0 * slope * products + slope * slope * spread
            - 2.0 * offset * values + 2.0 * offset * slope * times + count * (offset * offset)
  }

  /** The same; the quantifier keeps the products out of the induction over the samples. */
  ghost predicate Made(misfit: real, scatter: real, products: real, spread: real, values: real, times: real,
                       count: real, slope: real, offset: real)
  {
    forall b :: b == slope ==> MadeAt(misfit, scatter, products, spread, values, times, count, b, offset)
  }

  lemma MadeIs(misfit: real, scatter: real, products: real, spread: real, values: real, times: real,
               count: real, slope: real, offset: real)
    ensures Made(misfit, scatter, products, spread, values, times, count, slope, offset)
       <==> MadeAt(misfit, scatter, products, spread, values, times, count, slope, offset)
  {
  }

  lemma SquareIs(x: real)
    ensures Square(x) == x * x
  {
  }

  lemma MadeNext(misfit: real, scatter: real, products: real, spread: real, values: real, times: real, count: real,
                 slope: real, offset: real, y: real, x: real)
    requires MadeAt(misfit, scatter, products, spread, values, times, count, slope, offset)
    ensures MadeAt(misfit + (y - offset - slope * x) * (y - offset - slope * x),
                   scatter + y * y, products + x * y, spread + x * x, values + y, times + x, count + 1.0, slope, offset)
  {
  }

  /** One more sample, by its distances from the means. */
  lemma MadeBySample(misfit: real, scatter: real, products: real, spread: real, values: real, times: real, count: real,
                     slope: real, offset: real, y: real, x: real, misfit1: real, products1: real)
    requires Made(misfit, scatter, products, spread, values, times, count, slope, offset)
    requires misfit1 == misfit + Square(y - offset - slope * x) && products1 == products + x * y
    ensures Made(misfit1, scatter + Square(y), products1, spread + Square(x), values + y, times + x, count + 1.0, slope, offset)
  {
    MadeIs(misfit, scatter, products, spread, values, times, count, slope, offset);
    MadeNext(misfit, scatter, products, spread, values, times, count, slope, offset, y, x);
    SquareIs(y - offset - slope * x);
    SquareIs(y);
    SquareIs(x);
    MadeIs(misfit + Square(y - offset - slope * x), scatter + Square(y), products + x * y, spread + Square(x),
           values + y, times + x, count + 1.0, slope, offset);
  }

  function CentredValues(s: seq<Sample>, centre: real, n: nat): real
    requires n <= |s|
  {
    if n == 0 then 0.0 else CentredValues(s, centre, n - 1) + (s[n - 1].rss as real - centre)
  }

  function CentredTimes(s: seq<Sample>, mean: real, n: nat): real
    requires n <= |s|
  {
    if n == 0 then 0.0 else CentredTimes(s, mean, n - 1) + (s[n - 1].at - mean)
  }

  lemma CountUp(total: real, count: real, step: real, x: real)
    ensures total - count * x + (step - x) == total + step - (count + 1.0) * x
  {
  }

  lemma {:induction false} CentredSums(s: seq<Sample>, mean: real, centre: real, n: nat)
    requires n <= |s|
    ensures CentredValues(s, centre, n) == Values(s, n) - n as real * centre
    ensures CentredTimes(s, mean, n) == Times(s, n) - n as real * mean
  {
    if n > 0 {
      CentredSums(s, mean, centre, n - 1);
      CountUp(Values(s, n - 1), (n - 1) as real, s[n - 1].rss as real, centre);
      CountUp(Times(s, n - 1), (n - 1) as real, s[n - 1].at, mean);
    }
  }

  ghost predicate Splits(s: seq<Sample>, mean: real, centre: real, slope: real, offset: real, n: nat)
    requires n <= |s|
  {
    Made(Misfit(s, mean, centre + offset, slope, n), Scatter(s, centre, n), Products(s, mean, centre, n),
         Spread(s, mean, n), CentredValues(s, centre, n), CentredTimes(s, mean, n), n as real, slope, offset)
  }

  lemma SplitsNext(s: seq<Sample>, mean: real, centre: real, slope: real, offset: real, n: nat)
    requires n < |s| && Splits(s, mean, centre, slope, offset, n)
    ensures Splits(s, mean, centre, slope, offset, n + 1)
  {
    var y, x := s[n].rss as real - centre, s[n].at - mean;
    MisfitNext(s, mean, centre, slope, offset, n, y, x);
    ProductsNext(s, mean, centre, n, y, x);
    MadeBySample(Misfit(s, mean, centre + offset, slope, n), Scatter(s, centre, n), Products(s, mean, centre, n),
                 Spread(s, mean, n), CentredValues(s, centre, n), CentredTimes(s, mean, n), n as real, slope, offset,
                 y, x, Misfit(s, mean, centre + offset, slope, n + 1), Products(s, mean, centre, n + 1));
    assert n as real + 1.0 == (n + 1) as real;
  }

  lemma MisfitNext(s: seq<Sample>, mean: real, centre: real, slope: real, offset: real, n: nat, y: real, x: real)
    requires n < |s| && y == s[n].rss as real - centre && x == s[n].at - mean
    ensures Misfit(s, mean, centre + offset, slope, n + 1)
         == Misfit(s, mean, centre + offset, slope, n) + Square(y - offset - slope * x)
  {
    assert s[n].rss as real - (centre + offset) == y - offset;
  }

  lemma ProductsNext(s: seq<Sample>, mean: real, centre: real, n: nat, y: real, x: real)
    requires n < |s| && y == s[n].rss as real - centre && x == s[n].at - mean
    ensures Products(s, mean, centre, n + 1) == Products(s, mean, centre, n) + x * y
  {
  }

  lemma {:induction false} MisfitSplits(s: seq<Sample>, mean: real, centre: real, slope: real, offset: real, n: nat)
    requires n <= |s|
    ensures Splits(s, mean, centre, slope, offset, n)
  {
    if n > 0 {
      MisfitSplits(s, mean, centre, slope, offset, n - 1);
      SplitsNext(s, mean, centre, slope, offset, n - 1);
    } else {
      MadeIs(0.0, 0.0, 0.0, 0.0, 0.0, 0.0, 0.0, slope, offset);
    }
  }

  lemma CentredSumsVanish(s: seq<Sample>)
    requires s != []
    ensures CentredValues(s, MeanValue(s), |s|) == 0.0 && CentredTimes(s, MeanTime(s), |s|) == 0.0
  {
    CentredSums(s, MeanTime(s), MeanValue(s), |s|);
    MeanTimesCount(Times(s, |s|), |s| as real);
    MeanTimesCount(Values(s, |s|), |s| as real);
  }

  /** Two lines over the same sums, one of them of the best slope and through the means. */
  lemma CompleteSquare(misfit: real, least: real, scatter: real, products: real, spread: real, count: real,
                       slope: real, offset: real, best: real)
    requires products == best * spread
    requires Made(misfit, scatter, products, spread, 0.0, 0.0, count, slope, offset)
    requires Made(least, scatter, products, spread, 0.0, 0.0, count, best, 0.0)
    ensures misfit == least + spread * Square(slope - best) + count * Square(offset)
  {
    MadeIs(misfit, scatter, products, spread, 0.0, 0.0, count, slope, offset);
    MadeIs(least, scatter, products, spread, 0.0, 0.0, count, best, 0.0);
    SquareIs(slope - best);
    SquareIs(offset);
    var gap := slope - best;
    assert slope == best + gap;
    assert slope * products == best * products + gap * (best * spread);
    assert slope * slope * spread == best * best * spread + 2.0 * (gap * (best * spread)) + spread * (gap * gap);
  }

  /** Around the means the two centred sums are gone. */
  lemma MisfitAroundMeans(s: seq<Sample>, mean: real, centre: real, slope: real, offset: real)
    requires s != [] && mean == MeanTime(s) && centre == MeanValue(s)
    ensures Made(Misfit(s, mean, centre + offset, slope, |s|), Scatter(s, centre, |s|), Products(s, mean, centre, |s|),
                 Spread(s, mean, |s|), 0.0, 0.0, |s| as real, slope, offset)
  {
    CentredSumsVanish(s);
    MisfitSplits(s, mean, centre, slope, offset, |s|);
  }

  lemma SlopeTimesSpread(s: seq<Sample>)
    requires |s| >= 2 && TimesIncrease(s)
    ensures Products(s, MeanTime(s), MeanValue(s), |s|) == Slope(s) * Spread(s, MeanTime(s), |s|)
    ensures Spread(s, MeanTime(s), |s|) > 0.0
  {
    DistinctTimesSpread(s, MeanTime(s));
    QuotientTimes(Products(s, MeanTime(s), MeanValue(s), |s|), Spread(s, MeanTime(s), |s|));
  }

  lemma LeastAtBest(s: seq<Sample>, mean: real, centre: real, slope: real, offset: real, best: real)
    requires s != [] && mean == MeanTime(s) && centre == MeanValue(s)
    requires Products(s, mean, centre, |s|) == best * Spread(s, mean, |s|)
    ensures Misfit(s, mean, centre + offset, slope, |s|)
         == Misfit(s, mean, centre, best, |s|) + Spread(s, mean, |s|) * Square(slope - best) + |s| as real * Square(offset)
  {
    MisfitAroundMeans(s, mean, centre, slope, offset);
    MisfitAroundMeans(s, mean, centre, best, 0.0);
    assert centre + 0.0 == centre;
    CompleteSquare(Misfit(s, mean, centre + offset, slope, |s|), Misfit(s, mean, centre, best, |s|),
                   Scatter(s, centre, |s|), Products(s, mean, centre, |s|), Spread(s, mean, |s|), |s| as real,
                   slope, offset, best);
  }

  /** The slope is that of the one line closest to the samples: a line of another slope, or of another
      height at the mean time, is further off by so much. */
  lemma SlopeIsLeastSquares(s: seq<Sample>, height: real, slope: real)
    requires |s| >= 2 && TimesIncrease(s)
    ensures Spread(s, MeanTime(s), |s|) > 0.0
    ensures Misfit(s, MeanTime(s), height, slope, |s|)
         == Misfit(s, MeanTime(s), MeanValue(s), Slope(s), |s|)
          + Spread(s, MeanTime(s), |s|) * Square(slope - Slope(s)) + |s| as real * Square(height - MeanValue(s))
  {
    SlopeTimesSpread(s);
    assert MeanValue(s) + (height - MeanValue(s)) == height;
    LeastAtBest(s, MeanTime(s), MeanValue(s), slope, height - MeanValue(s), Slope(s));
  }

  lemma QuotientTimes(x: real, y: real)
    requires y > 0.0
    ensures x == x / y * y
  {
  }

  /** The live samples are those with memory in use, in order: each stands behind as many as come before it. */
  lemma {:induction false} LiveAt(samples: seq<Sample>, n: nat, i: nat)
    requires i < n <= |samples| && samples[i].rss > 0
    ensures |Live(samples, i)| < |Live(samples, n)| && Live(samples, n)[|Live(samples, i)|] == samples[i]
  {
    if i < n - 1 {
      LiveAt(samples, n - 1, i);
    }
  }

  function LiveSet(samples: seq<Sample>, n: nat): set<nat>
    requires n <= |samples|
  {
    set i: nat | i < n && samples[i].rss > 0
  }

  lemma {:induction false} LiveCount(samples: seq<Sample>, n: nat)
    requires n <= |samples|
    ensures |Live(samples, n)| == |LiveSet(samples, n)|
  {
    if n > 0 {
      LiveCount(samples, n - 1);
      assert LiveSet(samples, n)
          == if samples[n - 1].rss > 0 then LiveSet(samples, n - 1) + {n - 1} else LiveSet(samples, n - 1);
    }
  }

  predicate RisesAt(s: seq<Sample>, i: nat)
    requires i < |s|
  {
    i > 0 && s[i].rss >= s[i - 1].rss
  }

  /** The samples behind the first one that are not below their predecessor. */
  function RiseSet(s: seq<Sample>, n: nat): set<nat>
    requires n <= |s|
  {
    set i: nat | i < n && RisesAt(s, i)
  }

  lemma {:induction false} RisesCount(s: seq<Sample>, n: nat)
    requires n <= |s|
    ensures Rises(s, n) == |RiseSet(s, n)|
  {
    if n > 1 {
      RisesCount(s, n - 1);
      assert RiseSet(s, n) == if s[n - 1].rss >= s[n - 2].rss then RiseSet(s, n - 1) + {n - 1} else RiseSet(s, n - 1);
    } else {
      assert RiseSet(s, n) == {};
    }
  }

  lemma ReportUnits(growth: int, slope: real)
    ensures growth as real / GIB * 1024.0 * 1024.0 * 1024.0 == growth as real
    ensures slope * 60.0 / MIB * 1024.0 * 1024.0 == 60.0 * slope
  {
  }

  function WarmUp(live: nat): nat {
    if live >= 30 then live / 3 else 10
  }

  /** What a report says, in bytes, seconds and counts: the first ten live samples are left out, or the
      first third when that is more, and the rest is measured. */
  ghost predicate Measures(report: Report, rest: seq<Sample>) {
    && report.samples == |rest| >= 3
    && report.growthGib * 1024.0 * 1024.0 * 1024.0 == (rest[|rest| - 1].rss - rest[0].rss) as real
    && report.slopeMibPerMinute * 1024.0 * 1024.0 == 60.0 * Slope(rest)
    && report.nondecreasingRatio * (|rest| - 1) as real == |RiseSet(rest, |rest|)| as real
  }

  lemma MeasuredMeaning(rest: seq<Sample>)
    requires |rest| >= 3
    ensures Measures(Measured(rest), rest)
  {
    RisesCount(rest, |rest|);
    QuotientTimes(Rises(rest, |rest|) as real, (|rest| - 1) as real);
    ReportUnits(rest[|rest| - 1].rss - rest[0].rss, Slope(rest));
  }

  lemma ReportMeaning(samples: seq<Sample>)
    requires Trend(samples).evaluated
    ensures var live := Live(samples, |samples|);
            WarmUp(|live|) <= |live| && Measures(Trend(samples), live[WarmUp(|live|)..])
  {
    var live := Live(samples, |samples|);
    assert Tail(live) == live[WarmUp(|live|)..];
    MeasuredMeaning(Tail(live));
  }

  lemma SixtySeconds(slope: real, rate: real)
    requires slope * 60.0 == rate * 1048576.0
    ensures slope * 60.0 / MIB == rate
  {
  }

  /** Memory that grows by `rate` MiB a minute is reported with exactly that rate; `perSecond` is the
      same rate in bytes per second. */
  lemma RateReported(samples: seq<Sample>, rate: real, perSecond: real, start: real)
    requires Trend(samples).evaluated && perSecond * 60.0 == rate * 1048576.0
    requires TimesIncrease(samples) && Affine(samples, perSecond, start)
    ensures Trend(samples).slopeMibPerMinute == rate
  {
    var live := Live(samples, |samples|);
    LiveSpaced(samples, perSecond, start);
    var rest := Tail(live);
    TailSpaced(live, perSecond, start);
    AffineSlopeRecovered(rest, perSecond, start);
    SixtySeconds(Slope(rest), rate);
  }

  ghost predicate Spaced(s: seq<Sample>, slope: real, start: real) {
    TimesIncrease(s) && Affine(s, slope, start)
  }

  lemma {:induction false} LiveIncreases(samples: seq<Sample>, n: nat)
    requires n <= |samples| && TimesIncrease(samples)
    ensures TimesIncrease(Live(samples, n))
    ensures forall i :: 0 <= i < |Live(samples, n)| ==> exists j :: 0 <= j < n && Live(samples, n)[i] == samples[j]
  {
    if n > 0 {
      LiveIncreases(samples, n - 1);
    }
  }

  lemma {:induction false} LiveKeeps(samples: seq<Sample>, n: nat, keeps: Sample -> bool)
    requires n <= |samples| && forall i :: 0 <= i < |samples| ==> keeps(samples[i])
    ensures forall i :: 0 <= i < |Live(samples, n)| ==> keeps(Live(samples, n)[i])
  {
    if n > 0 {
      LiveKeeps(samples, n - 1, keeps);
    }
  }

  lemma LiveSpaced(samples: seq<Sample>, slope: real, start: real)
    requires Spaced(samples, slope, start)
    ensures Spaced(Live(samples, |samples|), slope, start)
  {
    LiveIncreases(samples, |samples|);
    LiveKeeps(samples, |samples|, sample => OnLine(sample, slope, start));
  }

  lemma TailSpaced(live: seq<Sample>, slope: real, start: real)
    requires Spaced(live, slope, start)
    ensures Spaced(Tail(live), slope, start)
  {
  }
}
