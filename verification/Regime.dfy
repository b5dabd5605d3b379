/** Trending, ranging or volatile: the classification of a window of closes and the window a history
    is cut to. The volatility test compares squares, so no square root is needed. */
module Regime {
  import opened Options

  datatype Label = Trending | Ranging | Volatile

  /** `variance` is the square of the reported volatility. */
  datatype Classification =
    | Insufficient(bars: nat)
    | Classified(regime: Label, variance: real, efficiency: real, bars: nat)

  const MIN_BARS: nat := 15
  const WINDOW_BARS: nat := 20
  const VOLATILITY_THRESHOLD := 0.025
  const TREND_EFFICIENCY_THRESHOLD := 0.4

  predicate AllPositive(closes: seq<real>) {
    forall i | 0 <= i < |closes| :: closes[i] > 0.0
  }

  function Return(before: real, after: real): real
    requires before != 0.0
  {
    (after - before) / before
  }

  function Returns(closes: seq<real>): (r: seq<real>)
    requires AllPositive(closes)
    ensures |r| == if |closes| == 0 then 0 else |closes| - 1
  {
    if |closes| < 2 then [] else seq(|closes| - 1, i requires 0 <= i < |closes| - 1 => Return(closes[i], closes[i + 1]))
  }

  function Square(x: real): real {
    x * x
  }

  function SquaredDeviations(xs: seq<real>, mean: real): (r: seq<real>)
    ensures |r| == |xs| && forall i | 0 <= i < |xs| :: r[i] == Square(xs[i] - mean)
  {
    seq(|xs|, i requires 0 <= i < |xs| => Square(xs[i] - mean))
  }

  function Variance(xs: seq<real>): real
    requires |xs| > 0
  {
    var n := |xs| as real;
    Sum(SquaredDeviations(xs, Sum(xs) / n)) / n
  }

  /** The absolute move into bar `i`. */
  function MoveAt(closes: seq<real>, i: nat): real
    requires 0 < i < |closes|
  {
    Abs(closes[i] - closes[i - 1])
  }

  function TotalMove(closes: seq<real>): real {
    if |closes| < 2 then 0.0
    else
      var n := |closes| - 1;
      TotalMove(closes[..n]) + MoveAt(closes, n)
  }

  function NetMove(closes: seq<real>): real {
    if |closes| == 0 then 0.0 else Abs(closes[|closes| - 1] - closes[0])
  }

  function RatioOrZero(net: real, total: real): real {
    if total > 0.0 then net / total else 0.0
  }

  function Efficiency(closes: seq<real>): real {
    RatioOrZero(NetMove(closes), TotalMove(closes))
  }

  function LabelOf(variance: real, efficiency: real): Label {
    if variance >= VOLATILITY_THRESHOLD * VOLATILITY_THRESHOLD then Volatile
    else if efficiency >= TREND_EFFICIENCY_THRESHOLD then Trending
    else Ranging
  }

  function Classify(closes: seq<real>): Classification {
    if |closes| < MIN_BARS || !AllPositive(closes) then Insufficient(|closes|)
    else
      var variance := Variance(Returns(closes));
      var efficiency := Efficiency(closes);
      Classified(LabelOf(variance, efficiency), variance, efficiency, |closes|)
  }

  // ---------- the efficiency ratio ----------

  predicate NonDecreasing(closes: seq<real>) {
    forall i | 0 < i < |closes| :: closes[i - 1] <= closes[i]
  }

  predicate NonIncreasing(closes: seq<real>) {
    forall i | 0 < i < |closes| :: closes[i - 1] >= closes[i]
  }

  /** The moves add up to at least the rise and at least the fall, with equality exactly on monotone closes. */
  lemma {:induction false} MovesTelescope(closes: seq<real>)
    requires |closes| > 0
    ensures var rise := closes[|closes| - 1] - closes[0];
            && TotalMove(closes) >= rise && TotalMove(closes) >= -rise
            && (TotalMove(closes) == rise <==> NonDecreasing(closes))
            && (TotalMove(closes) == -rise <==> NonIncreasing(closes))
  {
    if |closes| > 1 {
      var n := |closes| - 1;
      var before := closes[..n];
      MovesTelescope(before);
      assert NonDecreasing(closes) <==> NonDecreasing(before) && closes[n - 1] <= closes[n];
      assert NonIncreasing(closes) <==> NonIncreasing(before) && closes[n - 1] >= closes[n];
    }
  }

  lemma RatioRange(x: real, y: real)
    requires 0.0 <= x <= y && y > 0.0
    ensures 0.0 <= x / y <= 1.0 && (x / y == 1.0 <==> x == y)
  {
    var r := x / y;
    assert r * y == x;
  }

  /** The ratio lies in [0, 1] and is one exactly when the closes are monotone and end elsewhere than
      they began. */
  lemma EfficiencyMeaning(closes: seq<real>)
    requires |closes| > 0
    ensures 0.0 <= Efficiency(closes) <= 1.0
    ensures Efficiency(closes) == 1.0 <==>
            (NonDecreasing(closes) || NonIncreasing(closes)) && closes[0] != closes[|closes| - 1]
  {
    MovesTelescope(closes);
    if TotalMove(closes) > 0.0 {
      RatioRange(NetMove(closes), TotalMove(closes));
    }
  }

  // ---------- scaling ----------

  /** The same closes quoted in another unit. */
  predicate IsScaled(closes: seq<real>, scaled: seq<real>, k: real) {
    |scaled| == |closes| && forall i | 0 <= i < |closes| :: scaled[i] == k * closes[i]
  }

  lemma ProductSign(k: real, x: real)
    requires k > 0.0
    ensures k * x > 0.0 <==> x > 0.0
  {
  }

  lemma Distribute(k: real, x: real, y: real)
    ensures k * (x + y) == k * x + k * y && k * (x - y) == k * x - k * y
  {
  }

  lemma ScaledMove(k: real, x: real, y: real)
    requires k > 0.0
    ensures Abs(k * x - k * y) == k * Abs(x - y)
  {
    Distribute(k, x, y);
    Distribute(k, y, x);
    ProductSign(k, x - y);
    ProductSign(k, y - x);
  }

  lemma RatioScales(k: real, x: real, y: real)
    requires k > 0.0 && y > 0.0
    ensures k * y > 0.0 && (k * x) / (k * y) == x / y
  {
    var r := x / y;
    ProductSign(k, y);
    assert r * y == x;
    assert r * (k * y) == k * (r * y);
  }

  lemma ReturnScales(k: real, before: real, after: real, scaledBefore: real, scaledAfter: real)
    requires k > 0.0 && before > 0.0 && scaledBefore == k * before && scaledAfter == k * after
    ensures scaledBefore > 0.0 && Return(scaledBefore, scaledAfter) == Return(before, after)
  {
    Distribute(k, after, before);
    RatioScales(k, after - before, before);
  }

  lemma MoveScales(k: real, x: real, y: real, sx: real, sy: real)
    requires k > 0.0 && sx == k * x && sy == k * y
    ensures Abs(sy - sx) == k * Abs(y - x)
  {
    ScaledMove(k, y, x);
  }

  /** `IsScaled`, move by move. */
  predicate MovesScaled(closes: seq<real>, scaled: seq<real>, k: real) {
    |scaled| == |closes| && forall i | 0 < i < |closes| :: MoveAt(scaled, i) == k * MoveAt(closes, i)
  }

  lemma MovesScale(closes: seq<real>, scaled: seq<real>, k: real)
    requires k > 0.0 && IsScaled(closes, scaled, k)
    ensures MovesScaled(closes, scaled, k)
  {
    forall i | 0 < i < |closes| ensures MoveAt(scaled, i) == k * MoveAt(closes, i) {
      MoveScales(k, closes[i - 1], closes[i], scaled[i - 1], scaled[i]);
    }
  }

  lemma MovesOfPrefix(closes: seq<real>, scaled: seq<real>, k: real, n: nat)
    requires MovesScaled(closes, scaled, k) && 0 < n < |closes|
    ensures |scaled| == |closes| && MovesScaled(closes[..n], scaled[..n], k) &&
        MoveAt(scaled, n) == k * MoveAt(closes, n)
  {
    forall i | 0 < i < n ensures MoveAt(scaled[..n], i) == k * MoveAt(closes[..n], i) {
      assert MoveAt(scaled[..n], i) == MoveAt(scaled, i) && MoveAt(closes[..n], i) == MoveAt(closes, i);
    }
  }

  lemma SumScales(k: real, total: real, move: real, whole: real, scaledTotal: real, scaledMove: real, scaledWhole: real)
    requires whole == total + move && scaledWhole == scaledTotal + scaledMove
    requires scaledTotal == k * total && scaledMove == k * move
    ensures scaledWhole == k * whole
  {
  }

  lemma LastMove(closes: seq<real>)
    requires |closes| >= 2
    ensures var n := |closes| - 1; TotalMove(closes) == TotalMove(closes[..n]) + MoveAt(closes, n)
  {
  }

  lemma NoMoves(closes: seq<real>, scaled: seq<real>, k: real)
    requires MovesScaled(closes, scaled, k) && |closes| < 2
    ensures TotalMove(scaled) == k * TotalMove(closes)
  {
  }

  lemma {:induction false} TotalMoveScales(closes: seq<real>, scaled: seq<real>, k: real)
    requires MovesScaled(closes, scaled, k)
    ensures TotalMove(scaled) == k * TotalMove(closes)
  {
    hide *;
    if |closes| < 2 {
      NoMoves(closes, scaled, k);
    } else {
      var n := |closes| - 1;
      MovesOfPrefix(closes, scaled, k, n);
      TotalMoveScales(closes[..n], scaled[..n], k);
      LastMove(closes);
      LastMove(scaled);
      SumScales(k, TotalMove(closes[..n]), MoveAt(closes, n), TotalMove(closes),
                TotalMove(scaled[..n]), MoveAt(scaled, n), TotalMove(scaled));
    }
  }

  lemma RatioOrZeroScales(k: real, net: real, total: real, scaledNet: real, scaledTotal: real)
    requires k > 0.0 && scaledNet == k * net && scaledTotal == k * total
    ensures RatioOrZero(scaledNet, scaledTotal) == RatioOrZero(net, total)
  {
    ProductSign(k, total);
    if total > 0.0 {
      RatioScales(k, net, total);
    }
  }

  lemma NetMoveScales(closes: seq<real>, scaled: seq<real>, k: real)
    requires |closes| > 0 && k > 0.0 && IsScaled(closes, scaled, k)
    ensures NetMove(scaled) == k * NetMove(closes)
  {
    var n := |closes| - 1;
    MoveScales(k, closes[0], closes[n], scaled[0], scaled[n]);
  }

  lemma EfficiencyScales(closes: seq<real>, scaled: seq<real>, k: real)
    requires |closes| > 0 && k > 0.0 && IsScaled(closes, scaled, k)
    ensures Efficiency(scaled) == Efficiency(closes)
  {
    hide TotalMove, NetMove;
    var net, total, scaledNet, scaledTotal := NetMove(closes), TotalMove(closes), NetMove(scaled), TotalMove(scaled);
    NetMoveScales(closes, scaled, k);
    MovesScale(closes, scaled, k);
    TotalMoveScales(closes, scaled, k);
    RatioOrZeroScales(k, net, total, scaledNet, scaledTotal);
  }

  lemma ScaledPositive(closes: seq<real>, scaled: seq<real>, k: real)
    requires k > 0.0 && IsScaled(closes, scaled, k)
    ensures AllPositive(scaled) <==> AllPositive(closes)
  {
    forall i | 0 <= i < |closes| ensures scaled[i] > 0.0 <==> closes[i] > 0.0 {
      ProductSign(k, closes[i]);
    }
  }

  lemma ReturnsScale(closes: seq<real>, scaled: seq<real>, k: real)
    requires AllPositive(closes) && AllPositive(scaled) && k > 0.0 && IsScaled(closes, scaled, k)
    ensures Returns(scaled) == Returns(closes)
  {
    forall i | 0 <= i < |closes| - 1
      ensures Return(scaled[i], scaled[i + 1]) == Return(closes[i], closes[i + 1])
    {
      ReturnScales(k, closes[i], closes[i + 1], scaled[i], scaled[i + 1]);
    }
    SameReturns(closes, scaled);
  }

  lemma SameReturns(closes: seq<real>, scaled: seq<real>)
    requires AllPositive(closes) && AllPositive(scaled) && |closes| == |scaled|
    requires forall i | 0 <= i < |closes| - 1 :: Return(scaled[i], scaled[i + 1]) == Return(closes[i], closes[i + 1])
    ensures Returns(scaled) == Returns(closes)
  {
  }

  /** Quoting the same prices in another unit gives the same classification. */
  lemma ClassificationScales(closes: seq<real>, scaled: seq<real>, k: real)
    requires k > 0.0 && IsScaled(closes, scaled, k)
    ensures Classify(scaled) == Classify(closes)
  {
    ScaledPositive(closes, scaled, k);
    if |closes| >= MIN_BARS && AllPositive(closes) {
      ReturnsScale(closes, scaled, k);
      EfficiencyScales(closes, scaled, k);
    }
  }

  // ---------- the returns ----------

  /** The growth factor of a list of returns. */
  function Compound(returnsMade: seq<real>): real {
    if |returnsMade| == 0 then 1.0
    else Compound(returnsMade[..|returnsMade| - 1]) * (1.0 + returnsMade[|returnsMade| - 1])
  }

  lemma GrowOnce(before: real, after: real)
    requires before > 0.0
    ensures before * (1.0 + Return(before, after)) == after
  {
    var r := Return(before, after);
    assert r * before == after - before;
  }

  lemma CompoundStep(first: real, compound: real, before: real, growth: real, after: real, longer: real)
    requires before == first * compound && after == before * growth && longer == compound * growth
    ensures after == first * longer
  {
  }

  lemma NoReturns(closes: seq<real>)
    requires |closes| == 1 && AllPositive(closes)
    ensures closes[0] == closes[0] * Compound(Returns(closes))
  {
  }

  /** Compounding the returns from the first close gives the last one. */
  lemma {:induction false} ReturnsCompound(closes: seq<real>)
    requires |closes| > 0 && AllPositive(closes)
    ensures closes[|closes| - 1] == closes[0] * Compound(Returns(closes))
  {
    hide Compound, Returns, Return;
    var n := |closes| - 1;
    if n == 0 {
      NoReturns(closes);
    } else {
      LastReturn(closes);
      ReturnsCompound(closes[..n]);
      GrowOnce(closes[n - 1], closes[n]);
      CompoundStep(closes[0], Compound(Returns(closes[..n])), closes[n - 1],
                   1.0 + Return(closes[n - 1], closes[n]), closes[n], Compound(Returns(closes)));
    }
  }

  lemma LastReturn(closes: seq<real>)
    requires |closes| > 1 && AllPositive(closes)
    ensures var n := |closes| - 1;
            AllPositive(closes[..n]) &&
            Compound(Returns(closes)) == Compound(Returns(closes[..n])) * (1.0 + Return(closes[n - 1], closes[n]))
  {
    hide Return;
    var n := |closes| - 1;
    assert Returns(closes)[..n - 1] == Returns(closes[..n]);
  }

  // ---------- what the label says ----------

  function SumOfSquares(xs: seq<real>): real {
    if |xs| == 0 then 0.0 else SumOfSquares(xs[..|xs| - 1]) + Square(xs[|xs| - 1])
  }

  /** The count times the sum of squares, less the square of the sum. */
  function Spread(xs: seq<real>): real {
    |xs| as real * SumOfSquares(xs) - Sum(xs) * Sum(xs)
  }

  /** `SumOfSquares` less twice the mean's share, plus `n` squares of the mean. */
  function Expanded(squares: real, sum: real, n: real, mean: real): real {
    squares - 2.0 * (mean * sum) + n * (mean * mean)
  }

  lemma ExpandStep(squares: real, sum: real, n: real, mean: real, x: real)
    ensures Expanded(squares + Square(x), sum + x, n + 1.0, mean) == Expanded(squares, sum, n, mean) + Square(x - mean)
  {
    assert Square(x - mean) == x * x - 2.0 * (mean * x) + mean * mean;
    assert mean * (sum + x) == mean * sum + mean * x;
    assert (n + 1.0) * (mean * mean) == n * (mean * mean) + mean * mean;
  }

  lemma LastDeviation(xs: seq<real>, mean: real)
    requires |xs| > 0
    ensures var n := |xs| - 1;
            Sum(SquaredDeviations(xs, mean)) == Sum(SquaredDeviations(xs[..n], mean)) + Square(xs[n] - mean)
  {
    hide Square, SquaredDeviations;
    var n := |xs| - 1;
    assert SquaredDeviations(xs, mean)[..n] == SquaredDeviations(xs[..n], mean);
  }

  lemma LastSums(xs: seq<real>)
    requires |xs| > 0
    ensures var n := |xs| - 1;
            Sum(xs) == Sum(xs[..n]) + xs[n] && SumOfSquares(xs) == SumOfSquares(xs[..n]) + Square(xs[n])
  {
    hide Square;
  }

  lemma {:induction false} DeviationsExpand(xs: seq<real>, mean: real)
    ensures Sum(SquaredDeviations(xs, mean)) == Expanded(SumOfSquares(xs), Sum(xs), |xs| as real, mean)
  {
    if |xs| == 0 {
      NoDeviations(xs, mean);
    } else {
      hide *;
      var n := |xs| - 1;
      DeviationsExpand(xs[..n], mean);
      LastDeviation(xs, mean);
      LastSums(xs);
      ExpandStep(SumOfSquares(xs[..n]), Sum(xs[..n]), n as real, mean, xs[n]);
    }
  }

  lemma NoDeviations(xs: seq<real>, mean: real)
    requires |xs| == 0
    ensures Sum(SquaredDeviations(xs, mean)) == Expanded(SumOfSquares(xs), Sum(xs), |xs| as real, mean)
  {
  }

  lemma MeanIdentity(n: real, sum: real, squares: real, mean: real, variance: real)
    requires mean * n == sum && variance * n == Expanded(squares, sum, n, mean)
    ensures variance * (n * n) == n * squares - sum * sum
  {
    var cross, tail := mean * sum, n * (mean * mean);
    assert n * cross == sum * sum;
    assert n * tail == sum * sum;
    ProductOfExpansion(n, squares, cross, tail);
    assert variance * (n * n) == n * (variance * n);
  }

  lemma ProductOfExpansion(n: real, squares: real, cross: real, tail: real)
    ensures n * (squares - 2.0 * cross + tail) == n * squares - 2.0 * (n * cross) + n * tail
  {
  }

  lemma VarianceTimes(xs: seq<real>) returns (mean: real)
    requires |xs| > 0
    ensures mean * |xs| as real == Sum(xs)
    ensures Variance(xs) * |xs| as real == Sum(SquaredDeviations(xs, mean))
  {
    hide Sum, SquaredDeviations;
    var n := |xs| as real;
    mean := Sum(xs) / n;
    QuotientTimes(Sum(xs), n);
    QuotientTimes(Sum(SquaredDeviations(xs, mean)), n);
  }

  /** The variance from the sum and the sum of squares alone, with no mean in it. */
  lemma VarianceFromSums(xs: seq<real>)
    requires |xs| > 0
    ensures var n := |xs| as real; Variance(xs) * (n * n) == Spread(xs)
  {
    hide Variance, Sum, SumOfSquares, Expanded, SquaredDeviations;
    var mean := VarianceTimes(xs);
    DeviationsExpand(xs, mean);
    MeanIdentity(|xs| as real, Sum(xs), SumOfSquares(xs), mean, Variance(xs));
  }

  lemma AtLeastScaled(x: real, bound: real, n: real, scaled: real)
    requires n > 0.0 && x * n == scaled
    ensures x >= bound <==> scaled >= bound * n
  {
    assert (x - bound) * n == scaled - bound * n;
  }

  lemma SquarePositive(n: real)
    requires n > 0.0
    ensures n * n > 0.0
  {
  }

  /** The label without a division or a mean: volatile when the returns spread at least 2.5 percent,
      else trending when the net move is at least two fifths of the distance travelled, else ranging. */
  lemma LabelExactly(closes: seq<real>)
    requires |closes| >= 15 && AllPositive(closes)
    ensures var r := Classify(closes);
            var n := |Returns(closes)| as real;
            var spread := Spread(Returns(closes));
            && r.Classified? && r.bars == |closes|
            && (r.regime == Volatile <==> spread >= 0.025 * 0.025 * (n * n))
            && (r.regime == Trending <==>
                  r.regime != Volatile && TotalMove(closes) > 0.0 && NetMove(closes) >= 0.4 * TotalMove(closes))
            && r.variance * (n * n) == spread
            && (if TotalMove(closes) > 0.0 then r.efficiency * TotalMove(closes) == NetMove(closes)
                else r.efficiency == 0.0)
  {
    hide Variance, Returns, Sum, SumOfSquares, TotalMove, NetMove;
    var rs := Returns(closes);
    VarianceFromSums(rs);
    if TotalMove(closes) > 0.0 {
      QuotientTimes(NetMove(closes), TotalMove(closes));
    }
    VolatileExactly(rs);
    TrendingExactly(closes);
    hide Efficiency, RatioOrZero;
  }

  lemma VolatileExactly(xs: seq<real>)
    requires |xs| > 0
    ensures var n := |xs| as real;
            Variance(xs) >= VOLATILITY_THRESHOLD * VOLATILITY_THRESHOLD <==>
            Spread(xs) >= VOLATILITY_THRESHOLD * VOLATILITY_THRESHOLD * (n * n)
  {
    hide *;
    VarianceFromSums(xs);
    var n := |xs| as real;
    SquarePositive(n);
    AtLeastScaled(Variance(xs), VOLATILITY_THRESHOLD * VOLATILITY_THRESHOLD, n * n, Spread(xs));
  }

  lemma TrendingExactly(closes: seq<real>)
    ensures Efficiency(closes) >= TREND_EFFICIENCY_THRESHOLD <==>
            TotalMove(closes) > 0.0 && NetMove(closes) >= TREND_EFFICIENCY_THRESHOLD * TotalMove(closes)
  {
    hide TotalMove, NetMove;
    if TotalMove(closes) > 0.0 {
      QuotientTimes(NetMove(closes), TotalMove(closes));
      AtLeastScaled(Efficiency(closes), TREND_EFFICIENCY_THRESHOLD, TotalMove(closes), NetMove(closes));
    }
  }

  // ---------- the trailing window of a history ----------

  /** A bar whose close or date may be missing or unreadable. */
  datatype Bar = Bar(close: Option<real>, day: Option<int>)

  predicate Usable(b: Bar, asOf: Option<int>) {
    b.close.Some? && (asOf.Some? && b.day.Some? ==> b.day.value <= asOf.value)
  }

  function UsableCloses(bars: seq<Bar>, asOf: Option<int>): seq<real> {
    if |bars| == 0 then []
    else
      var n := |bars| - 1;
      UsableCloses(bars[..n], asOf) + if Usable(bars[n], asOf) then [bars[n].close.value] else []
  }

  function Trailing(closes: seq<real>): seq<real> {
    if |closes| <= WINDOW_BARS then closes else closes[|closes| - WINDOW_BARS..]
  }

  /** Which of the first `n` bars have a close and no date after the bound. */
  function Kept(bars: seq<Bar>, asOf: Option<int>, n: nat): set<nat> {
    set i: nat | i < n && KeptAt(bars, asOf, i)
  }

  predicate KeptAt(bars: seq<Bar>, asOf: Option<int>, i: nat) {
    i < |bars| && bars[i].close.Some? && !(asOf.Some? && bars[i].day.Some? && bars[i].day.value > asOf.value)
  }

  lemma KeptStep(bars: seq<Bar>, asOf: Option<int>, n: nat)
    ensures |Kept(bars, asOf, n + 1)| == |Kept(bars, asOf, n)| + if KeptAt(bars, asOf, n) then 1 else 0
  {
    hide KeptAt;
    assert Kept(bars, asOf, n + 1) == if KeptAt(bars, asOf, n) then Kept(bars, asOf, n) + {n} else Kept(bars, asOf, n);
  }

  /** The usable closes are exactly those bars' closes, in order. */
  lemma {:induction false} UsableExactly(bars: seq<Bar>, asOf: Option<int>, n: nat)
    requires n <= |bars|
    ensures var closes := UsableCloses(bars[..n], asOf);
            && |closes| == |Kept(bars, asOf, n)|
            && forall i | 0 <= i < n && KeptAt(bars, asOf, i) ::
                 |Kept(bars, asOf, i)| < |closes| && closes[|Kept(bars, asOf, i)|] == bars[i].close.value
  {
    hide Kept;
    if n == 0 {
      NoneKept(bars, asOf);
    } else {
      UsableExactly(bars, asOf, n - 1);
      KeptStep(bars, asOf, n - 1);
      assert bars[..n][..n - 1] == bars[..n - 1];
    }
  }

  lemma NoneKept(bars: seq<Bar>, asOf: Option<int>)
    ensures Kept(bars, asOf, 0) == {}
  {
  }

  method ExtractCloses(bars: seq<Bar>, asOf: Option<int>) returns (closes: seq<real>)
    ensures closes == UsableCloses(bars, asOf)
    ensures |closes| == |Kept(bars, asOf, |bars|)|
    ensures forall i | 0 <= i < |bars| && KeptAt(bars, asOf, i) ::
              |Kept(bars, asOf, i)| < |closes| && closes[|Kept(bars, asOf, i)|] == bars[i].close.value
  {
    closes := [];
    for i := 0 to |bars|
      invariant closes == UsableCloses(bars[..i], asOf)
    {
      assert bars[..i + 1][..i] == bars[..i];
      if bars[i].close.None? {
        continue;
      }
      if asOf.Some? {
        if bars[i].day.Some? && bars[i].day.value > asOf.value {
          continue;
        }
      }
      closes := closes + [bars[i].close.value];
    }
    assert bars[..|bars|] == bars;
    UsableExactly(bars, asOf, |bars|);
  }

  lemma TrailingPositive(closes: seq<real>)
    ensures |Trailing(closes)| == Min(WINDOW_BARS, |closes|)
    ensures AllPositive(Trailing(closes)) <==>
            forall i | 0 <= i < |closes| && |closes| - i <= WINDOW_BARS :: closes[i] > 0.0
  {
    var window := Trailing(closes);
    var skipped := |closes| - |window|;
    forall i | 0 <= i < |closes| && |closes| - i <= WINDOW_BARS ensures closes[i] == window[i - skipped] {
    }
    forall j | 0 <= j < |window| ensures window[j] == closes[j + skipped] {
    }
  }

  method ClassifySymbol(history: Option<seq<Bar>>, asOf: Option<int>) returns (r: Classification)
    ensures r == if history.None? then Insufficient(0) else Classify(Trailing(UsableCloses(history.value, asOf)))
    ensures var usable := if history.None? then [] else UsableCloses(history.value, asOf);
            && r.bars == (if |usable| < 20 then |usable| else 20)
            && (r.Classified? <==>
                  |usable| >= 15 && forall i | 0 <= i < |usable| && |usable| - i <= 20 :: usable[i] > 0.0)
  {
    if history.None? {
      return Insufficient(0);
    }
    var closes := ExtractCloses(history.value, asOf);
    TrailingPositive(closes);
    return Classify(Trailing(closes));
  }

  lemma {:induction false} ClosesConcat(a: seq<Bar>, b: seq<Bar>, asOf: Option<int>)
    ensures UsableCloses(a + b, asOf) == UsableCloses(a, asOf) + UsableCloses(b, asOf)
  {
    if |b| == 0 {
      assert a + b == a;
    } else {
      var n := |b| - 1;
      assert (a + b)[..|a| + n] == a + b[..n];
      ClosesConcat(a, b[..n], asOf);
    }
  }

  lemma {:induction false} LaterBarsIgnored(later: seq<Bar>, asOf: int)
    requires forall i | 0 <= i < |later| :: later[i].day.Some? && later[i].day.value > asOf
    ensures UsableCloses(later, Some(asOf)) == []
  {
    if |later| > 0 {
      LaterBarsIgnored(later[..|later| - 1], asOf);
    }
  }

  lemma TrailingOfSuffix(older: seq<real>, recent: seq<real>)
    ensures Trailing(older + recent) == Trailing(recent) <==> |recent| >= WINDOW_BARS || |older| == 0
  {
    if |recent| >= WINDOW_BARS {
      assert Trailing(older + recent) == Trailing(recent);
    } else if |older| == 0 {
      assert older + recent == recent;
    }
  }

  lemma ClosesOfHistory(older: seq<Bar>, recent: seq<Bar>, later: seq<Bar>, asOf: int)
    requires forall i | 0 <= i < |later| :: later[i].day.Some? && later[i].day.value > asOf
    ensures UsableCloses(older + recent + later, Some(asOf)) ==
            UsableCloses(older, Some(asOf)) + UsableCloses(recent, Some(asOf))
  {
    ClosesConcat(older + recent, later, Some(asOf));
    ClosesConcat(older, recent, Some(asOf));
    LaterBarsIgnored(later, asOf);
  }

  /** A history ending at `asOf` classifies the same whatever later bars are appended, and its window
      forgets the older bars exactly when the recent ones fill it or the older ones had no usable close. */
  lemma WindowForgetsExactly(older: seq<Bar>, recent: seq<Bar>, later: seq<Bar>, asOf: int)
    requires forall i | 0 <= i < |later| :: later[i].day.Some? && later[i].day.value > asOf
    ensures Trailing(UsableCloses(older + recent + later, Some(asOf))) ==
            Trailing(UsableCloses(recent, Some(asOf))) <==>
            |UsableCloses(recent, Some(asOf))| >= 20 || UsableCloses(older, Some(asOf)) == []
  {
    ClosesOfHistory(older, recent, later, asOf);
    TrailingOfSuffix(UsableCloses(older, Some(asOf)), UsableCloses(recent, Some(asOf)));
  }

  /** Two histories that share at least a full window of usable bars up to `asOf` classify alike, whatever
      dropped out before it or was appended after it. */
  lemma RestartSafe(
    older: seq<Bar>, otherOlder: seq<Bar>, recent: seq<Bar>, later: seq<Bar>, otherLater: seq<Bar>, asOf: int)
    requires |UsableCloses(recent, Some(asOf))| >= 20
    requires forall i | 0 <= i < |later| :: later[i].day.Some? && later[i].day.value > asOf
    requires forall i | 0 <= i < |otherLater| :: otherLater[i].day.Some? && otherLater[i].day.value > asOf
    ensures Classify(Trailing(UsableCloses(older + recent + later, Some(asOf)))) ==
            Classify(Trailing(UsableCloses(otherOlder + recent + otherLater, Some(asOf))))
  {
    WindowForgetsExactly(older, recent, later, asOf);
    WindowForgetsExactly(otherOlder, recent, otherLater, asOf);
  }
}
