/** Maximum drawdown in one pass, against its meaning over all pairs of points. */
module Drawdown {
  import opened Options

  /** Running peak and largest drop seen. */
  datatype Running = Running(peak: real, worst: real)

  /** None is the division by a zero peak. */
  function RunningStep(r: Running, equity: real): Option<Running> {
    var peak := Max(r.peak, equity);
    if peak == 0.0 then None else Some(Running(peak, Max(r.worst, (peak - equity) / peak)))
  }

  function RunningOver(curve: seq<real>, first: real): Option<Running> {
    if |curve| == 0 then Some(Running(first, 0.0))
    else
      match RunningOver(curve[..|curve| - 1], first)
      case None => None
      case Some(r) => RunningStep(r, curve[|curve| - 1])
  }

  function MaximumDrawdown(curve: seq<real>): Option<real> {
    if |curve| < 2 then Some(0.0)
    else
      match RunningOver(curve, curve[0])
      case None => None
      case Some(r) => Some(r.worst)
  }

  lemma {:induction false} RunningFailureStays(curve: seq<real>, i: nat, first: real)
    requires i <= |curve| && RunningOver(curve[..i], first).None?
    ensures RunningOver(curve, first).None?
  {
    if i < |curve| {
      assert curve[..|curve| - 1][..i] == curve[..i];
      RunningFailureStays(curve[..|curve| - 1], i, first);
    } else {
      assert curve[..i] == curve;
    }
  }

  method Calculate(curve: seq<real>) returns (r: Option<real>)
    ensures r == MaximumDrawdown(curve)
  {
    if |curve| < 2 {
      return Some(0.0);
    }
    var peak, worst := curve[0], 0.0;
    for i := 0 to |curve|
      invariant RunningOver(curve[..i], curve[0]) == Some(Running(peak, worst))
    {
      assert curve[..i + 1][..i] == curve[..i];
      peak := Max(peak, curve[i]);
      if peak == 0.0 {
        RunningFailureStays(curve, i + 1, curve[0]);
        return None;
      }
      worst := Max(worst, (peak - curve[i]) / peak);
    }
    assert curve[..|curve|] == curve;
    return Some(worst);
  }

  // ---------- positive curves ----------

  predicate Positive(curve: seq<real>) {
    forall i | 0 <= i < |curve| :: curve[i] > 0.0
  }

  function Loss(high: real, low: real): real
    requires high != 0.0
  {
    (high - low) / high
  }

  function Peak(curve: seq<real>): real
    requires |curve| > 0
  {
    if |curve| == 1 then curve[0] else Max(Peak(curve[..|curve| - 1]), curve[|curve| - 1])
  }

  lemma {:induction false} PeakIsMaximum(curve: seq<real>) returns (at: nat)
    requires |curve| > 0
    ensures at < |curve| && curve[at] == Peak(curve)
    ensures forall i | 0 <= i < |curve| :: curve[i] <= Peak(curve)
  {
    if |curve| == 1 {
      at := 0;
    } else {
      var n := |curve| - 1;
      at := PeakIsMaximum(curve[..n]);
      forall i | 0 <= i < |curve| ensures curve[i] <= Peak(curve) {
        if i < n {
          assert curve[..n][i] == curve[i];
        }
      }
      if curve[n] > Peak(curve[..n]) {
        at := n;
      }
    }
  }

  /** The largest drop of a positive curve; zero for a single point. */
  function Worst(curve: seq<real>): real
    requires |curve| > 0 && Positive(curve)
  {
    if |curve| == 1 then 0.0
    else
      var n := |curve| - 1;
      assert curve[..n][0] == curve[0];
      PeakPositive(curve);
      Max(Worst(curve[..n]), Loss(Peak(curve), curve[n]))
  }

  lemma PeakPositive(curve: seq<real>)
    requires |curve| > 0 && Positive(curve)
    ensures Peak(curve) > 0.0
  {
    var at := PeakIsMaximum(curve);
  }

  lemma {:induction false} RunningIsWorst(curve: seq<real>)
    requires |curve| > 0 && Positive(curve)
    ensures RunningOver(curve, curve[0]) == Some(Running(Peak(curve), Worst(curve)))
  {
    var n := |curve| - 1;
    PeakPositive(curve);
    if n == 0 {
      assert curve[..0] == [];
      assert RunningOver(curve[..0], curve[0]) == Some(Running(curve[0], 0.0));
      assert RunningStep(Running(curve[0], 0.0), curve[0]) == Some(Running(curve[0], 0.0));
    } else {
      assert curve[..n][0] == curve[0];
      RunningIsWorst(curve[..n]);
    }
  }

  lemma OnePassIsWorst(curve: seq<real>)
    requires |curve| > 0 && Positive(curve)
    ensures MaximumDrawdown(curve) == Some(Worst(curve))
  {
    RunningIsWorst(curve);
  }

  lemma LossTimes(high: real, low: real)
    requires high != 0.0
    ensures (1.0 - Loss(high, low)) * high == low
  {
    var x := Loss(high, low);
    assert x * high == high - low;
    assert (1.0 - x) * high == high - x * high;
  }

  lemma ProductGrows(x: real, y: real, a: real, b: real)
    requires x < y && 0.0 < a <= b && 0.0 < y
    ensures x * a < y * b
  {
    assert y * a - x * a == (y - x) * a > 0.0;
    assert y * b - y * a == y * (b - a) >= 0.0;
  }

  lemma LossMonotone(high: real, higher: real, low: real)
    requires 0.0 < high <= higher && low > 0.0
    ensures Loss(high, low) <= Loss(higher, low)
  {
    var x, y := 1.0 - Loss(high, low), 1.0 - Loss(higher, low);
    LossTimes(high, low);
    LossTimes(higher, low);
    if x < y && 0.0 < y {
      ProductGrows(x, y, high, higher);
    }
  }

  lemma LossRange(high: real, low: real)
    requires high > 0.0 && low > 0.0
    ensures Loss(high, low) < 1.0 && (low <= high <==> Loss(high, low) >= 0.0) &&
        (low < high <==> Loss(high, low) > 0.0)
  {
    var x := Loss(high, low);
    assert x * high == high - low;
  }

  /** Whether `worst` is the largest loss over all pairs of a point and a later one (or itself). */
  predicate IsWorstPair(curve: seq<real>, worst: real)
    requires Positive(curve)
  {
    && (forall i, j | 0 <= i <= j < |curve| :: Loss(curve[i], curve[j]) <= worst)
    && (exists i, j | 0 <= i <= j < |curve| :: Loss(curve[i], curve[j]) == worst)
  }

  lemma PairInPrefix(curve: seq<real>, n: nat, i: nat, j: nat)
    requires Positive(curve) && i <= j < n <= |curve|
    ensures Loss(curve[..n][i], curve[..n][j]) == Loss(curve[i], curve[j])
  {
  }

  /** The one pass finds the worst pair. */
  lemma {:induction false} WorstIsWorstPair(curve: seq<real>)
    requires |curve| > 0 && Positive(curve)
    ensures IsWorstPair(curve, Worst(curve))
  {
    var n := |curve| - 1;
    LossRange(curve[0], curve[0]);
    if n == 0 {
      assert Loss(curve[0], curve[0]) == 0.0;
    } else {
      var before := curve[..n];
      assert before[0] == curve[0];
      WorstIsWorstPair(before);
      var at := PeakIsMaximum(curve);
      PeakPositive(curve);
      forall i, j | 0 <= i <= j < |curve| ensures Loss(curve[i], curve[j]) <= Worst(curve) {
        if j < n {
          PairInPrefix(curve, n, i, j);
        } else {
          LossMonotone(curve[i], Peak(curve), curve[n]);
        }
      }
      if Worst(curve) == Worst(before) {
        var i, j :| 0 <= i <= j < |before| && Loss(before[i], before[j]) == Worst(before);
        PairInPrefix(curve, n, i, j);
        assert Loss(curve[i], curve[j]) == Worst(curve);
      } else {
        assert Loss(curve[at], curve[n]) == Worst(curve);
      }
    }
  }

  predicate NeverFalls(curve: seq<real>) {
    forall i, j | 0 <= i <= j < |curve| :: curve[i] <= curve[j]
  }

  /** For a positive curve the result is the worst pair, lies in [0, 1), and is zero exactly when the
      curve never falls. */
  lemma DrawdownMeaning(curve: seq<real>)
    requires |curve| > 0 && Positive(curve)
    ensures MaximumDrawdown(curve).Some?
    ensures var worst := MaximumDrawdown(curve).value;
            IsWorstPair(curve, worst) && 0.0 <= worst < 1.0 && (worst == 0.0 <==> NeverFalls(curve))
  {
    OnePassIsWorst(curve);
    WorstIsWorstPair(curve);
    var worst := Worst(curve);
    assert Loss(curve[0], curve[0]) <= worst;
    LossRange(curve[0], curve[0]);
    var i, j :| 0 <= i <= j < |curve| && Loss(curve[i], curve[j]) == worst;
    LossRange(curve[i], curve[j]);
    forall x, y | 0 <= x <= y < |curve| ensures worst == 0.0 ==> curve[x] <= curve[y] {
      LossRange(curve[x], curve[y]);
    }
  }

  function Scaled(curve: seq<real>, k: real): (r: seq<real>)
    ensures |r| == |curve| && forall i | 0 <= i < |curve| :: r[i] == k * curve[i]
  {
    seq(|curve|, i requires 0 <= i < |curve| => k * curve[i])
  }

  lemma LossScales(high: real, low: real, k: real)
    requires high > 0.0 && k > 0.0
    ensures k * high > 0.0 && Loss(k * high, k * low) == Loss(high, low)
  {
    var x := Loss(high, low);
    assert x * high == high - low;
    assert x * (k * high) == k * (x * high) == k * high - k * low;
  }

  lemma WorstPairUnique(curve: seq<real>, a: real, b: real)
    requires Positive(curve) && IsWorstPair(curve, a) && IsWorstPair(curve, b)
    ensures a == b
  {
    var i, j :| 0 <= i <= j < |curve| && Loss(curve[i], curve[j]) == a;
    var x, y :| 0 <= x <= y < |curve| && Loss(curve[x], curve[y]) == b;
    assert Loss(curve[i], curve[j]) <= b && Loss(curve[x], curve[y]) <= a;
  }

  lemma ScaledLosses(curve: seq<real>, k: real)
    requires Positive(curve) && k > 0.0
    ensures Positive(Scaled(curve, k))
    ensures forall i, j | 0 <= i <= j < |curve| ::
              Loss(Scaled(curve, k)[i], Scaled(curve, k)[j]) == Loss(curve[i], curve[j])
  {
    forall i, j | 0 <= i <= j < |curve|
      ensures Scaled(curve, k)[i] > 0.0 && Loss(Scaled(curve, k)[i], Scaled(curve, k)[j]) == Loss(curve[i], curve[j])
    {
      LossScales(curve[i], curve[j], k);
    }
    forall i | 0 <= i < |curve| ensures Scaled(curve, k)[i] > 0.0 {
      LossScales(curve[i], curve[i], k);
    }
  }

  lemma SameLossesSamePair(curve: seq<real>, other: seq<real>, worst: real)
    requires Positive(curve) && Positive(other) && |curve| == |other| && IsWorstPair(curve, worst)
    requires forall i, j | 0 <= i <= j < |curve| :: Loss(other[i], other[j]) == Loss(curve[i], curve[j])
    ensures IsWorstPair(other, worst)
  {
    var i, j :| 0 <= i <= j < |curve| && Loss(curve[i], curve[j]) == worst;
    assert Loss(other[i], other[j]) == worst;
  }

  /** The currency's unit does not matter. */
  lemma DrawdownScales(curve: seq<real>, k: real)
    requires |curve| > 0 && Positive(curve) && k > 0.0
    ensures Positive(Scaled(curve, k)) && MaximumDrawdown(Scaled(curve, k)) == MaximumDrawdown(curve)
  {
    var scaled := Scaled(curve, k);
    ScaledLosses(curve, k);
    WorstIsWorstPair(curve);
    WorstIsWorstPair(scaled);
    OnePassIsWorst(curve);
    OnePassIsWorst(scaled);
    SameLossesSamePair(curve, scaled, Worst(curve));
    WorstPairUnique(scaled, Worst(scaled), Worst(curve));
  }

  // ---------- any curve ----------

  /** The highest point up to `j`. */
  function Highest(curve: seq<real>, j: nat): real
    requires j < |curve|
  {
    Peak(curve[..j + 1])
  }

  /** The relative fall of point `j` from it. */
  function Fall(curve: seq<real>, j: nat): real
    requires j < |curve| && Highest(curve, j) != 0.0
  {
    (Highest(curve, j) - curve[j]) / Highest(curve, j)
  }

  /** What is known of a pass over the first `n` points. */
  predicate RunsTo(curve: seq<real>, n: nat, r: Option<Running>)
    requires 0 < n <= |curve|
  {
    if r.None? then exists j | 0 <= j < n :: Highest(curve, j) == 0.0
    else
      && r.value.peak == Highest(curve, n - 1) && r.value.worst >= 0.0
      && (forall j | 0 <= j < n :: Highest(curve, j) != 0.0 && Fall(curve, j) <= r.value.worst)
      && (r.value.worst == 0.0 || exists j | 0 <= j < n :: Fall(curve, j) == r.value.worst)
  }

  lemma HighestStep(curve: seq<real>, n: nat)
    requires 0 < n < |curve|
    ensures Highest(curve, n) == Max(Highest(curve, n - 1), curve[n])
  {
    assert curve[..n + 1][..n] == curve[..n];
  }

  lemma RunsFurther(curve: seq<real>, n: nat, r: Running)
    requires 0 < n < |curve| && RunsTo(curve, n, Some(r))
    ensures RunsTo(curve, n + 1, RunningStep(r, curve[n]))
  {
    HighestStep(curve, n);
    var next := RunningStep(r, curve[n]);
    if next.Some? {
      assert next.value.worst == Max(r.worst, Fall(curve, n));
    }
    hide Highest, Fall;
  }

  lemma RunsFirst(curve: seq<real>)
    requires |curve| > 0
    ensures RunsTo(curve, 1, RunningOver(curve[..1], curve[0]))
  {
    assert curve[..1][..0] == [] && curve[..1][0] == curve[0];
    assert RunningOver(curve[..1][..0], curve[0]) == Some(Running(curve[0], 0.0));
    assert Highest(curve, 0) == curve[0];
  }

  lemma {:induction false} PassRunsTo(curve: seq<real>, n: nat)
    requires 0 < n <= |curve|
    ensures RunsTo(curve, n, RunningOver(curve[..n], curve[0]))
  {
    hide RunsTo, RunningStep, Fall;
    if n == 1 {
      RunsFirst(curve);
    } else {
      assert curve[..n][..n - 1] == curve[..n - 1];
      PassRunsTo(curve, n - 1);
      var before := RunningOver(curve[..n - 1], curve[0]);
      if before.Some? {
        RunsFurther(curve, n - 1, before.value);
      } else {
        StaysFailed(curve, n - 1);
      }
    }
  }

  lemma StaysFailed(curve: seq<real>, n: nat)
    requires 0 < n < |curve| && RunsTo(curve, n, None)
    ensures RunsTo(curve, n + 1, None)
  {
    hide Highest;
    var j :| 0 <= j < n && Highest(curve, j) == 0.0;
    assert 0 <= j < n + 1;
  }

  /** On any curve of two points or more, whatever their signs: there is no result exactly when the highest
      point so far is somewhere zero, and otherwise it is the largest relative fall from the highest point so
      far, or zero. */
  lemma DrawdownExactly(curve: seq<real>)
    requires |curve| >= 2
    ensures var d := MaximumDrawdown(curve);
            && (d.None? <==> exists j | 0 <= j < |curve| :: Highest(curve, j) == 0.0)
            && (d.Some? ==>
                  && d.value >= 0.0
                  && (forall j | 0 <= j < |curve| :: Fall(curve, j) <= d.value)
                  && (d.value == 0.0 || exists j | 0 <= j < |curve| :: Fall(curve, j) == d.value))
  {
    assert curve[..|curve|] == curve;
    PassRunsTo(curve, |curve|);
    hide Highest, Fall;
  }
}
