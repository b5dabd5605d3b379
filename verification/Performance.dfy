/** Profit and loss statistics, ungrouped and per market regime, and the identities between them. */
module Performance {
  import opened Options

  /** The five running totals of a list of results; the remaining figures are ratios of these. */
  datatype Statistics = Statistics(winning: nat, losing: nat, breakeven: nat, profit: real, loss: real) {
    function Count(): nat {
      winning + losing + breakeven
    }

    function Net(): real {
      profit - loss
    }

    function AverageWin(): real {
      Average(profit, winning)
    }

    function AverageLoss(): real {
      Average(loss, losing)
    }
  }

  datatype Outcome = Outcome(regime: string, pnl: real)

  const NO_RESULTS := Statistics(0, 0, 0, 0.0, 0.0)

  function WithResult(t: Statistics, pnl: real): Statistics {
    if pnl > 0.0 then t.(winning := t.winning + 1, profit := t.profit + pnl)
    else if pnl < 0.0 then t.(losing := t.losing + 1, loss := t.loss + Abs(pnl))
    else t.(breakeven := t.breakeven + 1)
  }

  function TallyOf(pnls: seq<real>): Statistics {
    if |pnls| == 0 then NO_RESULTS else WithResult(TallyOf(pnls[..|pnls| - 1]), pnls[|pnls| - 1])
  }

  function Average(total: real, count: nat): real {
    if count > 0 then total / count as real else 0.0
  }

  method PositionPerformance(pnls: seq<real>) returns (r: Statistics)
    ensures r == TallyOf(pnls) && Totals(r, pnls)
  {
    var winning, losing, breakeven := 0, 0, 0;
    var profit, loss := 0.0, 0.0;
    for i := 0 to |pnls|
      invariant Statistics(winning, losing, breakeven, profit, loss) == TallyOf(pnls[..i])
    {
      assert pnls[..i + 1][..i] == pnls[..i];
      var pnl := pnls[i];
      if pnl > 0.0 {
        winning, profit := winning + 1, profit + pnl;
      } else if pnl < 0.0 {
        losing, loss := losing + 1, loss + Abs(pnl);
      } else {
        breakeven := breakeven + 1;
      }
    }
    assert pnls[..|pnls|] == pnls;
    r := Statistics(winning, losing, breakeven, profit, loss);
    TallyTotals(pnls);
  }

  // ---------- ratios ----------

  function Expectancy(s: Statistics): real {
    if s.Count() == 0 then 0.0
    else
      var n := s.Count() as real;
      s.winning as real / n * s.AverageWin() - s.losing as real / n * s.AverageLoss()
  }

  function ProfitFactor(s: Statistics): real {
    if s.loss == 0.0 then 0.0 else s.profit / s.loss
  }

  /** Totals are never negative and vanish exactly with their counts. */
  predicate Consistent(t: Statistics) {
    t.profit >= 0.0 && t.loss >= 0.0 && (t.winning == 0 <==> t.profit == 0.0) && (t.losing == 0 <==> t.loss == 0.0)
  }

  lemma {:induction false} TallyConsistent(pnls: seq<real>)
    ensures Consistent(TallyOf(pnls))
  {
    if |pnls| > 0 {
      TallyConsistent(pnls[..|pnls| - 1]);
    }
  }

  /** The tally counts every result once. */
  lemma {:induction false} TallyCounts(pnls: seq<real>)
    ensures TallyOf(pnls).Count() == |pnls|
  {
    if |pnls| > 0 {
      TallyCounts(pnls[..|pnls| - 1]);
    }
  }

  /** Profit less loss is the sum of the results. */
  lemma {:induction false} TallyIsSum(pnls: seq<real>)
    ensures TallyOf(pnls).profit - TallyOf(pnls).loss == Sum(pnls)
  {
    if |pnls| > 0 {
      TallyIsSum(pnls[..|pnls| - 1]);
    }
  }

  lemma Rearranged(c: real, n: real, mean: real)
    requires n != 0.0
    ensures c / n * mean * n == c * mean
  {
    QuotientTimes(c, n);
    assert c / n * mean * n == c / n * n * mean;
  }

  lemma ShareOfAverage(count: nat, total: real, n: real)
    requires n > 0.0 && (count == 0 ==> total == 0.0)
    ensures count as real / n * Average(total, count) * n == total
  {
    Rearranged(count as real, n, Average(total, count));
    if count > 0 {
      QuotientTimes(total, count as real);
    }
  }

  lemma ScaledDifference(x: real, y: real, n: real, profit: real, loss: real)
    requires x * n == profit && y * n == loss
    ensures (x - y) * n == profit - loss
  {
  }

  lemma ExpectancyTimesCount(t: Statistics)
    requires Consistent(t)
    ensures Expectancy(t) * t.Count() as real == t.profit - t.loss
  {
    if t.Count() > 0 {
      var n := t.Count() as real;
      ShareOfAverage(t.winning, t.profit, n);
      ShareOfAverage(t.losing, t.loss, n);
      ScaledDifference(t.winning as real / n * t.AverageWin(), t.losing as real / n * t.AverageLoss(), n, t.profit,
          t.loss);
    }
  }

  lemma MeanOfTally(t: Statistics, count: nat, total: real)
    requires Consistent(t) && t.Count() == count && t.profit - t.loss == total
    ensures t.Net() == total && Expectancy(t) * count as real == total
  {
    ExpectancyTimesCount(t);
  }

  lemma TallyFacts(pnls: seq<real>)
    ensures Consistent(TallyOf(pnls)) && TallyOf(pnls).Count() == |pnls|
    ensures TallyOf(pnls).profit - TallyOf(pnls).loss == Sum(pnls)
  {
    TallyIsSum(pnls);
    TallyCounts(pnls);
    TallyConsistent(pnls);
  }

  /** For the tally of `n` results: expectancy times `n` is the net profit, which is their sum. */
  lemma ExpectancyIsMeanResult(pnls: seq<real>, t: Statistics, n: nat)
    requires t == TallyOf(pnls) && n == |pnls|
    ensures t.Net() == Sum(pnls) && Expectancy(t) * n as real == t.Net()
  {
    TallyFacts(pnls);
    MeanOfTally(t, n, Sum(pnls));
  }

  /** The winning results, with zero in place of the others; and the losses, positive. */
  function Gains(pnls: seq<real>): (r: seq<real>)
    ensures |r| == |pnls| && forall i | 0 <= i < |r| :: r[i] == if pnls[i] > 0.0 then pnls[i] else 0.0
  {
    seq(|pnls|, i requires 0 <= i < |pnls| => if pnls[i] > 0.0 then pnls[i] else 0.0)
  }

  function Losses(pnls: seq<real>): (r: seq<real>)
    ensures |r| == |pnls| && forall i | 0 <= i < |r| :: r[i] == if pnls[i] < 0.0 then -pnls[i] else 0.0
  {
    seq(|pnls|, i requires 0 <= i < |pnls| => if pnls[i] < 0.0 then -pnls[i] else 0.0)
  }

  function Sign(x: real): int {
    if x > 0.0 then 1 else if x < 0.0 then -1 else 0
  }

  /** Which results have this sign. */
  function Where(pnls: seq<real>, sign: int): set<nat> {
    set i: nat | i < |pnls| && Sign(pnls[i]) == sign
  }

  /** The five totals in terms of the results themselves. */
  predicate Totals(t: Statistics, pnls: seq<real>) {
    && t.winning == |Where(pnls, 1)| && t.losing == |Where(pnls, -1)| && t.breakeven == |Where(pnls, 0)|
    && t.profit == Sum(Gains(pnls)) && t.loss == Sum(Losses(pnls))
  }

  lemma WhereStep(pnls: seq<real>, sign: int)
    requires |pnls| > 0
    ensures var n := |pnls| - 1;
            |Where(pnls, sign)| == |Where(pnls[..n], sign)| + if Sign(pnls[n]) == sign then 1 else 0
  {
    hide Sign;
    var n := |pnls| - 1;
    var before, after := Where(pnls[..n], sign), Where(pnls, sign);
    assert after == if Sign(pnls[n]) == sign then before + {n} else before;
  }

  lemma SumsStep(pnls: seq<real>)
    requires |pnls| > 0
    ensures var n := |pnls| - 1;
            && Sum(Gains(pnls)) == Sum(Gains(pnls[..n])) + (if pnls[n] > 0.0 then pnls[n] else 0.0)
            && Sum(Losses(pnls)) == Sum(Losses(pnls[..n])) + (if pnls[n] < 0.0 then -pnls[n] else 0.0)
  {
    var n := |pnls| - 1;
    assert Gains(pnls)[..n] == Gains(pnls[..n]) && Losses(pnls)[..n] == Losses(pnls[..n]);
  }

  lemma TotalsStep(t: Statistics, pnls: seq<real>)
    requires |pnls| > 0 && Totals(t, pnls[..|pnls| - 1])
    ensures Totals(WithResult(t, pnls[|pnls| - 1]), pnls)
  {
    hide Where, Gains, Losses, Sum;
    WhereStep(pnls, 1);
    WhereStep(pnls, -1);
    WhereStep(pnls, 0);
    SumsStep(pnls);
  }

  lemma {:induction false} TallyTotals(pnls: seq<real>)
    ensures Totals(TallyOf(pnls), pnls)
  {
    hide WithResult, Totals;
    if |pnls| == 0 {
      NoTotals(pnls);
    } else {
      TallyTotals(pnls[..|pnls| - 1]);
      TotalsStep(TallyOf(pnls[..|pnls| - 1]), pnls);
    }
  }

  lemma NoTotals(pnls: seq<real>)
    requires |pnls| == 0
    ensures Totals(NO_RESULTS, pnls)
  {
  }

  /** The ratios: each average times its count is its total, and the profit factor times the loss is the
      profit; with nothing to divide by they are zero. */
  lemma RatiosExactly(t: Statistics)
    requires t.loss >= 0.0
    ensures t.winning > 0 ==> t.AverageWin() * t.winning as real == t.profit
    ensures t.losing > 0 ==> t.AverageLoss() * t.losing as real == t.loss
    ensures t.loss > 0.0 ==> ProfitFactor(t) * t.loss == t.profit
    ensures t.winning == 0 ==> t.AverageWin() == 0.0
    ensures t.losing == 0 ==> t.AverageLoss() == 0.0
    ensures t.loss == 0.0 ==> ProfitFactor(t) == 0.0
  {
    if t.winning > 0 {
      QuotientTimes(t.profit, t.winning as real);
    }
    if t.losing > 0 {
      QuotientTimes(t.loss, t.losing as real);
    }
    if t.loss > 0.0 {
      QuotientTimes(t.profit, t.loss);
    }
  }

  lemma SignOfProduct(x: real, n: real)
    requires n > 0.0
    ensures x * n > 0.0 <==> x > 0.0
  {
  }

  lemma FactorAboveOne(profit: real, loss: real)
    requires loss > 0.0
    ensures profit / loss > 1.0 <==> profit > loss
  {
    QuotientTimes(profit, loss);
    SignOfProduct(profit / loss - 1.0, loss);
  }

  lemma ExpectancySign(t: Statistics)
    requires Consistent(t)
    ensures Expectancy(t) > 0.0 <==> t.profit > t.loss
  {
    ExpectancyTimesCount(t);
    if t.Count() > 0 {
      SignOfProduct(Expectancy(t), t.Count() as real);
    }
  }

  /** A profit factor above one means a positive expectancy, and back, exactly when there was a loss or
      no profit: with profit and no loss the factor is reported as zero. */
  lemma ProfitFactorAgreesExactly(pnls: seq<real>)
    ensures var s := TallyOf(pnls);
            (ProfitFactor(s) > 1.0 <==> Expectancy(s) > 0.0) <==> s.loss > 0.0 || s.profit == 0.0
  {
    TallyConsistent(pnls);
    var t := TallyOf(pnls);
    ExpectancySign(t);
    if t.loss > 0.0 {
      FactorAboveOne(t.profit, t.loss);
    }
  }

  // ---------- per regime ----------

  function ResultsOf(outcomes: seq<Outcome>, regime: string): seq<real> {
    if |outcomes| == 0 then []
    else
      var n := |outcomes| - 1;
      ResultsOf(outcomes[..n], regime) + if outcomes[n].regime == regime then [outcomes[n].pnl] else []
  }

  function AllResults(outcomes: seq<Outcome>): seq<real> {
    if |outcomes| == 0 then [] else AllResults(outcomes[..|outcomes| - 1]) + [outcomes[|outcomes| - 1].pnl]
  }

  /** Regime labels in order of first appearance. */
  function Labels(outcomes: seq<Outcome>): seq<string> {
    if |outcomes| == 0 then []
    else
      var n := |outcomes| - 1;
      var seen := Labels(outcomes[..n]);
      if outcomes[n].regime in seen then seen else seen + [outcomes[n].regime]
  }

  /** The dictionary of results per label as the loop fills it. */
  function Groups(outcomes: seq<Outcome>): map<string, seq<real>> {
    if |outcomes| == 0 then map[]
    else
      var n := |outcomes| - 1;
      var earlier := Groups(outcomes[..n]);
      var o := outcomes[n];
      earlier[o.regime := (if o.regime in earlier then earlier[o.regime] else []) + [o.pnl]]
  }

  /** The statistics of the groups listed so far. */
  function Summaries(groups: map<string, seq<real>>, order: seq<string>): map<string, Statistics>
    requires forall i | 0 <= i < |order| :: order[i] in groups
  {
    if |order| == 0 then map[]
    else
      var n := |order| - 1;
      Summaries(groups, order[..n])[order[n] := TallyOf(groups[order[n]])]
  }

  lemma {:induction false} GroupsAreResults(outcomes: seq<Outcome>, g: string)
    ensures g in Groups(outcomes) <==> g in Labels(outcomes)
    ensures ResultsOf(outcomes, g) == if g in Groups(outcomes) then Groups(outcomes)[g] else []
  {
    if |outcomes| > 0 {
      GroupsAreResults(outcomes[..|outcomes| - 1], g);
      GroupsAreResults(outcomes[..|outcomes| - 1], outcomes[|outcomes| - 1].regime);
    }
  }

  lemma {:induction false} SummariesAreTallies(groups: map<string, seq<real>>, order: seq<string>, g: string)
    requires forall i | 0 <= i < |order| :: order[i] in groups
    ensures g in Summaries(groups, order) <==> g in order
    ensures g in order ==> g in groups && Summaries(groups, order)[g] == TallyOf(groups[g])
  {
    if |order| > 0 {
      var n := |order| - 1;
      SummariesAreTallies(groups, order[..n], g);
      assert order == order[..n] + [order[n]];
    }
  }

  /** Fills the dictionary and its insertion order. */
  method GroupByRegime(outcomes: seq<Outcome>) returns (grouped: map<string, seq<real>>, order: seq<string>)
    ensures grouped == Groups(outcomes) && order == Labels(outcomes)
  {
    grouped, order := map[], [];
    for i := 0 to |outcomes|
      invariant grouped == Groups(outcomes[..i]) && order == Labels(outcomes[..i])
    {
      var o := outcomes[i];
      assert outcomes[..i + 1][..i] == outcomes[..i];
      GroupsAreResults(outcomes[..i], o.regime);
      if o.regime !in grouped {
        grouped := grouped[o.regime := []];
        order := order + [o.regime];
      }
      grouped := grouped[o.regime := grouped[o.regime] + [o.pnl]];
    }
    assert outcomes[..|outcomes|] == outcomes;
  }

  /** One entry per label, holding the statistics of that label's results. */
  ghost predicate ReportsEachRegime(r: map<string, Statistics>, outcomes: seq<Outcome>) {
    forall g :: (g in r <==> g in Labels(outcomes)) && (g in r ==> r[g] == TallyOf(ResultsOf(outcomes, g)))
  }

  lemma SummariesReport(outcomes: seq<Outcome>)
    ensures forall i | 0 <= i < |Labels(outcomes)| :: Labels(outcomes)[i] in Groups(outcomes)
    ensures ReportsEachRegime(Summaries(Groups(outcomes), Labels(outcomes)), outcomes)
  {
    forall i | 0 <= i < |Labels(outcomes)| ensures Labels(outcomes)[i] in Groups(outcomes) {
      GroupsAreResults(outcomes, Labels(outcomes)[i]);
    }
    var r := Summaries(Groups(outcomes), Labels(outcomes));
    forall g ensures (g in r <==> g in Labels(outcomes)) && (g in r ==> r[g] == TallyOf(ResultsOf(outcomes, g))) {
      GroupsAreResults(outcomes, g);
      SummariesAreTallies(Groups(outcomes), Labels(outcomes), g);
    }
  }

  /** Groups the results by label, then summarizes each group. */
  method RegimePerformance(outcomes: seq<Outcome>) returns (r: map<string, Statistics>)
    ensures ReportsEachRegime(r, outcomes)
  {
    hide TallyOf, Totals, ReportsEachRegime;
    var grouped, order := GroupByRegime(outcomes);
    SummariesReport(outcomes);
    r := map[];
    for i := 0 to |order|
      invariant r == Summaries(grouped, order[..i])
    {
      assert order[..i + 1][..i] == order[..i];
      var statistics := PositionPerformance(grouped[order[i]]);
      r := r[order[i] := statistics];
    }
    assert order[..|order|] == order;
  }

  lemma ResultsAppend(outcomes: seq<Outcome>, o: Outcome, regime: string)
    ensures ResultsOf(outcomes + [o], regime) == ResultsOf(outcomes, regime) + if o.regime == regime then [o.pnl]
        else []
  {
    assert (outcomes + [o])[..|outcomes|] == outcomes;
  }

  function Plus(a: Statistics, b: Statistics): Statistics {
    Statistics(a.winning + b.winning, a.losing + b.losing, a.breakeven + b.breakeven, a.profit + b.profit, a.loss +
        b.loss)
  }

  /** The tallies of the listed groups, added up. */
  function GroupTotal(labels: seq<string>, outcomes: seq<Outcome>): Statistics {
    if |labels| == 0 then NO_RESULTS
    else Plus(GroupTotal(labels[..|labels| - 1], outcomes), TallyOf(ResultsOf(outcomes, labels[|labels| - 1])))
  }

  predicate Distinct(labels: seq<string>) {
    forall i, j | 0 <= i < j < |labels| :: labels[i] != labels[j]
  }

  lemma TallyAppend(pnls: seq<real>, pnl: real)
    ensures TallyOf(pnls + [pnl]) == WithResult(TallyOf(pnls), pnl)
  {
    assert (pnls + [pnl])[..|pnls|] == pnls;
  }

  lemma PlusResult(a: Statistics, b: Statistics, pnl: real)
    ensures Plus(WithResult(a, pnl), b) == WithResult(Plus(a, b), pnl) == Plus(a, WithResult(b, pnl))
  {
  }

  /** One more outcome counts once in its own group and nowhere else. */
  lemma {:induction false} GroupTotalAppend(labels: seq<string>, outcomes: seq<Outcome>, o: Outcome)
    requires Distinct(labels)
    ensures GroupTotal(labels, outcomes + [o]) ==
            if o.regime in labels then WithResult(GroupTotal(labels, outcomes), o.pnl) else GroupTotal(labels, outcomes)
  {
    hide Plus, WithResult, TallyOf, ResultsOf;
    if |labels| > 0 {
      var n := |labels| - 1;
      var results := ResultsOf(outcomes, labels[n]);
      GroupTotalAppend(labels[..n], outcomes, o);
      ResultsAppend(outcomes, o, labels[n]);
      TallyAppend(results, o.pnl);
      PlusResult(GroupTotal(labels[..n], outcomes), TallyOf(results), o.pnl);
      assert labels == labels[..n] + [labels[n]];
      if o.regime == labels[n] {
        assert o.regime !in labels[..n];
      } else {
        assert ResultsOf(outcomes + [o], labels[n]) == results;
      }
    }
  }

  lemma PlusNothing(a: Statistics, b: Statistics)
    requires b == NO_RESULTS
    ensures Plus(a, b) == a
  {
  }

  lemma {:induction false} EmptyGroups(labels: seq<string>, outcomes: seq<Outcome>)
    requires |outcomes| == 0
    ensures GroupTotal(labels, outcomes) == NO_RESULTS
  {
    hide Plus;
    if |labels| > 0 {
      var n := |labels| - 1;
      EmptyGroups(labels[..n], outcomes);
      PlusNothing(GroupTotal(labels[..n], outcomes), TallyOf(ResultsOf(outcomes, labels[n])));
    }
  }

  /** Adding up every group gives the ungrouped statistics of the same results. */
  lemma {:induction false} GroupsAddUp(labels: seq<string>, outcomes: seq<Outcome>)
    requires Distinct(labels) && forall i | 0 <= i < |outcomes| :: outcomes[i].regime in labels
    ensures GroupTotal(labels, outcomes) == TallyOf(AllResults(outcomes))
  {
    if |outcomes| == 0 {
      EmptyGroups(labels, outcomes);
    } else {
      var n := |outcomes| - 1;
      GroupsAddUp(labels, outcomes[..n]);
      GroupTotalAppend(labels, outcomes[..n], outcomes[n]);
      assert outcomes[..n] + [outcomes[n]] == outcomes;
      TallyAppend(AllResults(outcomes[..n]), outcomes[n].pnl);
    }
  }

  lemma {:induction false} LabelsDistinct(outcomes: seq<Outcome>)
    ensures Distinct(Labels(outcomes))
  {
    if |outcomes| > 0 {
      LabelsDistinct(outcomes[..|outcomes| - 1]);
    }
  }

  lemma {:induction false} LabelsCover(outcomes: seq<Outcome>, i: nat)
    requires i < |outcomes|
    ensures outcomes[i].regime in Labels(outcomes)
  {
    var n := |outcomes| - 1;
    if i < n {
      LabelsCover(outcomes[..n], i);
    }
  }

  /** So summing counts, gross and net over the reported groups equals summing the results themselves. */
  lemma ReportedGroupsAddUp(outcomes: seq<Outcome>)
    ensures GroupTotal(Labels(outcomes), outcomes) == TallyOf(AllResults(outcomes))
    ensures var t := GroupTotal(Labels(outcomes), outcomes);
            t.Net() == Sum(AllResults(outcomes)) && t.Count() == |AllResults(outcomes)|
  {
    LabelsDistinct(outcomes);
    forall i | 0 <= i < |outcomes| ensures outcomes[i].regime in Labels(outcomes) {
      LabelsCover(outcomes, i);
    }
    GroupsAddUp(Labels(outcomes), outcomes);
    TallyFacts(AllResults(outcomes));
  }
}
