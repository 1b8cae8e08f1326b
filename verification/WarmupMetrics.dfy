/**
 * Cold start: the metrics of one tick, their composite score, and the window over which the score is
 * averaged.
 */
module WarmupMetrics {
  import opened Floats

  const SHADOW_CYCLES := 10
  const WINDOW := 5

  /** The metrics built from a snapshot; `symbolsTotal` was raised to at least 1. */
  datatype Metrics = Metrics(
    symbolsReady: int,
    symbolsTotal: int,
    featureConfidence: Float,
    regimeStability: Float,
    riskSync: bool,
    hardLimitsOk: bool,
    probationConsistent: bool,
    memoryLoaded: bool,
    cachePopulated: bool,
    shadowCycles: nat,
    positionsUnknown: bool,
    anomalies: int)
  {
    /** Ratio of symbols with data. */
    function DataCoverage(): real {
      if symbolsTotal <= 0 then 0.0
      else
        var ratio := symbolsReady as real / symbolsTotal as real;
        if ratio < 1.0 then ratio else 1.0
    }

    /** The part of the score that is always a number. */
    function Solid(): real {
      DataCoverage() * 0.20
      + (if riskSync then 0.20 else 0.0) + (if probationConsistent then 0.10 else 0.0)
      + (if memoryLoaded then 0.05 else 0.025) + (if cachePopulated then 0.05 else 0.035)
      + (if anomalies < 10 then 1.0 - anomalies as real * 0.1 else 0.0) * 0.05
    }

    function Weighted(): Float {
      Plus(Plus(Finite(Solid()), Scale(0.15, featureConfidence)), Scale(0.20, regimeStability))
    }

    /** The composite score: nothing while a hard limit or the positions are in doubt. */
    function Score(): Float {
      if !hardLimitsOk || positionsUnknown then Finite(0.0) else Round4(Min(Finite(1.0), Weighted()))
    }

    /** `live_ready`: the condition the metrics state for themselves. */
    predicate LiveReady() {
      && AtMost(Finite(0.85), Score()) && shadowCycles >= SHADOW_CYCLES && hardLimitsOk && !positionsUnknown && riskSync
    }
  }

  function Scores(records: seq<Metrics>): seq<Float> {
    seq(|records|, i requires 0 <= i < |records| => records[i].Score())
  }

  function SquaredGaps(xs: seq<Float>, mean: Float): seq<Float> {
    seq(|xs|, i requires 0 <= i < |xs| => Square(Minus(xs[i], mean)))
  }

  /** 1 when the scores of the window agree, falling with their variance. */
  function Stability(records: seq<Metrics>): Float {
    if |records| < 2 then Finite(0.5)
    else
      var scores := Scores(records);
      Round3(Max(Finite(0.0), Minus(Finite(1.0), Scale(10.0, Mean(SquaredGaps(scores, Mean(scores)))))))
  }

  function Average(records: seq<Metrics>): Float {
    if records == [] then Finite(0.0) else Round4(Mean(Scores(records)))
  }

  /** The window after one more record: the oldest one goes when there are too many. */
  function Pushed(records: seq<Metrics>, m: Metrics): seq<Metrics> {
    var all := records + [m];
    if |all| > WINDOW then all[1..] else all
  }

  /** The sliding window. */
  class MetricsHistory {
    var records: seq<Metrics>

    constructor ()
      ensures records == []
    {
      records := [];
    }

    method Record(m: Metrics)
      modifies this
      ensures records == Pushed(old(records), m)
    {
      records := records + [m];
      if |records| > WINDOW {
        records := records[1..];
      }
    }
  }

  /** The best metrics a snapshot can have. */
  predicate Perfect(m: Metrics) {
    && 0 < m.symbolsTotal <= m.symbolsReady && m.featureConfidence == Finite(1.0) && m.regimeStability == Finite(1.0)
    && m.riskSync && m.hardLimitsOk && m.probationConsistent && m.memoryLoaded && m.cachePopulated
    && !m.positionsUnknown && m.anomalies == 0
  }

  /** What the data coverage is, from the two counts. */
  lemma CoverageIs(m: Metrics)
    ensures m.symbolsTotal <= 0 ==> m.DataCoverage() == 0.0
    ensures 0 < m.symbolsTotal <= m.symbolsReady ==> m.DataCoverage() == 1.0
    ensures 0 < m.symbolsTotal && m.symbolsReady < m.symbolsTotal ==>
              m.DataCoverage() * m.symbolsTotal as real == m.symbolsReady as real
  {
  }

  /** The weights of the flags: what the score loses without each of them. */
  lemma FlagWeights(m: Metrics)
    ensures m.(riskSync := true).Solid() - m.(riskSync := false).Solid() == 0.20
    ensures m.(probationConsistent := true).Solid() - m.(probationConsistent := false).Solid() == 0.10
    ensures m.(memoryLoaded := true).Solid() - m.(memoryLoaded := false).Solid() == 0.025
    ensures m.(cachePopulated := true).Solid() - m.(cachePopulated := false).Solid() == 0.015
  {
    hide Metrics.DataCoverage;
    SameCoverage(m, m.(riskSync := true));
    SameCoverage(m, m.(riskSync := false));
    SameCoverage(m, m.(probationConsistent := true));
    SameCoverage(m, m.(probationConsistent := false));
    SameCoverage(m, m.(memoryLoaded := true));
    SameCoverage(m, m.(memoryLoaded := false));
    SameCoverage(m, m.(cachePopulated := true));
    SameCoverage(m, m.(cachePopulated := false));
  }

  lemma SameCoverage(m: Metrics, n: Metrics)
    requires m.symbolsTotal == n.symbolsTotal && m.symbolsReady == n.symbolsReady
    ensures m.DataCoverage() == n.DataCoverage()
  {
  }

  /** Ten anomalies cost their whole weight, each of the first ten a tenth of it. */
  lemma AnomalyWeight(m: Metrics)
    ensures m.anomalies < 10 ==> m.(anomalies := 0).Solid() - m.Solid() == 0.005 * m.anomalies as real
    ensures m.anomalies >= 10 ==> m.(anomalies := 0).Solid() - m.Solid() == 0.05
  {
  }

  /** The weights of the three measured values. */
  lemma ValueWeights(m: Metrics, n: Metrics, f: real, r: real)
    requires n == m.(symbolsReady := n.symbolsReady, symbolsTotal := n.symbolsTotal)
    ensures n.Solid() - m.Solid() == 0.20 * (n.DataCoverage() - m.DataCoverage())
    ensures m.(featureConfidence := Finite(f), regimeStability := Finite(r)).Weighted()
            == Finite(m.Solid() + 0.15 * f + 0.20 * r)
  {
  }

  /** With the whole weight the score is exactly 1; it is 0 as soon as a hard limit or a position is in doubt. */
  lemma ScoreEnds(m: Metrics)
    ensures Perfect(m) ==> m.Weighted() == Finite(1.0) && m.Score() == Finite(1.0)
    ensures !m.hardLimitsOk || m.positionsUnknown ==> m.Score() == Finite(0.0)
  {
    if Perfect(m) { CoverageIs(m); }
  }

  /** The metrics call themselves ready exactly if all is known, ten shadow ticks are done and the sum is enough. */
  lemma ReadyMeans(m: Metrics, f: real, r: real)
    requires m.featureConfidence == Finite(f) && m.regimeStability == Finite(r)
    ensures m.LiveReady()
            <==> m.shadowCycles >= 10 && m.hardLimitsOk && !m.positionsUnknown && m.riskSync
                 && m.Solid() + 0.15 * f + 0.20 * r >= 0.84995
  {
    hide Metrics.Solid, Round4;
    var sum := m.Solid() + 0.15 * f + 0.20 * r;
    RoundReaches(if sum < 1.0 then sum else 1.0, 8500);
  }

  /** Every score is a number: minus infinity, or a multiple of a ten-thousandth, at most 1. */
  lemma ScoreIsRounded(m: Metrics) returns (k: int)
    ensures m.Score() == Finite(k as real / 10000.0) || m.Score() == MinusInfinity
    ensures k <= 10000
  {
    var capped := Min(Finite(1.0), m.Weighted());
    k := if m.Score() == MinusInfinity || !m.hardLimitsOk || m.positionsUnknown then 0 else Nearest(capped.r * 10000.0);
  }

  lemma ScoresAreNumbers(records: seq<Metrics>)
    ensures forall i | 0 <= i < |Scores(records)| :: Scores(records)[i] == MinusInfinity || Scores(records)[i].Finite?
  {
    forall i | 0 <= i < |Scores(records)| ensures Scores(records)[i] == MinusInfinity || Scores(records)[i].Finite? {
      var k := ScoreIsRounded(records[i]);
    }
  }

  /** The average is a number, whatever the snapshots were. */
  lemma AverageIsNumber(records: seq<Metrics>)
    ensures Average(records) == MinusInfinity || Average(records).Finite?
  {
    hide Metrics.Score;
    ScoresAreNumbers(records);
    SumOfNumbers(Scores(records));
  }

  /** The stability is finite, whatever the snapshots were, and at most 1. */
  lemma StabilityIsFinite(records: seq<Metrics>)
    ensures Stability(records).Finite? && Stability(records).r <= 1.0
  {
    hide Metrics.Score, Scores, SquaredGaps, Mean, Round3, Max, Minus, Scale;
    if |records| < 2 {
    } else {
      var scores := Scores(records);
      VarianceNotNegative(scores, Mean(scores));
      CappedStability(Mean(SquaredGaps(scores, Mean(scores))));
    }
  }

  lemma VarianceNotNegative(xs: seq<Float>, mean: Float)
    ensures var variance := Mean(SquaredGaps(xs, mean));
            variance != MinusInfinity && (variance.Finite? ==> variance.r >= 0.0)
  {
    hide Square, Mean, Minus;
    var gaps := SquaredGaps(xs, mean);
    forall i | 0 <= i < |gaps| ensures gaps[i] != MinusInfinity && (gaps[i].Finite? ==> gaps[i].r >= 0.0) {
      SquareNotNegative(Minus(xs[i], mean));
    }
    SumNotMinusInfinity(gaps);
    SumNotNegative(gaps);
    MeanNotNegative(gaps);
  }

  lemma CappedStability(variance: Float)
    requires variance != MinusInfinity && (variance.Finite? ==> variance.r >= 0.0)
    ensures var r := Round3(Max(Finite(0.0), Minus(Finite(1.0), Scale(10.0, variance)))); r.Finite? && r.r <= 1.0
  {
    var capped := Max(Finite(0.0), Minus(Finite(1.0), Scale(10.0, variance)));
    assert capped.Finite? && capped.r <= 1.0;
  }

  /** Equal scores leave no gaps. */
  lemma NoGaps(xs: seq<Float>, c: real)
    requires forall i | 0 <= i < |xs| :: xs[i] == Finite(c)
    ensures forall i | 0 <= i < |SquaredGaps(xs, Finite(c))| :: SquaredGaps(xs, Finite(c))[i] == Finite(0.0)
  {
    assert Square(Minus(Finite(c), Finite(c))) == Finite(0.0);
  }

  /** The average of a window is its mean to four digits. */
  lemma AverageOf(records: seq<Metrics>, mean: real) returns (k: int)
    requires records != [] && Mean(Scores(records)) == Finite(mean)
    ensures Average(records) == Finite(k as real / 10000.0) && -0.00005 <= mean - k as real / 10000.0 <= 0.00005
  {
    hide Mean, Scores, Round4;
    var l;
    k, l := RoundingIs(mean);
  }

  /** The stability of a window whose scores have a finite variance. */
  lemma StabilityOf(records: seq<Metrics>, variance: real)
    requires |records| >= 2
    requires Mean(SquaredGaps(Scores(records), Mean(Scores(records)))) == Finite(variance)
    ensures Stability(records) == Round3(Max(Finite(0.0), Finite(1.0 - 10.0 * variance)))
  {
    hide Mean, SquaredGaps, Scores;
  }

  lemma SquareNotNegative(x: Float)
    ensures Square(x) != MinusInfinity && (Square(x).Finite? ==> Square(x).r >= 0.0)
  {
  }

  lemma MeanNotNegative(xs: seq<Float>)
    requires Sum(xs) != MinusInfinity && (Sum(xs).Finite? ==> Sum(xs).r >= 0.0)
    ensures Mean(xs) != MinusInfinity && (Mean(xs).Finite? ==> Mean(xs).r >= 0.0)
  {
    if xs != [] {
      assert 1.0 / |xs| as real > 0.0;
      if Sum(xs).Finite? { assert 1.0 / |xs| as real * Sum(xs).r >= 0.0; }
    }
  }
}
