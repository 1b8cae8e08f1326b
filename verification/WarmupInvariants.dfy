/** Cold start: the invariants of each state, and which failures are critical. */
module WarmupInvariants {
  import opened Prelude
  import opened Floats
  import opened WarmupMetrics
  import opened WarmupMachine

  datatype Portfolio = NoFile | ReadableDict | Unusable

  /** What one tick is given: the metrics, and what the invariants look at. */
  datatype Snapshot = Snapshot(
    metrics: Metrics,
    capital: Option<Float>,         // None when it cannot be converted
    riskGovernorKnown: bool,
    allocationsFinite: bool,
    weightsTotal: Option<Float>,    // None before the first weights
    regimeAge: Float,               // infinite when never updated
    portfolio: Portfolio,
    blackBoxWritable: bool,
    advisorReady: bool,             // the local model answers, or fallback rules are loaded
    pendingDecisions: int,
    agentsInitialized: bool,
    raises: set<Invariant>)         // the invariants that meet a value they cannot work with

  datatype Invariant =
    | AgentsInitialized
    | CapitalNotNegative
    | RiskGovernorInitialized
    | PortfolioSnapshotReadable
    | NoUnknownPositions
    | BlackBoxWritable
    | AdvisorReady
    | HardLimitsNotBreached
    | DecisionQueueEmpty
    | NoNanAllocation
    | RegimeNotStale
    | WeightsSumToOne
    | KillSwitchNotActive

  datatype Outcome = Outcome(passed: bool, critical: bool)

  const REGIME_MAX_AGE := 1800.0

  /** Within a hundredth of 1; no special value is. */
  predicate IsOne(total: Float) { total.Finite? && -0.01 <= total.r - 1.0 <= 0.01 }

  /** One invariant; one that raises counts as failed and critical, whatever it is. */
  function Evaluate(i: Invariant, s: Snapshot): Outcome {
    if i in s.raises then Outcome(false, true) else Compare(i, s)
  }

  function Compare(i: Invariant, s: Snapshot): Outcome {
    match i
    case AgentsInitialized => Outcome(s.agentsInitialized, true)
    case CapitalNotNegative => Outcome(s.capital.Some? && AtMost(Finite(0.0), s.capital.value), true)
    case RiskGovernorInitialized => Outcome(s.riskGovernorKnown, true)
    case PortfolioSnapshotReadable => Outcome(!s.portfolio.Unusable?, !s.portfolio.NoFile?)
    case NoUnknownPositions => Outcome(!s.metrics.positionsUnknown, true)
    case BlackBoxWritable => Outcome(s.blackBoxWritable, true)
    case AdvisorReady => Outcome(s.advisorReady, false)
    case HardLimitsNotBreached => Outcome(s.metrics.hardLimitsOk, true)
    case DecisionQueueEmpty => Outcome(s.pendingDecisions == 0, false)
    case NoNanAllocation => Outcome(s.allocationsFinite, true)
    case RegimeNotStale => Outcome(AtMost(s.regimeAge, Finite(REGIME_MAX_AGE)), false)
    case WeightsSumToOne =>
      if s.weightsTotal.Some? then Outcome(IsOne(s.weightsTotal.value), true) else Outcome(true, false)
    case KillSwitchNotActive => Outcome(true, false)
  }

  /** The invariants checked in each state. */
  function InvariantsOf(state: WarmupState): seq<Invariant> {
    match state
    case Booting =>
      [AgentsInitialized, CapitalNotNegative, RiskGovernorInitialized, PortfolioSnapshotReadable, NoUnknownPositions,
       BlackBoxWritable, AdvisorReady]
    case FetchingMarketData =>
      [CapitalNotNegative, HardLimitsNotBreached, RiskGovernorInitialized, PortfolioSnapshotReadable,
       NoUnknownPositions, DecisionQueueEmpty]
    case BuildingFeatures => [CapitalNotNegative, HardLimitsNotBreached, NoNanAllocation, PortfolioSnapshotReadable]
    case StabilizingRegimes => [CapitalNotNegative, HardLimitsNotBreached, NoNanAllocation, RegimeNotStale]
    case ValidatingRisk =>
      [CapitalNotNegative, HardLimitsNotBreached, NoUnknownPositions, NoNanAllocation, WeightsSumToOne, RegimeNotStale,
       BlackBoxWritable]
    case ShadowMode =>
      [CapitalNotNegative, HardLimitsNotBreached, NoUnknownPositions, NoNanAllocation, WeightsSumToOne,
       KillSwitchNotActive, BlackBoxWritable]
    case LiveReady =>
      [CapitalNotNegative, HardLimitsNotBreached, NoUnknownPositions, NoNanAllocation, WeightsSumToOne,
       KillSwitchNotActive, BlackBoxWritable]
    case Failed => []
  }

  /** A critical invariant of the state fails. */
  predicate CriticalFailure(state: WarmupState, s: Snapshot) {
    exists i :: i in InvariantsOf(state) && !Evaluate(i, s).passed && Evaluate(i, s).critical
  }

  /** The invariants that are looked at in a state, as a set. */
  function Watched(state: WarmupState): set<Invariant> {
    match state
    case Booting =>
      {AgentsInitialized, CapitalNotNegative, RiskGovernorInitialized, PortfolioSnapshotReadable, NoUnknownPositions,
       BlackBoxWritable, AdvisorReady}
    case FetchingMarketData =>
      {CapitalNotNegative, HardLimitsNotBreached, RiskGovernorInitialized, PortfolioSnapshotReadable,
       NoUnknownPositions, DecisionQueueEmpty}
    case BuildingFeatures => {CapitalNotNegative, HardLimitsNotBreached, NoNanAllocation, PortfolioSnapshotReadable}
    case StabilizingRegimes => {CapitalNotNegative, HardLimitsNotBreached, NoNanAllocation, RegimeNotStale}
    case ValidatingRisk =>
      {CapitalNotNegative, HardLimitsNotBreached, NoUnknownPositions, NoNanAllocation, WeightsSumToOne, RegimeNotStale,
       BlackBoxWritable}
    case ShadowMode | LiveReady =>
      {CapitalNotNegative, HardLimitsNotBreached, NoUnknownPositions, NoNanAllocation, WeightsSumToOne,
       KillSwitchNotActive, BlackBoxWritable}
    case Failed => {}
  }

  /** What is in danger in a state: each condition with the states that cannot go on under it. */
  predicate InDanger(state: WarmupState, s: Snapshot) {
    && state != Failed
    && (|| s.capital == None || s.capital == Some(NotANumber) || s.capital == Some(MinusInfinity)
        || (s.capital.Some? && s.capital.value.Finite? && s.capital.value.r < 0.0)
        || (state == Booting && !s.agentsInitialized)
        || (state != Booting && !s.metrics.hardLimitsOk)
        || ((state == Booting || state == FetchingMarketData) && !s.riskGovernorKnown)
        || ((state == Booting || state == FetchingMarketData || state == BuildingFeatures) && s.portfolio == Unusable)
        || (state != BuildingFeatures && state != StabilizingRegimes && s.metrics.positionsUnknown)
        || (state != Booting && state != FetchingMarketData && !s.allocationsFinite)
        || ((state == ValidatingRisk || state == ShadowMode || state == LiveReady)
            && s.weightsTotal.Some? && !(s.weightsTotal.value.Finite? && 0.99 <= s.weightsTotal.value.r <= 1.01))
        || ((state == Booting || state == ValidatingRisk || state == ShadowMode || state == LiveReady)
            && !s.blackBoxWritable))
  }

  lemma CompareInDanger(state: WarmupState, s: Snapshot)
    ensures (exists i :: i in Watched(state) && !Compare(i, s).passed && Compare(i, s).critical) <==> InDanger(state, s)
  {
    hide Watched, Compare, IsOne;
    forall i | i in Watched(state) && !Compare(i, s).passed && Compare(i, s).critical ensures InDanger(state, s) {
      OneInDanger(i, state, s);
    }
    if InDanger(state, s) { var i := Endangered(state, s); }
  }

  lemma OneInDanger(i: Invariant, state: WarmupState, s: Snapshot)
    requires i in Watched(state) && !Compare(i, s).passed && Compare(i, s).critical
    ensures InDanger(state, s)
  {
  }

  lemma Endangered(state: WarmupState, s: Snapshot) returns (i: Invariant)
    requires InDanger(state, s)
    ensures i in Watched(state) && !Compare(i, s).passed && Compare(i, s).critical
  {
    i := if s.capital == None || !AtMost(Finite(0.0), s.capital.value) then CapitalNotNegative
         else if state == Booting && !s.agentsInitialized then AgentsInitialized
         else if state != Booting && !s.metrics.hardLimitsOk then HardLimitsNotBreached
         else if (state == Booting || state == FetchingMarketData) && !s.riskGovernorKnown then RiskGovernorInitialized
         else if (state == Booting || state == FetchingMarketData || state == BuildingFeatures)
                 && s.portfolio == Unusable then PortfolioSnapshotReadable
         else if state != BuildingFeatures && state != StabilizingRegimes && s.metrics.positionsUnknown then
           NoUnknownPositions
         else if state != Booting && state != FetchingMarketData && !s.allocationsFinite then NoNanAllocation
         else if (state == ValidatingRisk || state == ShadowMode || state == LiveReady)
                 && s.weightsTotal.Some? && !IsOne(s.weightsTotal.value) then WeightsSumToOne
         else BlackBoxWritable;
  }

  /** A tick is critical exactly if a watched invariant raises, or the state is in danger. */
  lemma CriticalIsDanger(state: WarmupState, s: Snapshot)
    ensures CriticalFailure(state, s) <==> (exists i :: i in s.raises && i in Watched(state)) || InDanger(state, s)
  {
    hide InDanger, Compare;
    CompareInDanger(state, s);
    ListIsWatched(state);
    hide Watched, InvariantsOf;
    forall i | i in InvariantsOf(state)
      ensures !Evaluate(i, s).passed && Evaluate(i, s).critical
              <==> i in s.raises || (!Compare(i, s).passed && Compare(i, s).critical)
    {
    }
  }

  lemma ListIsWatched(state: WarmupState)
    ensures forall i :: i in InvariantsOf(state) <==> i in Watched(state)
  {
  }

  /** What only draws a warning in a state, with the invariant that sees it. */
  predicate InDoubt(state: WarmupState, s: Snapshot) {
    || (AdvisorReady !in s.raises && state == Booting && !s.advisorReady)
    || (DecisionQueueEmpty !in s.raises && state == FetchingMarketData && s.pendingDecisions != 0)
    || (RegimeNotStale !in s.raises && (state == StabilizingRegimes || state == ValidatingRisk)
        && (s.regimeAge == NotANumber || s.regimeAge == PlusInfinity
            || (s.regimeAge.Finite? && s.regimeAge.r > 1800.0)))
  }

  lemma OneInDoubt(i: Invariant, state: WarmupState, s: Snapshot)
    requires i in Watched(state) && !Evaluate(i, s).passed && !Evaluate(i, s).critical
    ensures InDoubt(state, s)
  {
  }

  lemma Doubted(state: WarmupState, s: Snapshot) returns (i: Invariant)
    requires InDoubt(state, s)
    ensures i in Watched(state) && !Evaluate(i, s).passed && !Evaluate(i, s).critical
  {
    i := if state == Booting then AdvisorReady
         else if state == FetchingMarketData then DecisionQueueEmpty else RegimeNotStale;
  }

  /** An invariant fails without stopping the start exactly if one of these is in doubt. */
  lemma WarningIsDoubt(state: WarmupState, s: Snapshot)
    ensures (exists i :: i in InvariantsOf(state) && !Evaluate(i, s).passed && !Evaluate(i, s).critical)
            <==> InDoubt(state, s)
  {
    ListIsWatched(state);
    hide InvariantsOf, Watched, Evaluate, InDoubt;
    forall i | i in Watched(state) && !Evaluate(i, s).passed && !Evaluate(i, s).critical ensures InDoubt(state, s) {
      OneInDoubt(i, state, s);
    }
    if InDoubt(state, s) { var i := Doubted(state, s); }
  }

  /** `check`: evaluate the whole list, remember a critical failure. */
  method Check(state: WarmupState, s: Snapshot) returns (results: seq<Outcome>, critical: bool)
    ensures |results| == |InvariantsOf(state)|
    ensures forall k | 0 <= k < |results| :: results[k] == Evaluate(InvariantsOf(state)[k], s)
    ensures critical <==> CriticalFailure(state, s)
  {
    hide Evaluate;
    var list := InvariantsOf(state);
    hide InvariantsOf;
    results, critical := [], false;
    for n := 0 to |list|
      invariant |results| == n && forall k | 0 <= k < n :: results[k] == Evaluate(list[k], s)
      invariant critical <==> exists k :: 0 <= k < n && !Evaluate(list[k], s).passed && Evaluate(list[k], s).critical
    {
      var result := Evaluate(list[n], s);
      results := results + [result];
      if !result.passed && result.critical { critical := true; }
    }
    if critical {
      var k :| 0 <= k < |list| && !Evaluate(list[k], s).passed && Evaluate(list[k], s).critical;
      assert list[k] in InvariantsOf(state);
    }
  }
}
