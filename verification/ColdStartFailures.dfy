/**
 * Cold start: what one tick of a run does, told from the inputs so far. The counters and the time in a
 * state are what happened since the state was entered, so every failure has its reason in the inputs.
 */
module ColdStartFailures {
  import opened Prelude
  import opened Floats
  import opened WarmupMetrics
  import opened WarmupMachine
  import opened WarmupInvariants
  import opened ColdStart

  /** When the state after `n` ticks was entered. */
  function EntryTime(start: real, inputs: seq<Input>, states: seq<Warmup>, n: nat): real
    requires |states| == |inputs| + 1 && n <= |inputs|
  {
    if n == 0 then start
    else if states[n].machine.state != states[n - 1].machine.state then inputs[n - 1].now
    else EntryTime(start, inputs, states, n - 1)
  }

  /** The ticks spent so far in the state after `n` ticks. */
  function Stay(states: seq<Warmup>, n: nat): nat
    requires n < |states|
  {
    if n == 0 || states[n].machine.state != states[n - 1].machine.state then 0 else Stay(states, n - 1) + 1
  }

  /** Tick `i` found no data while it fetched some. */
  predicate FoundNothing(inputs: seq<Input>, states: seq<Warmup>, i: nat)
    requires |states| == |inputs| + 1 && i < |inputs|
  {
    && states[i].machine.state == FetchingMarketData
    && (inputs[i].snapshot.metrics.symbolsReady == 0 || inputs[i].snapshot.metrics.symbolsTotal <= 0)
  }

  /** How many of the last ticks before `n`, one after the other, found nothing. */
  function Nothing(inputs: seq<Input>, states: seq<Warmup>, n: nat): nat
    requires |states| == |inputs| + 1 && n <= |inputs|
  {
    if n == 0 || !FoundNothing(inputs, states, n - 1) then 0 else Nothing(inputs, states, n - 1) + 1
  }

  /** What the machine counts is what happened. */
  predicate Counts(start: real, inputs: seq<Input>, states: seq<Warmup>, n: nat)
    requires |states| == |inputs| + 1 && n <= |inputs|
  {
    var w := states[n];
    && w.zeroDataTicks == Nothing(inputs, states, n)
    && w.machine.stuckCycles == Stay(states, n) && w.machine.consecutiveFailures == 0
    && w.machine.history != []
    && (var last := w.machine.history[|w.machine.history| - 1];
        last == StateRecord(w.machine.state, EntryTime(start, inputs, states, n), None, Finite(0.0), None))
  }

  /** Seconds a state may last, confidence it has to reach, and the state after it. */
  function LimitOf(state: WarmupState): real
    requires !state.Terminal()
  {
    match state
    case Booting => 30.0
    case FetchingMarketData | ValidatingRisk => 120.0
    case BuildingFeatures => 180.0
    case StabilizingRegimes => 600.0
    case ShadowMode => 300.0
  }

  function GateOf(state: WarmupState): real
    requires !state.Terminal()
  {
    match state
    case Booting => 0.80
    case FetchingMarketData => 0.60
    case BuildingFeatures => 0.70
    case StabilizingRegimes => 0.75
    case ValidatingRisk | ShadowMode => 0.85
  }

  function After(state: WarmupState): WarmupState
    requires !state.Terminal()
  {
    match state
    case Booting => FetchingMarketData
    case FetchingMarketData => BuildingFeatures
    case BuildingFeatures => StabilizingRegimes
    case StabilizingRegimes => ValidatingRisk
    case ValidatingRisk => ShadowMode
    case ShadowMode => LiveReady
  }

  datatype Verdict = Fails(reason: Reason) | Stays | Advances

  /** What tick `n` does, the first condition deciding. */
  ghost function VerdictOf(start: real, inputs: seq<Input>, states: seq<Warmup>, n: nat): Verdict
    requires |states| == |inputs| + 1 && n < |inputs| && !states[n].machine.state.Terminal()
  {
    var state, s, now := states[n].machine.state, inputs[n].snapshot, inputs[n].now;
    if FoundNothing(inputs, states, n) && Nothing(inputs, states, n) >= 9 then Fails(NoMarketData)
    else if (exists i :: i in s.raises && i in Watched(state)) || InDanger(state, s) then Fails(CriticalInvariant)
    else if now - EntryTime(start, inputs, states, n) > LimitOf(state) then Fails(TimedOut)
    else if Less(ConfidenceOf(states[n], s), Finite(GateOf(state))) then
      if Stay(states, n) >= 30 then Fails(Looping) else Stays
    else Advances
  }

  /** A coverage of nothing is one without symbols. */
  lemma NoCoverage(m: Metrics)
    ensures m.DataCoverage() == 0.0 <==> m.symbolsReady == 0 || m.symbolsTotal <= 0
  {
    if m.symbolsTotal > 0 {
      var ratio := m.symbolsReady as real / m.symbolsTotal as real;
      assert ratio * m.symbolsTotal as real == m.symbolsReady as real;
    }
  }

  lemma TablesAgree(state: WarmupState)
    requires !state.Terminal()
    ensures state.Timeout() == LimitOf(state) > 0.0 && state.MinConfidence() == GateOf(state)
    ensures SEQUENCE[state.Index() + 1] == After(state)
  {
  }

  /** One tick from a state whose counters are right. */
  lemma TickDoes(start: real, inputs: seq<Input>, states: seq<Warmup>, n: nat)
    requires |states| == |inputs| + 1 && n < |inputs| && Counts(start, inputs, states, n)
    requires states[n + 1] == Tick(states[n], inputs[n].snapshot, inputs[n].now)
    requires !states[n].machine.state.Terminal()
    ensures var w, m, now := states[n], states[n + 1].machine, inputs[n].now;
            match VerdictOf(start, inputs, states, n)
            case Fails(reason) =>
              && m.state == Failed && m.consecutiveFailures == 1
              && |m.history| == |w.machine.history| + 1
              && m.history[|w.machine.history|] == StateRecord(Failed, now, None, Finite(0.0), Some(reason))
              && (var left := m.history[|w.machine.history| - 1];
                  left.exitedAt == Some(now) && left.confidenceAtExit == Finite(0.0) && left.failure == Some(reason))
            case Stays => m == w.machine.(stuckCycles := w.machine.stuckCycles + 1)
            case Advances =>
              && m.state == After(w.machine.state) && m.stuckCycles == 0 && m.consecutiveFailures == 0
              && |m.history| == |w.machine.history| + 1
              && m.history[|w.machine.history|] == StateRecord(m.state, now, None, Finite(0.0), None)
              && (var left := m.history[|w.machine.history| - 1];
                  left.exitedAt == Some(now) && left.failure == None
                  && left.confidenceAtExit == ConfidenceOf(w, inputs[n].snapshot))
    ensures states[n + 1].zeroDataTicks == if FoundNothing(inputs, states, n) then Nothing(inputs, states, n) + 1 else 0
  {
    hide Metrics.DataCoverage, CriticalFailure, InDanger, Watched, Confidence, Nothing, Stay, EntryTime;
    hide WarmupState.Timeout, WarmupState.MinConfidence, WarmupState.Index, LimitOf, GateOf, After;
    NoCoverage(inputs[n].snapshot.metrics);
    CriticalIsDanger(states[n].machine.state, inputs[n].snapshot);
    TablesAgree(states[n].machine.state);
  }

  /** In every running state of every run the counters are what happened. */
  lemma {:induction false} RunsCount(start: real, inputs: seq<Input>, states: seq<Warmup>, n: nat)
    requires IsWarmup(start, inputs, states) && n <= |inputs| && !states[n].machine.state.Terminal()
    ensures Counts(start, inputs, states, n)
  {
    hide Tick, VerdictOf, ConfidenceOf, LimitOf, GateOf;
    if n > 0 {
      assert states[n] == Tick(states[n - 1], inputs[n - 1].snapshot, inputs[n - 1].now);
      if states[n - 1].machine.state.Terminal() {
        TerminalStays(states[n - 1], inputs[n - 1]);
      } else {
        RunsCount(start, inputs, states, n - 1);
        TickDoes(start, inputs, states, n - 1);
        AfterIsNext(states[n - 1].machine.state);
      }
    }
  }

  lemma TerminalStays(w: Warmup, i: Input)
    requires w.machine.state.Terminal()
    ensures Tick(w, i.snapshot, i.now) == w
  {
  }

  lemma AfterIsNext(state: WarmupState)
    requires !state.Terminal()
    ensures After(state) != state && After(state) != Failed
  {
  }

  /** A run that failed did so at one tick, for the reason its last record gives, and stays failed. */
  lemma {:induction false} FailureHasReason(start: real, inputs: seq<Input>, states: seq<Warmup>, n: nat)
    returns (i: nat)
    requires IsWarmup(start, inputs, states) && n <= |inputs| && states[n].machine.state == Failed
    ensures i < n && !states[i].machine.state.Terminal() && VerdictOf(start, inputs, states, i).Fails?
    ensures states[n] == states[i + 1] && states[n].machine.history != []
    ensures var last := states[n].machine.history[|states[n].machine.history| - 1];
            last == StateRecord(Failed, inputs[i].now, None, Finite(0.0),
                                Some(VerdictOf(start, inputs, states, i).reason))
  {
    hide Tick, VerdictOf, ConfidenceOf, LimitOf, GateOf, Counts;
    assert n > 0;
    assert states[n] == Tick(states[n - 1], inputs[n - 1].snapshot, inputs[n - 1].now);
    if states[n - 1].machine.state.Terminal() {
      TerminalStays(states[n - 1], inputs[n - 1]);
      i := FailureHasReason(start, inputs, states, n - 1);
    } else {
      i := n - 1;
      RunsCount(start, inputs, states, i);
      TickDoes(start, inputs, states, i);
      AfterIsNext(states[i].machine.state);
    }
  }

  /** At every running state of every run: it fails, stays or goes on exactly as the inputs so far say. */
  lemma OutcomeOfTick(start: real, inputs: seq<Input>, states: seq<Warmup>, n: nat)
    requires IsWarmup(start, inputs, states) && n < |inputs| && !states[n].machine.state.Terminal()
    ensures var v, next := VerdictOf(start, inputs, states, n), states[n + 1].machine.state;
            && (v.Fails? <==> next == Failed) && (v.Stays? <==> next == states[n].machine.state)
            && (v.Advances? <==> next == After(states[n].machine.state))
  {
    hide Tick, VerdictOf, ConfidenceOf, LimitOf, GateOf, Counts;
    assert states[n + 1] == Tick(states[n], inputs[n].snapshot, inputs[n].now);
    RunsCount(start, inputs, states, n);
    TickDoes(start, inputs, states, n);
    AfterIsNext(states[n].machine.state);
  }

  /** What leaving the first three states takes, and the confidence that is recorded. */
  lemma FirstGates(w: Warmup, s: Snapshot)
    ensures var m, c := s.metrics, ConfidenceOf(w, s);
            match w.machine.state
            case Booting =>
              (Less(c, Finite(0.80)) <==> !m.hardLimitsOk) && c == Finite(if m.hardLimitsOk then 0.90 else 0.0)
            case FetchingMarketData =>
              && (Less(c, Finite(0.60)) <==> m.symbolsTotal <= 0 || 5 * m.symbolsReady < 3 * m.symbolsTotal)
              && (0 < m.symbolsTotal <= m.symbolsReady ==> c == Finite(1.0))
              && (0 < m.symbolsTotal && 5 * m.symbolsReady < 3 * m.symbolsTotal ==>
                    c.Finite? && 2.0 * c.r * m.symbolsTotal as real == m.symbolsReady as real)
            case BuildingFeatures => c == m.featureConfidence
            case _ => true
  {
    if w.machine.state == FetchingMarketData { CoverageReaches(s.metrics); }
    hide Metrics.DataCoverage;
    SameCoverage(s.metrics, MetricsOf(w, s));
  }

  lemma CoverageReaches(m: Metrics)
    ensures m.DataCoverage() >= 0.60 <==> m.symbolsTotal > 0 && 5 * m.symbolsReady >= 3 * m.symbolsTotal
    ensures 0 < m.symbolsTotal <= m.symbolsReady ==> m.DataCoverage() == 1.0
    ensures 0 < m.symbolsTotal && m.symbolsReady < m.symbolsTotal ==>
              m.DataCoverage() * m.symbolsTotal as real == m.symbolsReady as real
  {
    hide Metrics.DataCoverage;
    CoverageIs(m);
    if 0 < m.symbolsTotal && m.symbolsReady < m.symbolsTotal {
      Product(m.DataCoverage(), m.symbolsReady as real, m.symbolsTotal as real);
      InWholeNumbers(m.symbolsReady, m.symbolsTotal);
    }
  }

  lemma InWholeNumbers(ready: int, total: int)
    ensures ready as real >= 0.60 * total as real <==> 5 * ready >= 3 * total
  {
    assert 5.0 * ready as real == (5 * ready) as real && 3.0 * total as real == (3 * total) as real;
  }

  lemma Product(x: real, xz: real, z: real)
    requires z > 0.0 && x * z == xz
    ensures x >= 0.60 <==> xz >= 0.60 * z
  {
    var gap := x - 0.60;
    assert gap * z == xz - 0.60 * z;
    assert gap >= 0.0 <==> gap * z >= 0.0;
  }
}
