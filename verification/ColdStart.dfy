/**
 * Cold start: the manager that drives the state machine tick by tick, and what every sequence of
 * ticks keeps, whatever the snapshots and the clock.
 */
module ColdStart {
  import opened Prelude
  import opened Floats
  import opened WarmupMetrics
  import opened WarmupMachine
  import opened WarmupInvariants

  const MAX_ZERO_DATA := 10

  /** The score as it grows with the shadow ticks done. */
  function Progressive(score: Float, cycles: nat): Float { Scale(cycles as real / SHADOW_CYCLES as real, score) }

  /** How ready a state is to be left. */
  function Confidence(state: WarmupState, m: Metrics, window: seq<Metrics>): Float {
    match state
    case Booting => Finite(if m.hardLimitsOk then 0.90 else 0.0)
    case FetchingMarketData => Finite(if m.DataCoverage() >= 0.60 then m.DataCoverage() else m.DataCoverage() * 0.5)
    case BuildingFeatures => m.featureConfidence
    case StabilizingRegimes => Round4(Plus(Scale(0.6, m.regimeStability), Scale(0.4, Stability(window))))
    case ValidatingRisk =>
      var synced := if m.riskSync then m.Score() else Scale(0.5, m.Score());
      Round4(if m.probationConsistent then synced else Scale(0.7, synced))
    case ShadowMode =>
      if m.shadowCycles < SHADOW_CYCLES then Round4(Progressive(m.Score(), m.shadowCycles))
      else Round4(Average(window))
    case _ => m.Score()
  }

  /** A confidence at or above the threshold; no number never is. */
  predicate Reached(state: WarmupState, confidence: Float) { AtMost(Finite(state.MinConfidence()), confidence) }

  /** The state of the manager. */
  datatype Warmup = Warmup(machine: MachineState, window: seq<Metrics>, shadowCycles: nat, zeroDataTicks: nat)

  function Start(now: real): Warmup { Warmup(Initial(now), [], 0, 0) }

  /** Shadow ticks after this one. */
  function ShadowAfter(w: Warmup): nat {
    if w.machine.state == ShadowMode then w.shadowCycles + 1 else w.shadowCycles
  }

  function MetricsOf(w: Warmup, s: Snapshot): Metrics { s.metrics.(shadowCycles := ShadowAfter(w)) }

  function ZeroDataAfter(w: Warmup, s: Snapshot): nat {
    if w.machine.state == FetchingMarketData && s.metrics.DataCoverage() == 0.0 then w.zeroDataTicks + 1 else 0
  }

  /** The confidence of the tick that `s` would be. */
  function ConfidenceOf(w: Warmup, s: Snapshot): Float {
    Confidence(w.machine.state, MetricsOf(w, s), Pushed(w.window, MetricsOf(w, s)))
  }

  /** The machine after one tick. */
  function MachineAfter(w: Warmup, s: Snapshot, now: real): MachineState {
    if ZeroDataAfter(w, s) >= MAX_ZERO_DATA then FailWith(w.machine, NoMarketData, now)
    else if CriticalFailure(w.machine.state, s) then FailWith(w.machine, CriticalInvariant, now)
    else TryAdvanceWith(w.machine, ConfidenceOf(w, s), now)
  }

  /** One tick; in a terminal state nothing moves any more. */
  function Tick(w: Warmup, s: Snapshot, now: real): Warmup {
    if w.machine.state.Terminal() then w
    else Warmup(MachineAfter(w, s, now), Pushed(w.window, MetricsOf(w, s)), ShadowAfter(w), ZeroDataAfter(w, s))
  }

  /** The mutable manager; reports, tokens and alerts are left out. */
  class ColdStartManager {
    const machine: WarmupStateMachine
    const history: MetricsHistory
    var shadowCycles: nat
    var zeroDataTicks: nat

    function View(): Warmup
      reads this, machine, history
    {
      Warmup(machine.View(), history.records, shadowCycles, zeroDataTicks)
    }

    constructor (now: real)
      ensures View() == Start(now) && fresh(machine) && fresh(history)
    {
      machine := new WarmupStateMachine(now);
      history := new MetricsHistory();
      shadowCycles, zeroDataTicks := 0, 0;
    }

    /** Build the metrics, count, check the invariants, then try to advance. */
    method DoTick(s: Snapshot, now: real) returns (state: WarmupState)
      modifies this, machine, history
      ensures View() == Tick(old(View()), s, now)
      ensures state == machine.state
    {
      hide CriticalFailure, TryAdvanceWith, FailWith, Confidence, Pushed;
      if machine.state == LiveReady || machine.state == Failed { return machine.state; }
      var metrics := s.metrics.(shadowCycles := shadowCycles);
      if machine.state == ShadowMode {
        shadowCycles := shadowCycles + 1;
        metrics := metrics.(shadowCycles := shadowCycles);
      }
      history.Record(metrics);
      if machine.state == FetchingMarketData && metrics.DataCoverage() == 0.0 {
        zeroDataTicks := zeroDataTicks + 1;
        if zeroDataTicks >= MAX_ZERO_DATA {
          machine.Fail(NoMarketData, now);
          return machine.state;
        }
      } else {
        zeroDataTicks := 0;
      }
      var results, critical := Check(machine.state, s);
      if critical {
        machine.Fail(CriticalInvariant, now);
        return machine.state;
      }
      var confidence := Confidence(machine.state, metrics, history.records);
      machine.TryAdvance(confidence, now);
      return machine.state;
    }
  }

  // ---- runs ---------------------------------------------------------------------------------------

  /** What one tick is given, and when. */
  datatype Input = Input(snapshot: Snapshot, now: real)

  /** The states of a manager started at `start` and ticked with `inputs`. */
  ghost predicate IsWarmup(start: real, inputs: seq<Input>, states: seq<Warmup>) {
    && |states| == |inputs| + 1
    && states[0] == Start(start)
    && forall i {:trigger inputs[i]} | 0 <= i < |inputs| ::
         states[i + 1] == Tick(states[i], inputs[i].snapshot, inputs[i].now)
  }

  /** A run goes on with any input. */
  lemma OneMoreTick(start: real, inputs: seq<Input>, states: seq<Warmup>, i: Input)
    returns (inputs': seq<Input>, states': seq<Warmup>)
    requires IsWarmup(start, inputs, states)
    ensures inputs' == inputs + [i] && states' == states + [Tick(states[|inputs|], i.snapshot, i.now)]
    ensures IsWarmup(start, inputs', states')
  {
    hide Tick, Start;
    inputs', states' := inputs + [i], states + [Tick(states[|inputs|], i.snapshot, i.now)];
    forall k | 0 <= k < |inputs'|
      ensures states'[k + 1] == Tick(states'[k], inputs'[k].snapshot, inputs'[k].now)
    {
      if k < |inputs| { assert inputs'[k] == inputs[k]; }
    }
  }

  /** Ticks that can still follow. */
  function Remaining(m: MachineState): int {
    if m.state.Terminal() then 0 else (6 - m.state.Index()) * (MAX_STUCK + 1) - m.stuckCycles
  }

  predicate Bounded(m: MachineState) { m.stuckCycles <= MAX_STUCK || m.state == Failed }

  lemma TickDescends(w: Warmup, s: Snapshot, now: real)
    requires Bounded(w.machine) && !w.machine.state.Terminal()
    ensures Bounded(Tick(w, s, now).machine) && Remaining(Tick(w, s, now).machine) < Remaining(w.machine)
  {
    hide CriticalFailure, Confidence, Closed;
  }

  lemma {:induction false} RemainingFalls(start: real, inputs: seq<Input>, states: seq<Warmup>, n: nat)
    requires IsWarmup(start, inputs, states) && n <= |inputs|
    ensures Bounded(states[n].machine)
    ensures states[n].machine.state.Terminal() || Remaining(states[n].machine) <= 6 * (MAX_STUCK + 1) - n
  {
    if n > 0 {
      RemainingFalls(start, inputs, states, n - 1);
      var w, i := states[n - 1], inputs[n - 1];
      assert states[n] == Tick(w, i.snapshot, i.now);
      if !w.machine.state.Terminal() { TickDescends(w, i.snapshot, i.now); }
    }
  }

  /** Whatever the snapshots and the clock, the start is over after 186 ticks. */
  lemma WarmupTerminates(start: real, inputs: seq<Input>, states: seq<Warmup>)
    requires IsWarmup(start, inputs, states) && |inputs| >= 186
    ensures states[186].machine.state.Terminal()
  {
    RemainingFalls(start, inputs, states, 186);
  }

  /** The metrics of every tick. */
  function Recorded(inputs: seq<Input>, states: seq<Warmup>): seq<Metrics>
    requires |states| == |inputs| + 1
  {
    seq(|inputs|, i requires 0 <= i < |inputs| => MetricsOf(states[i], inputs[i].snapshot))
  }

  /** The last `WINDOW` of them, or all when there are fewer. */
  function Latest(all: seq<Metrics>): seq<Metrics> { if |all| > WINDOW then all[|all| - WINDOW..] else all }

  /** While the start is running, the window holds the metrics of the last five ticks, in their order. */
  lemma {:induction false} WindowIsLatest(start: real, inputs: seq<Input>, states: seq<Warmup>, n: nat)
    requires IsWarmup(start, inputs, states) && n <= |inputs|
    requires forall i | 0 <= i < n :: !states[i].machine.state.Terminal()
    ensures states[n].window == Latest(Recorded(inputs, states)[..n])
  {
    hide MachineAfter, MetricsOf, Pushed, Latest;
    var all := Recorded(inputs, states);
    if n == 0 {
      LatestOfNone();
    } else {
      WindowIsLatest(start, inputs, states, n - 1);
      var w, i := states[n - 1], inputs[n - 1];
      assert states[n] == Tick(w, i.snapshot, i.now);
      PushedLatest(all[..n - 1], MetricsOf(w, i.snapshot));
      assert all[..n] == all[..n - 1] + [MetricsOf(w, i.snapshot)];
    }
  }

  lemma LatestOfNone()
    ensures Latest([]) == []
  {
  }

  lemma PushedLatest(all: seq<Metrics>, m: Metrics)
    ensures Pushed(Latest(all), m) == Latest(all + [m])
  {
    if |all| >= WINDOW {
      assert (Latest(all) + [m])[1..] == (all + [m])[|all| + 1 - WINDOW..];
    }
  }

  // ---- gates --------------------------------------------------------------------------------------

  /** State `k` of the sequence was left by tick `i`, through its gate. */
  ghost predicate LeftAt(inputs: seq<Input>, states: seq<Warmup>, k: nat, i: int)
    requires k < 6 && |states| == |inputs| + 1
  {
    && 0 <= i < |inputs|
    && states[i].machine.state == SEQUENCE[k] && states[i + 1].machine.state == SEQUENCE[k + 1]
    && !Shut(SEQUENCE[k], ConfidenceOf(states[i], inputs[i].snapshot))
    && !CriticalFailure(SEQUENCE[k], inputs[i].snapshot)
    && !IsTimedOut(states[i].machine, inputs[i].now)
  }

  /** The ticks that left the states so far, in order. */
  ghost predicate Exits(inputs: seq<Input>, states: seq<Warmup>, n: nat, exits: seq<int>)
    requires |states| == |inputs| + 1 && n <= |inputs|
  {
    && |exits| <= 6
    && (forall k | 0 <= k < |exits| :: LeftAt(inputs, states, k, exits[k]) && exits[k] < n)
    && (forall k | 0 < k < |exits| :: exits[k - 1] < exits[k])
  }

  /** The closed records of a history that did not fail: the sequence, each left through its gate. */
  predicate RecordsPass(history: seq<StateRecord>, k: nat) {
    && |history| == k + 1 <= 7
    && (forall j | 0 <= j < k ::
          history[j].state == SEQUENCE[j] && !Shut(SEQUENCE[j], history[j].confidenceAtExit)
          && history[j].exitedAt.Some? && history[j].failure == None)
    && history[k].state == SEQUENCE[k]
  }

  /** Each closed record keeps the confidence of the tick that left its state. */
  ghost predicate RecordsKeep(inputs: seq<Input>, states: seq<Warmup>, history: seq<StateRecord>, exits: seq<int>)
    requires |states| == |inputs| + 1 && |exits| <= |history|
  {
    forall j | 0 <= j < |exits| ::
      && 0 <= exits[j] < |inputs|
      && history[j].confidenceAtExit == ConfidenceOf(states[exits[j]], inputs[exits[j]].snapshot)
  }

  /** The shadow counter counts the ticks since SHADOW_MODE was entered, until it was left. */
  predicate ShadowCounted(w: Warmup, n: nat, exits: seq<int>) {
    w.shadowCycles == if |exits| < 5 then 0 else if |exits| == 5 then n - exits[4] - 1 else exits[5] - exits[4]
  }

  /** What a state that is not FAILED says about the ticks so far. */
  ghost predicate Progressed(inputs: seq<Input>, states: seq<Warmup>, n: nat, exits: seq<int>)
    requires |states| == |inputs| + 1 && n <= |inputs|
  {
    && Exits(inputs, states, n, exits)
    && states[n].machine.state == SEQUENCE[|exits|]
    && RecordsPass(states[n].machine.history, |exits|)
    && RecordsKeep(inputs, states, states[n].machine.history, exits)
    && ShadowCounted(states[n], n, exits)
  }

  /** One tick that does not fail: the state stays, or its gate opens. */
  lemma TickMoves(w: Warmup, s: Snapshot, now: real)
    requires !w.machine.state.Terminal() && Tick(w, s, now).machine.state != Failed
    ensures var n := Tick(w, s, now);
            && n.shadowCycles == ShadowAfter(w)
            && if n.machine.state == w.machine.state then n.machine.history == w.machine.history
               else
                 && n.machine == AdvanceWith(w.machine, ConfidenceOf(w, s), now)
                 && !Shut(w.machine.state, ConfidenceOf(w, s))
                 && !CriticalFailure(w.machine.state, s) && !IsTimedOut(w.machine, now)
  {
    hide CriticalFailure, Confidence, Closed;
  }

  lemma {:induction false} WarmupProgress(start: real, inputs: seq<Input>, states: seq<Warmup>, n: nat)
    returns (exits: seq<int>)
    requires IsWarmup(start, inputs, states) && n <= |inputs| && states[n].machine.state != Failed
    ensures Progressed(inputs, states, n, exits)
  {
    hide Progressed, CriticalFailure, IsTimedOut, Shut, ConfidenceOf, MachineAfter, AdvanceWith;
    if n == 0 {
      exits := [];
      ProgressStarts(start, inputs, states);
    } else {
      var w, i := states[n - 1], inputs[n - 1];
      assert states[n] == Tick(w, i.snapshot, i.now);
      exits := WarmupProgress(start, inputs, states, n - 1);
      if w.machine.state.Terminal() {
        ProgressStays(inputs, states, n - 1, exits);
      } else {
        TickMoves(w, i.snapshot, i.now);
        exits := ProgressStep(inputs, states, n - 1, exits);
      }
    }
  }

  lemma ProgressStarts(start: real, inputs: seq<Input>, states: seq<Warmup>)
    requires IsWarmup(start, inputs, states)
    ensures Progressed(inputs, states, 0, [])
  {
  }

  lemma ProgressStays(inputs: seq<Input>, states: seq<Warmup>, n: nat, exits: seq<int>)
    requires |states| == |inputs| + 1 && n < |inputs| && Progressed(inputs, states, n, exits)
    requires states[n + 1] == states[n] && states[n].machine.state == LiveReady
    ensures Progressed(inputs, states, n + 1, exits)
  {
    hide RecordsPass, RecordsKeep, LeftAt;
  }

  lemma ProgressStep(inputs: seq<Input>, states: seq<Warmup>, n: nat, exits: seq<int>) returns (more: seq<int>)
    requires |states| == |inputs| + 1 && n < |inputs| && Progressed(inputs, states, n, exits)
    requires !states[n].machine.state.Terminal()
    requires var w, s, now := states[n], inputs[n].snapshot, inputs[n].now;
             && states[n + 1].shadowCycles == ShadowAfter(w)
             && if states[n + 1].machine.state == w.machine.state
                then states[n + 1].machine.history == w.machine.history
                else
                  && states[n + 1].machine == AdvanceWith(w.machine, ConfidenceOf(w, s), now)
                  && !Shut(w.machine.state, ConfidenceOf(w, s))
                  && !CriticalFailure(w.machine.state, s) && !IsTimedOut(w.machine, now)
    ensures Progressed(inputs, states, n + 1, more)
  {
    hide CriticalFailure, ConfidenceOf, IsTimedOut, Shut, RecordsPass, RecordsKeep, Closed, Exits;
    var w := states[n];
    var confidence := ConfidenceOf(w, inputs[n].snapshot);
    RoomForExit(inputs, states, n, exits);
    if states[n + 1].machine.state == w.machine.state {
      more := exits;
      MoreTicks(inputs, states, n, exits);
    } else {
      more := exits + [n];
      AdvanceRecords(w.machine, confidence, inputs[n].now, |exits|);
      OneMoreExit(inputs, states, n, exits);
      OneMoreRecord(inputs, states, n, w.machine.history, states[n + 1].machine.history, exits);
    }
  }

  lemma MoreTicks(inputs: seq<Input>, states: seq<Warmup>, n: nat, exits: seq<int>)
    requires |states| == |inputs| + 1 && n < |inputs| && Exits(inputs, states, n, exits)
    ensures Exits(inputs, states, n + 1, exits)
  {
    hide LeftAt;
  }

  /** A state that is not terminal leaves room for one more exit. */
  lemma RoomForExit(inputs: seq<Input>, states: seq<Warmup>, n: nat, exits: seq<int>)
    requires |states| == |inputs| + 1 && n < |inputs| && Progressed(inputs, states, n, exits)
    requires !states[n].machine.state.Terminal()
    ensures |exits| < 6 && states[n].machine.state.Index() == |exits|
  {
    hide LeftAt, RecordsPass, RecordsKeep;
  }

  lemma OneMoreExit(inputs: seq<Input>, states: seq<Warmup>, n: nat, exits: seq<int>)
    requires |states| == |inputs| + 1 && n < |inputs| && |exits| < 6 && Exits(inputs, states, n, exits)
    requires states[n].machine.state == SEQUENCE[|exits|] && states[n + 1].machine.state == SEQUENCE[|exits| + 1]
    requires !Shut(SEQUENCE[|exits|], ConfidenceOf(states[n], inputs[n].snapshot))
    requires !CriticalFailure(SEQUENCE[|exits|], inputs[n].snapshot) && !IsTimedOut(states[n].machine, inputs[n].now)
    ensures Exits(inputs, states, n + 1, exits + [n])
  {
    hide ConfidenceOf, Shut, CriticalFailure, IsTimedOut;
    assert LeftAt(inputs, states, |exits|, n);
    AppendExit(inputs, states, n, exits);
  }

  lemma AppendExit(inputs: seq<Input>, states: seq<Warmup>, n: nat, exits: seq<int>)
    requires |states| == |inputs| + 1 && n < |inputs| && |exits| < 6 && Exits(inputs, states, n, exits)
    requires LeftAt(inputs, states, |exits|, n)
    ensures Exits(inputs, states, n + 1, exits + [n])
  {
    hide LeftAt;
  }

  lemma OneMoreRecord(inputs: seq<Input>, states: seq<Warmup>, n: nat, before: seq<StateRecord>,
                      after: seq<StateRecord>, exits: seq<int>)
    requires |states| == |inputs| + 1 && n < |inputs| && |exits| < |before| && |exits| < |after|
    requires RecordsKeep(inputs, states, before, exits) && after[..|exits|] == before[..|exits|]
    requires after[|exits|].confidenceAtExit == ConfidenceOf(states[n], inputs[n].snapshot)
    ensures RecordsKeep(inputs, states, after, exits + [n])
  {
    hide ConfidenceOf;
    forall j | 0 <= j < |exits| ensures after[j] == before[j] { assert after[..|exits|][j] == before[..|exits|][j]; }
  }

  lemma AdvanceRecords(m: MachineState, confidence: Float, now: real, k: nat)
    requires k < 6 && m.state == SEQUENCE[k] && RecordsPass(m.history, k) && !Shut(m.state, confidence)
    ensures AdvanceWith(m, confidence, now).state == SEQUENCE[k + 1]
    ensures RecordsPass(AdvanceWith(m, confidence, now).history, k + 1)
    ensures var h := AdvanceWith(m, confidence, now).history;
            |h| == k + 2 && |m.history| == k + 1 && h[..k] == m.history[..k] && h[k].confidenceAtExit == confidence
  {
  }

  /** An open gate that was not reached was passed by what is no number. */
  lemma OpenGate(state: WarmupState, confidence: Float)
    requires !Shut(state, confidence)
    ensures Reached(state, confidence) <==> confidence != NotANumber
  {
  }

  /**
   * A confidence is no number exactly if it rests on a snapshot value that is none: the feature
   * confidence in BUILDING_FEATURES, the regime stability in STABILIZING_REGIMES.
   */
  lemma ConfidenceIsNumber(state: WarmupState, m: Metrics, window: seq<Metrics>)
    requires !state.Terminal() && (state == ShadowMode ==> m.shadowCycles >= 1)
    ensures Confidence(state, m, window) == NotANumber
            <==> (state == BuildingFeatures && m.featureConfidence == NotANumber)
                 || (state == StabilizingRegimes && m.regimeStability == NotANumber)
  {
    var k := ScoreIsRounded(m);
    StabilityIsFinite(window);
    AverageIsNumber(window);
    hide Metrics.Score, Stability, Average;
  }

  /** The gate of VALIDATING_RISK opens only with risk in sync, consistent probation and known positions. */
  lemma RiskGate(m: Metrics, window: seq<Metrics>)
    requires !Shut(ValidatingRisk, Confidence(ValidatingRisk, m, window))
    ensures m.riskSync && m.probationConsistent && m.hardLimitsOk && !m.positionsUnknown
    ensures AtMost(Finite(0.85), m.Score())
  {
    hide Round4, Metrics.Score;
    var k := ScoreIsRounded(m);
    DoubtScoresNothing(m);
    RiskRounds(m.Score(), k);
  }

  lemma DoubtScoresNothing(m: Metrics)
    ensures !m.hardLimitsOk || m.positionsUnknown ==> m.Score() == Finite(0.0)
  {
  }

  /** Neither half of a score, nor seven tenths of it, rounds to 0.85, and the score itself only from 0.85 on. */
  lemma RiskRounds(score: Float, k: int)
    requires score == MinusInfinity || (score == Finite(k as real / 10000.0) && k <= 10000)
    ensures Less(Round4(Scale(0.5, score)), Finite(0.85)) && Less(Round4(Scale(0.7, score)), Finite(0.85))
    ensures Less(Round4(Scale(0.7, Scale(0.5, score))), Finite(0.85))
    ensures !AtMost(Finite(0.85), score) ==> Less(Round4(score), Finite(0.85))
  {
    hide Nearest;
    if score.Finite? {
      RoundReaches(score.r, 8500);
      RoundReaches(0.5 * score.r, 8500);
      RoundReaches(0.7 * score.r, 8500);
      RoundReaches(0.7 * (0.5 * score.r), 8500);
      if k < 8500 { BelowThreshold(k); }
    }
  }

  lemma BelowThreshold(k: int)
    requires k < 8500
    ensures (k as real) / 10000.0 < 0.84995
  {
  }

  /** In SHADOW_MODE fewer than nine ticks never suffice, and nine exactly for a score of 0.9444 or more. */
  lemma ShadowGate(m: Metrics, window: seq<Metrics>)
    requires 1 <= m.shadowCycles < SHADOW_CYCLES
    ensures !Shut(ShadowMode, Confidence(ShadowMode, m, window))
            <==> m.shadowCycles == 9 && AtMost(Finite(0.9444), m.Score())
  {
    var k := ScoreIsRounded(m);
    hide Metrics.Score, Nearest;
    if m.Score().Finite? {
      RoundReaches(Progressive(m.Score(), m.shadowCycles).r, 8500);
      ProgressReaches(k, m.shadowCycles);
    } else {
      assert Progressive(m.Score(), m.shadowCycles) == MinusInfinity;
    }
  }

  lemma ProgressReaches(k: int, cycles: nat)
    requires k <= 10000 && cycles < SHADOW_CYCLES
    ensures Progressive(Finite(k as real / 10000.0), cycles).r >= 0.84995 <==> cycles == 9 && k >= 9444
  {
    var c: int := cycles;
    assert Progressive(Finite(k as real / 10000.0), cycles).r == (k * c) as real / 100000.0 by {
      assert (k * c) as real == k as real * c as real;
    }
    if c <= 8 { assert k * c <= 80000 by { if k <= 0 { assert k * c <= 0; } else { assert k * c <= 10000 * c; } } }
  }

  /** The confidence with which state `k` was left reached its threshold, unless it was no number. */
  lemma ExitReached(inputs: seq<Input>, states: seq<Warmup>, k: nat, i: int)
    requires k < 6 && |states| == |inputs| + 1 && LeftAt(inputs, states, k, i)
    ensures Reached(SEQUENCE[k], ConfidenceOf(states[i], inputs[i].snapshot))
            <==> (k == 2 ==> inputs[i].snapshot.metrics.featureConfidence != NotANumber)
                 && (k == 3 ==> inputs[i].snapshot.metrics.regimeStability != NotANumber)
  {
    var w, s := states[i], inputs[i].snapshot;
    var m := MetricsOf(w, s);
    hide Confidence, CriticalFailure, IsTimedOut, Shut, Reached;
    ConfidenceIsNumber(w.machine.state, m, Pushed(w.window, m));
    OpenGate(SEQUENCE[k], ConfidenceOf(w, s));
  }

  /**
   * LIVE_READY skips no gate: the six states were left one after the other, each through its gate and
   * with no critical invariant broken; the threshold was reached in all six exactly if the feature
   * confidence of the tick that left BUILDING_FEATURES and the regime stability of the tick that left
   * STABILIZING_REGIMES were numbers, and in the other four always; risk was in sync and probation
   * consistent at its gate; and SHADOW_MODE lasted nine ticks at least, nine only with a score of
   * 0.9444 or more.
   */
  lemma LiveReadySkipsNoGate(start: real, inputs: seq<Input>, states: seq<Warmup>, n: nat) returns (exits: seq<int>)
    requires IsWarmup(start, inputs, states) && n <= |inputs| && states[n].machine.state == LiveReady
    ensures |exits| == 6 && Exits(inputs, states, n, exits)
    ensures RecordsPass(states[n].machine.history, 6) && RecordsKeep(inputs, states, states[n].machine.history, exits)
    ensures forall k | 0 <= k < 6 && k != 2 && k != 3 ::
              Reached(SEQUENCE[k], states[n].machine.history[k].confidenceAtExit)
    ensures (forall k | 0 <= k < 6 :: Reached(SEQUENCE[k], states[n].machine.history[k].confidenceAtExit))
            <==> inputs[exits[2]].snapshot.metrics.featureConfidence != NotANumber
                 && inputs[exits[3]].snapshot.metrics.regimeStability != NotANumber
    ensures var risk := inputs[exits[4]].snapshot.metrics;
            risk.riskSync && risk.probationConsistent && risk.hardLimitsOk && !risk.positionsUnknown
    ensures exits[5] - exits[4] >= 9 && states[n].shadowCycles == exits[5] - exits[4]
    ensures exits[5] - exits[4] == 9 ==> AtMost(Finite(0.9444), inputs[exits[5]].snapshot.metrics.Score())
  {
    hide CriticalFailure, Tick, IsTimedOut, Metrics.Score, Shut, Reached, ConfidenceOf;
    exits := WarmupProgress(start, inputs, states, n);
    assert |exits| == 6;
    var history := states[n].machine.history;
    forall k | 0 <= k < 6
      ensures Reached(SEQUENCE[k], history[k].confidenceAtExit)
              <==> (k == 2 ==> inputs[exits[2]].snapshot.metrics.featureConfidence != NotANumber)
                   && (k == 3 ==> inputs[exits[3]].snapshot.metrics.regimeStability != NotANumber)
    {
      assert LeftAt(inputs, states, k, exits[k]);
      ExitReached(inputs, states, k, exits[k]);
    }
    assert Reached(SEQUENCE[2], history[2].confidenceAtExit)
           <==> inputs[exits[2]].snapshot.metrics.featureConfidence != NotANumber;
    assert Reached(SEQUENCE[3], history[3].confidenceAtExit)
           <==> inputs[exits[3]].snapshot.metrics.regimeStability != NotANumber;
    LastGates(start, inputs, states, n, exits);
  }

  /** What the gates of VALIDATING_RISK and SHADOW_MODE say of a run that became ready. */
  lemma LastGates(start: real, inputs: seq<Input>, states: seq<Warmup>, n: nat, exits: seq<int>)
    requires IsWarmup(start, inputs, states) && n <= |inputs| && |exits| == 6 && Progressed(inputs, states, n, exits)
    ensures LeftAt(inputs, states, 4, exits[4]) && LeftAt(inputs, states, 5, exits[5])
    ensures var risk := inputs[exits[4]].snapshot.metrics;
            risk.riskSync && risk.probationConsistent && risk.hardLimitsOk && !risk.positionsUnknown
    ensures exits[5] - exits[4] >= 9
    ensures exits[5] - exits[4] == 9 ==> AtMost(Finite(0.9444), inputs[exits[5]].snapshot.metrics.Score())
  {
    hide CriticalFailure, Tick, IsTimedOut, Metrics.Score;
    assert LeftAt(inputs, states, 4, exits[4]) && LeftAt(inputs, states, 5, exits[5]);
    var w, s := states[exits[4]], inputs[exits[4]].snapshot;
    RiskGate(MetricsOf(w, s), Pushed(w.window, MetricsOf(w, s)));
    var v, last := states[exits[5]], inputs[exits[5]].snapshot;
    ShadowAtExit(start, inputs, states, n, exits);
    if MetricsOf(v, last).shadowCycles < SHADOW_CYCLES {
      ShadowGate(MetricsOf(v, last), Pushed(v.window, MetricsOf(v, last)));
      SameScore(last.metrics, MetricsOf(v, last).shadowCycles);
    }
  }

  lemma SameScore(m: Metrics, cycles: nat)
    ensures m.(shadowCycles := cycles).Score() == m.Score()
  {
    var n := m.(shadowCycles := cycles);
    hide Round4, Min, Plus, Scale;
    assert n.DataCoverage() == m.DataCoverage();
    assert n.Solid() == m.Solid();
    assert n.Weighted() == m.Weighted();
  }

  /** The counter at the last shadow tick is the number of shadow ticks. */
  lemma ShadowAtExit(start: real, inputs: seq<Input>, states: seq<Warmup>, n: nat, exits: seq<int>)
    requires IsWarmup(start, inputs, states) && n <= |inputs| && |exits| == 6 && Progressed(inputs, states, n, exits)
    ensures MetricsOf(states[exits[5]], inputs[exits[5]].snapshot).shadowCycles == exits[5] - exits[4]
  {
    hide Tick, CriticalFailure, IsTimedOut, ConfidenceOf, RecordsPass;
    assert LeftAt(inputs, states, 5, exits[5]);
    var i := exits[5];
    assert states[i].machine.state == ShadowMode;
    var earlier := WarmupProgress(start, inputs, states, i);
    assert |earlier| == 5;
    SameExit(start, inputs, states, 4, exits[4], earlier[4]);
  }

  /** A state is left once. */
  lemma SameExit(start: real, inputs: seq<Input>, states: seq<Warmup>, k: nat, i: int, j: int)
    requires IsWarmup(start, inputs, states) && k < 6 && LeftAt(inputs, states, k, i) && LeftAt(inputs, states, k, j)
    ensures i == j
  {
    hide CriticalFailure, IsTimedOut, ConfidenceOf, Tick;
    if i < j { IndexGrows(start, inputs, states, i + 1, j); }
    if j < i { IndexGrows(start, inputs, states, j + 1, i); }
  }

  lemma {:induction false} IndexGrows(start: real, inputs: seq<Input>, states: seq<Warmup>, i: nat, j: nat)
    requires IsWarmup(start, inputs, states) && i <= j <= |inputs|
    ensures states[i].machine.state.Index() <= states[j].machine.state.Index()
    decreases j
  {
    if i < j {
      IndexGrows(start, inputs, states, i, j - 1);
      assert states[j] == Tick(states[j - 1], inputs[j - 1].snapshot, inputs[j - 1].now);
      TickGrows(states[j - 1], inputs[j - 1].snapshot, inputs[j - 1].now);
    }
  }

  lemma TickGrows(w: Warmup, s: Snapshot, now: real)
    ensures w.machine.state.Index() <= Tick(w, s, now).machine.state.Index()
  {
    hide CriticalFailure, Confidence, Closed;
  }

  /** A tick with data, without a broken invariant and in time: only the gate decides. */
  lemma QuietTick(w: Warmup, s: Snapshot, now: real)
    requires !w.machine.state.Terminal() && ZeroDataAfter(w, s) == 0
    requires !CriticalFailure(w.machine.state, s) && !IsTimedOut(w.machine, now)
    ensures var n := Tick(w, s, now);
            && n.window == Pushed(w.window, MetricsOf(w, s)) && n.shadowCycles == ShadowAfter(w) && n.zeroDataTicks == 0
            && (Shut(w.machine.state, ConfidenceOf(w, s)) && w.machine.stuckCycles < MAX_STUCK ==>
                  n.machine == w.machine.(stuckCycles := w.machine.stuckCycles + 1))
            && (!Shut(w.machine.state, ConfidenceOf(w, s)) ==>
                  n.machine.state == SEQUENCE[w.machine.state.Index() + 1] && n.machine.stuckCycles == 0
                  && n.machine.history != []
                  && n.machine.history[|n.machine.history| - 1] == Entered(n.machine.state, now))
  {
    hide CriticalFailure, ConfidenceOf, Pushed, Shut, Closed;
  }

  /** A tick that finds its gate open and does not fail leaves the state. */
  lemma ReachedGateOpens(w: Warmup, s: Snapshot, now: real)
    requires !w.machine.state.Terminal() && Tick(w, s, now).machine.state != Failed
    requires !Shut(w.machine.state, ConfidenceOf(w, s))
    ensures Tick(w, s, now).machine.state == SEQUENCE[w.machine.state.Index() + 1]
    ensures !CriticalFailure(w.machine.state, s) && !IsTimedOut(w.machine, now)
  {
    hide CriticalFailure, ConfidenceOf, Closed;
  }

  /** Inside SHADOW_MODE, the counter is the number of ticks since it was entered. */
  lemma InShadow(start: real, inputs: seq<Input>, states: seq<Warmup>, i: nat, entered: int, left: int)
    requires IsWarmup(start, inputs, states)
    requires LeftAt(inputs, states, 4, entered) && LeftAt(inputs, states, 5, left) && entered < i <= left
    ensures states[i].machine.state == ShadowMode && states[i].shadowCycles == i - entered - 1
  {
    hide CriticalFailure, IsTimedOut, ConfidenceOf, Tick, RecordsPass;
    IndexGrows(start, inputs, states, entered + 1, i);
    IndexGrows(start, inputs, states, i, left);
    var exits := WarmupProgress(start, inputs, states, i);
    assert |exits| == 5;
    SameExit(start, inputs, states, 4, exits[4], entered);
  }

  /**
   * The documented minimum of ten shadow ticks holds of a run that became ready exactly if the score
   * of its ninth shadow tick was below 0.9444.
   */
  lemma TenShadowTicksExactly(start: real, inputs: seq<Input>, states: seq<Warmup>, n: nat) returns (exits: seq<int>)
    requires IsWarmup(start, inputs, states) && n <= |inputs| && states[n].machine.state == LiveReady
    ensures |exits| == 6 && Exits(inputs, states, n, exits) && 0 <= exits[4] + 9 < |inputs|
    ensures exits[5] - exits[4] >= 10 <==> Less(inputs[exits[4] + 9].snapshot.metrics.Score(), Finite(0.9444))
  {
    hide CriticalFailure, Tick, IsTimedOut, Metrics.Score, ConfidenceOf, RecordsPass, RecordsKeep, Reached, Shut;
    exits := LiveReadySkipsNoGate(start, inputs, states, n);
    assert LeftAt(inputs, states, 4, exits[4]) && LeftAt(inputs, states, 5, exits[5]);
    var i := exits[4] + 9;
    var k := ScoreIsRounded(inputs[i].snapshot.metrics);
    if AtMost(Finite(0.9444), inputs[i].snapshot.metrics.Score()) {
      InShadow(start, inputs, states, i, exits[4], exits[5]);
      NinthTickOpens(start, inputs, states, n, i);
      SameExit(start, inputs, states, 5, i, exits[5]);
    }
  }

  lemma NinthTickOpens(start: real, inputs: seq<Input>, states: seq<Warmup>, n: nat, i: nat)
    requires IsWarmup(start, inputs, states) && i < n <= |inputs| && states[n].machine.state == LiveReady
    requires states[i].machine.state == ShadowMode && states[i].shadowCycles == 8
    requires AtMost(Finite(0.9444), inputs[i].snapshot.metrics.Score())
    ensures LeftAt(inputs, states, 5, i)
  {
    var w, s := states[i], inputs[i].snapshot;
    var m := MetricsOf(w, s);
    SameScore(s.metrics, m.shadowCycles);
    hide CriticalFailure, Tick, IsTimedOut, Metrics.Score;
    ShadowGate(m, Pushed(w.window, m));
    IndexGrows(start, inputs, states, i + 1, n);
    assert states[i + 1] == Tick(w, s, inputs[i].now);
    ReachedGateOpens(w, s, inputs[i].now);
  }

  // ---- two runs ------------------------------------------------------------------------------------

  /** A snapshot with nothing wrong, but for the two values that may be no number. */
  function Flawless(confidence: Float, stability: Float): Snapshot {
    Snapshot(Metrics(100, 100, confidence, stability, true, true, true, true, true, 0, false, 0),
             Some(Finite(1000.0)), true, true, Some(Finite(1.0)), Finite(0.0), ReadableDict, true, true, 0, true, {})
  }

  const PERFECT := Flawless(Finite(1.0), Finite(1.0))

  const PERFECT_METRICS := PERFECT.metrics

  /** Feature confidence and regime stability are no numbers. */
  const UNKNOWN := Flawless(NotANumber, NotANumber)

  /** Both score 1: a score that is no number is capped to it. */
  lemma PerfectScore(s: Snapshot, cycles: nat)
    requires s == PERFECT || s == UNKNOWN
    ensures s.metrics.(shadowCycles := cycles).Score() == Finite(1.0)
    ensures s.metrics.DataCoverage() == 1.0
  {
    var m := s.metrics.(shadowCycles := cycles);
    assert m.DataCoverage() == 1.0;
    assert m.Weighted() == if s == PERFECT then Finite(1.0) else NotANumber;
    assert Nearest(10000.0) == 10000;
  }

  predicate AllPerfect(window: seq<Metrics>) { forall i | 0 <= i < |window| :: window[i].Score() == Finite(1.0) }

  lemma PerfectStability(window: seq<Metrics>)
    requires AllPerfect(window) && |window| >= 2
    ensures Stability(window) == Finite(1.0)
  {
    hide Metrics.Score, Mean, Square, Stability;
    var scores := Scores(window);
    ConstantMean(scores, 1.0);
    NoGaps(scores, 1.0);
    ConstantMean(SquaredGaps(scores, Finite(1.0)), 0.0);
    StabilityOf(window, 0.0);
    assert Nearest(1000.0) == 1000;
  }

  lemma PerfectInvariants(state: WarmupState, s: Snapshot)
    requires s == PERFECT || s == UNKNOWN
    ensures !CriticalFailure(state, s)
  {
    assert forall i :: Evaluate(i, s).passed;
  }

  /** The manager after `n` perfect ticks at time 0. */
  predicate PerfectAt(w: Warmup, n: nat) {
    && n <= 14
    && w.machine.state == SEQUENCE[if n <= 5 then n else if n <= 13 then 5 else 6]
    && w.shadowCycles == (if n <= 5 then 0 else n - 5)
    && w.machine.stuckCycles == (if 5 <= n <= 13 then n - 5 else 0)
    && w.zeroDataTicks == 0
    && w.machine.history != []
    && w.machine.history[|w.machine.history| - 1] == Entered(w.machine.state, 0.0)
    && AllPerfect(w.window) && |w.window| == (if n <= WINDOW then n else WINDOW)
  }

  lemma PerfectWindow(w: Warmup, s: Snapshot, n: nat)
    requires (s == PERFECT || s == UNKNOWN) && PerfectAt(w, n) && n < 14
    ensures AllPerfect(Pushed(w.window, MetricsOf(w, s)))
    ensures |Pushed(w.window, MetricsOf(w, s))| == if n + 1 <= WINDOW then n + 1 else WINDOW
  {
    PerfectScore(s, ShadowAfter(w));
    hide Metrics.Score;
  }

  lemma PerfectGate(w: Warmup, s: Snapshot, n: nat)
    requires (s == PERFECT || s == UNKNOWN) && PerfectAt(w, n) && n < 14
    ensures !Shut(w.machine.state, ConfidenceOf(w, s)) <==> n <= 4 || n == 13
  {
    PerfectWindow(w, s, n);
    PerfectScore(s, ShadowAfter(w));
    var m, window := MetricsOf(w, s), Pushed(w.window, MetricsOf(w, s));
    assert m == s.metrics.(shadowCycles := ShadowAfter(w));
    hide Metrics.Score;
    if n == 1 {
      assert m.DataCoverage() == 1.0;
    } else if n == 3 {
      PerfectStability(window);
      assert Nearest(10000.0) == 10000;
    } else if n == 4 {
      assert Nearest(10000.0) == 10000;
    } else if n >= 5 {
      ShadowGate(m, window);
    }
  }

  lemma PerfectTick(w: Warmup, s: Snapshot, n: nat)
    requires (s == PERFECT || s == UNKNOWN) && PerfectAt(w, n) && n < 14
    ensures PerfectAt(Tick(w, s, 0.0), n + 1)
  {
    hide CriticalFailure, ConfidenceOf, AllPerfect, Pushed, Shut, Metrics.DataCoverage, Tick, Closed;
    PerfectWindow(w, s, n);
    PerfectGate(w, s, n);
    PerfectInvariants(w.machine.state, s);
    PerfectScore(s, 0);
    assert !IsTimedOut(w.machine, 0.0);
    assert ZeroDataAfter(w, s) == 0;
    QuietTick(w, s, 0.0);
  }

  lemma {:induction false} PerfectRun(s: Snapshot, n: nat) returns (inputs: seq<Input>, states: seq<Warmup>)
    requires (s == PERFECT || s == UNKNOWN) && n <= 14
    ensures |inputs| == n && IsWarmup(0.0, inputs, states) && PerfectAt(states[n], n)
    ensures forall i | 0 <= i < n :: inputs[i].snapshot == s
  {
    hide Tick, PerfectAt, Start, Flawless;
    if n == 0 {
      inputs, states := [], [Start(0.0)];
      PerfectStarts();
    } else {
      inputs, states := PerfectRun(s, n - 1);
      PerfectTick(states[n - 1], s, n - 1);
      inputs, states := OneMoreTick(0.0, inputs, states, Input(s, 0.0));
    }
  }

  lemma PerfectStarts()
    ensures PerfectAt(Start(0.0), 0)
  {
  }

  lemma PerfectEnd(w: Warmup)
    requires PerfectAt(w, 14)
    ensures w.machine.state == LiveReady && w.shadowCycles == 9
  {
  }

  /**
   * Ten shadow ticks are documented as the minimum, but nine can do: a run of perfect snapshots is
   * ready after them, while the metrics' own condition is still false.
   */
  lemma NineShadowTicksCanSuffice() returns (inputs: seq<Input>, states: seq<Warmup>)
    ensures |inputs| == 14 && IsWarmup(0.0, inputs, states)
    ensures states[14].machine.state == LiveReady && states[14].shadowCycles == 9
    ensures !MetricsOf(states[13], inputs[13].snapshot).LiveReady()
  {
    hide Tick, PerfectAt, MetricsOf, Exits, RecordsPass, RecordsKeep, Reached, Metrics.Score, Metrics.LiveReady;
    inputs, states := PerfectRun(PERFECT, 14);
    PerfectEnd(states[14]);
    var exits := LiveReadySkipsNoGate(0.0, inputs, states, 14);
    ShadowGrows(states[13], inputs[13]);
    assert states[14] == Tick(states[13], inputs[13].snapshot, inputs[13].now);
  }

  /**
   * BUILDING_FEATURES and STABILIZING_REGIMES have thresholds of 0.70 and 0.75, but a run in which
   * neither value is ever a number is ready, with neither threshold reached and a score of 1 throughout.
   */
  lemma UnknownValuesPassTheGates() returns (inputs: seq<Input>, states: seq<Warmup>)
    ensures |inputs| == 14 && IsWarmup(0.0, inputs, states)
    ensures forall i | 0 <= i < 14 ::
              var m := inputs[i].snapshot.metrics;
              m.featureConfidence == m.regimeStability == NotANumber && m.Score() == Finite(1.0)
    ensures states[14].machine.state == LiveReady && RecordsPass(states[14].machine.history, 6)
    ensures forall k | 0 <= k < 6 ::
              Reached(SEQUENCE[k], states[14].machine.history[k].confidenceAtExit) <==> k != 2 && k != 3
  {
    PerfectScore(UNKNOWN, 0);
    assert UNKNOWN.metrics.(shadowCycles := 0) == UNKNOWN.metrics;
    inputs, states := PerfectRun(UNKNOWN, 14);
    hide Tick, Metrics.Score, Shut, Reached, ConfidenceOf, CriticalFailure, IsTimedOut;
    var exits := LiveReadySkipsNoGate(0.0, inputs, states, 14);
    var history := states[14].machine.history;
    assert LeftAt(inputs, states, 2, exits[2]) && LeftAt(inputs, states, 3, exits[3]);
    ExitReached(inputs, states, 2, exits[2]);
    ExitReached(inputs, states, 3, exits[3]);
  }

  lemma ShadowGrows(w: Warmup, i: Input)
    ensures MetricsOf(w, i.snapshot).shadowCycles == ShadowAfter(w)
    ensures !w.machine.state.Terminal() ==> Tick(w, i.snapshot, i.now).shadowCycles == ShadowAfter(w)
    ensures w.machine.state.Terminal() ==> Tick(w, i.snapshot, i.now).shadowCycles == w.shadowCycles
    ensures MetricsOf(w, i.snapshot).shadowCycles < SHADOW_CYCLES ==> !MetricsOf(w, i.snapshot).LiveReady()
  {
  }
}
