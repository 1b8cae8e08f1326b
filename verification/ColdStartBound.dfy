/** Cold start: the bound of 186 ticks is reached, by snapshots that pass every gate at the last moment. */
module ColdStartBound {
  import opened Prelude
  import opened Floats
  import opened WarmupMetrics
  import opened WarmupMachine
  import opened WarmupInvariants
  import opened ColdStart

  const TICKS := MAX_STUCK + 1

  /** Metrics that do not open the gate of the `k`-th state. */
  function SlowMetrics(k: nat): Metrics {
    if k == 0 then PERFECT_METRICS.(hardLimitsOk := false)
    else if k == 1 then PERFECT_METRICS.(symbolsReady := 10)
    else if k == 2 then PERFECT_METRICS.(featureConfidence := Finite(0.0))
    else if k == 4 then PERFECT_METRICS.(riskSync := false)
    else PERFECT_METRICS.(regimeStability := Finite(0.0))
  }

  /** Snapshot number `n`: thirty that keep the state, then one that leaves it. */
  function SlowSnapshot(n: nat): Snapshot {
    if n % TICKS == MAX_STUCK then PERFECT else PERFECT.(metrics := SlowMetrics(n / TICKS))
  }

  /** The scores at the end of the window, since the state was entered. */
  predicate RecentScores(window: seq<Metrics>, count: nat, score: real) {
    count <= |window| && forall i | |window| - count <= i < |window| :: window[i].Score() == Finite(score)
  }

  function Recent(s: nat): nat { if s < WINDOW then s else WINDOW }

  predicate Weak(k: nat) { k == 3 || k == 5 }

  /** The manager after `n` slow ticks at time 0. */
  predicate SlowAt(w: Warmup, n: nat) {
    var k, s := n / TICKS, n % TICKS;
    && k <= 5
    && w.machine.state == SEQUENCE[k] && w.machine.stuckCycles == s
    && w.shadowCycles == (if k == 5 then s else 0) && w.zeroDataTicks == 0
    && w.machine.history != []
    && w.machine.history[|w.machine.history| - 1] == Entered(w.machine.state, 0.0)
    && |w.window| == Recent(n)
    && (Weak(k) ==> RecentScores(w.window, Recent(s), 0.8))
  }

  lemma WeakScore(cycles: nat)
    ensures PERFECT_METRICS.(regimeStability := Finite(0.0), shadowCycles := cycles).Score() == Finite(0.8)
  {
    var m := PERFECT_METRICS.(regimeStability := Finite(0.0), shadowCycles := cycles);
    assert m.DataCoverage() == 1.0;
    assert m.Weighted() == Finite(0.8);
    assert Nearest(8000.0) == 8000;
  }

  /** One more record shifts the window. */
  lemma PushedRecent(window: seq<Metrics>, m: Metrics, n: nat, s: nat, score: real)
    requires |window| == Recent(n) && s <= n
    ensures |Pushed(window, m)| == Recent(n + 1) && Pushed(window, m)[Recent(n + 1) - 1] == m
    ensures RecentScores(window, Recent(s), score) && m.Score() == Finite(score) ==>
              RecentScores(Pushed(window, m), Recent(s + 1), score)
    ensures RecentScores(window, Recent(s), score) && s >= WINDOW ==>
              forall i | 0 <= i < WINDOW - 1 :: Pushed(window, m)[i].Score() == Finite(score)
  {
    hide Metrics.Score;
  }

  /** Four scores of 0.8 and one of 1: stable enough to leave STABILIZING_REGIMES. */
  lemma LateStability(window: seq<Metrics>)
    requires |window| == WINDOW && (forall i | 0 <= i < 4 :: window[i].Score() == Finite(0.8))
    requires window[4].Score() == Finite(1.0)
    ensures Stability(window) == Finite(0.936)
  {
    hide Metrics.Score;
    var scores := Scores(window);
    ConstantSum(scores[..4], 0.8);
    assert Sum(scores) == Finite(4.2);
    assert Mean(scores) == Finite(0.84);
    var gaps := SquaredGaps(scores, Finite(0.84));
    ConstantSum(gaps[..4], 0.0016);
    assert gaps[4] == Finite(0.0256);
    assert Sum(gaps) == Finite(0.032);
    assert Mean(gaps) == Finite(0.0064);
    assert Nearest(936.0) == 936;
  }

  lemma WeakAverage(window: seq<Metrics>)
    requires |window| == WINDOW && RecentScores(window, WINDOW, 0.8)
    ensures Average(window) == Finite(0.8)
  {
    hide Metrics.Score;
    ConstantMean(Scores(window), 0.8);
    assert Nearest(8000.0) == 8000;
  }

  /** Slow metrics with the shadow counter of their tick. */
  function Counted(k: nat, cycles: nat): Metrics { SlowMetrics(k).(shadowCycles := cycles) }

  lemma EarlyIsShut(k: nat, cycles: nat, window: seq<Metrics>)
    requires k <= 2
    ensures Shut(SEQUENCE[k], Confidence(SEQUENCE[k], Counted(k, cycles), window))
  {
    if k == 1 { assert Counted(k, cycles).DataCoverage() == 0.1; }
  }

  lemma RegimesAreShut(cycles: nat, window: seq<Metrics>)
    ensures Shut(StabilizingRegimes, Confidence(StabilizingRegimes, Counted(3, cycles), window))
  {
    hide Metrics.Score, Stability, Average, Nearest;
    StabilityIsFinite(window);
    RoundReaches(0.4 * Stability(window).r, 7500);
  }

  lemma RiskIsShut(cycles: nat, window: seq<Metrics>)
    ensures Shut(ValidatingRisk, Confidence(ValidatingRisk, Counted(4, cycles), window))
  {
    hide Metrics.Score, Stability, Average, Round4;
    var c := ScoreIsRounded(Counted(4, cycles));
    RiskRounds(Counted(4, cycles).Score(), c);
  }

  lemma ShadowIsShut(cycles: nat, window: seq<Metrics>)
    requires cycles >= 1 && (cycles >= SHADOW_CYCLES ==> Average(window) == Finite(0.8))
    ensures Shut(ShadowMode, Confidence(ShadowMode, Counted(5, cycles), window))
  {
    hide Metrics.Score, Stability, Average, Nearest;
    WeakScore(cycles);
    if cycles < SHADOW_CYCLES { ShadowGate(Counted(5, cycles), window); } else { RoundReaches(0.8, 8500); }
  }

  /** A slow snapshot keeps its state. */
  lemma SlowConfidence(k: nat, cycles: nat, window: seq<Metrics>)
    requires k <= 5
    requires k == 5 ==> cycles >= 1 && (cycles >= SHADOW_CYCLES ==> Average(window) == Finite(0.8))
    ensures Shut(SEQUENCE[k], Confidence(SEQUENCE[k], Counted(k, cycles), window))
  {
    hide Confidence, Counted, Shut;
    if k <= 2 {
      EarlyIsShut(k, cycles, window);
    } else if k == 3 {
      RegimesAreShut(cycles, window);
    } else if k == 4 {
      RiskIsShut(cycles, window);
    } else {
      ShadowIsShut(cycles, window);
    }
  }

  /** A perfect snapshot leaves each of the first five states. */
  lemma FastConfidence(k: nat, window: seq<Metrics>)
    requires k <= 4
    requires k == 3 ==> Stability(window) == Finite(0.936)
    ensures !Shut(SEQUENCE[k], Confidence(SEQUENCE[k], PERFECT_METRICS, window))
  {
    PerfectScore(PERFECT, 0);
    assert PERFECT_METRICS.(shadowCycles := 0) == PERFECT_METRICS;
    hide Metrics.Score, Stability;
    if k == 1 {
      assert PERFECT_METRICS.DataCoverage() == 1.0;
    } else if k == 3 {
      assert Nearest(9744.0) == 9744;
    } else if k == 4 {
      assert Nearest(10000.0) == 10000;
    }
  }

  lemma SlowInvariants(k: nat)
    requires k <= 5
    ensures !CriticalFailure(SEQUENCE[k], PERFECT.(metrics := SlowMetrics(k)))
    ensures PERFECT.(metrics := SlowMetrics(k)).metrics.DataCoverage() != 0.0
  {
    var s := PERFECT.(metrics := SlowMetrics(k));
    assert forall i :: i != HardLimitsNotBreached ==> Evaluate(i, s).passed;
    assert k != 0 ==> Evaluate(HardLimitsNotBreached, s).passed;
  }

  /** Thirty ticks in one state. */
  lemma SlowTick(w: Warmup, n: nat)
    requires SlowAt(w, n) && n < 185 && n % TICKS < MAX_STUCK
    ensures SlowAt(Tick(w, SlowSnapshot(n), 0.0), n + 1)
  {
    hide CriticalFailure, Pushed, Confidence, SlowMetrics, Metrics.DataCoverage, RecentScores, Tick, Shut;
    var k, s := n / TICKS, n % TICKS;
    Division(n);
    var snapshot := SlowSnapshot(n);
    var m := MetricsOf(w, snapshot);
    assert m == Counted(k, ShadowAfter(w));
    SlowWindow(w, n);
    SlowInvariants(k);
    SlowConfidence(k, ShadowAfter(w), Pushed(w.window, m));
    assert !IsTimedOut(w.machine, 0.0);
    assert ZeroDataAfter(w, snapshot) == 0;
    QuietTick(w, snapshot, 0.0);
  }

  lemma Division(n: nat)
    ensures n % TICKS < MAX_STUCK ==> (n + 1) / TICKS == n / TICKS && (n + 1) % TICKS == n % TICKS + 1
    ensures n % TICKS == MAX_STUCK ==> (n + 1) / TICKS == n / TICKS + 1 && (n + 1) % TICKS == 0
  {
  }

  lemma SlowWindow(w: Warmup, n: nat)
    requires SlowAt(w, n) && n % TICKS < MAX_STUCK
    ensures var k, s, window := n / TICKS, n % TICKS, Pushed(w.window, Counted(n / TICKS, ShadowAfter(w)));
            && |window| == Recent(n + 1)
            && (Weak(k) ==> RecentScores(window, Recent(s + 1), 0.8))
            && (k == 5 && ShadowAfter(w) >= SHADOW_CYCLES ==> Average(window) == Finite(0.8))
  {
    var k, s := n / TICKS, n % TICKS;
    var m := Counted(k, ShadowAfter(w));
    PushedRecent(w.window, m, n, s, 0.8);
    if Weak(k) {
      WeakScore(ShadowAfter(w));
      assert m == PERFECT_METRICS.(regimeStability := Finite(0.0), shadowCycles := ShadowAfter(w));
      hide Metrics.Score;
      if k == 5 && ShadowAfter(w) >= SHADOW_CYCLES { WeakAverage(Pushed(w.window, m)); }
    }
  }

  /** The tick that leaves the state. */
  lemma FastTick(w: Warmup, n: nat)
    requires SlowAt(w, n) && n < 185 && n % TICKS == MAX_STUCK
    ensures SlowAt(Tick(w, SlowSnapshot(n), 0.0), n + 1)
  {
    hide CriticalFailure, Pushed, Confidence, Stability, Metrics.DataCoverage, Metrics.Score, Tick, Shut;
    var k := n / TICKS;
    Division(n);
    assert k <= 4;
    var m := MetricsOf(w, PERFECT);
    assert m == PERFECT_METRICS;
    PushedRecent(w.window, m, n, MAX_STUCK, 0.8);
    var window := Pushed(w.window, m);
    PerfectScore(PERFECT, 0);
    if k == 3 {
      assert PERFECT_METRICS.(shadowCycles := 0) == PERFECT_METRICS;
      LateStability(window);
    }
    PerfectInvariants(w.machine.state, PERFECT);
    FastConfidence(k, window);
    assert !IsTimedOut(w.machine, 0.0);
    assert ZeroDataAfter(w, PERFECT) == 0;
    assert RecentScores(window, 0, 0.8);
    QuietTick(w, PERFECT, 0.0);
  }

  lemma {:induction false} SlowRun(n: nat) returns (inputs: seq<Input>, states: seq<Warmup>)
    requires n <= 185
    ensures |inputs| == n && IsWarmup(0.0, inputs, states) && SlowAt(states[n], n)
  {
    hide Tick, SlowAt, Start, SlowSnapshot;
    if n == 0 {
      inputs, states := [], [Start(0.0)];
      SlowStarts();
    } else {
      inputs, states := SlowRun(n - 1);
      if (n - 1) % TICKS < MAX_STUCK { SlowTick(states[n - 1], n - 1); } else { FastTick(states[n - 1], n - 1); }
      inputs, states := OneMoreTick(0.0, inputs, states, Input(SlowSnapshot(n - 1), 0.0));
    }
  }

  lemma SlowStarts()
    ensures SlowAt(Start(0.0), 0)
  {
  }

  /** After 185 ticks the protocol may still be running, so 186 is the exact bound. */
  lemma BoundIsReached() returns (inputs: seq<Input>, states: seq<Warmup>)
    ensures |inputs| == 185 && IsWarmup(0.0, inputs, states)
    ensures !states[185].machine.state.Terminal()
  {
    inputs, states := SlowRun(185);
  }
}
