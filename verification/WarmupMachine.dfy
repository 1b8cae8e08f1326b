/** Cold start: the linear state machine with its thresholds, timeouts and stuck counter. */
module WarmupMachine {
  import opened Prelude
  import opened Floats

  /** Ticks without progress that are still tolerated in one state. */
  const MAX_STUCK := 30

  datatype WarmupState =
    | Booting
    | FetchingMarketData
    | BuildingFeatures
    | StabilizingRegimes
    | ValidatingRisk
    | ShadowMode
    | LiveReady
    | Failed
  {
    predicate Terminal() { LiveReady? || Failed? }

    /** Position in the order of progress; FAILED stands outside of it. */
    function Index(): nat {
      match this
      case Booting => 0
      case FetchingMarketData => 1
      case BuildingFeatures => 2
      case StabilizingRegimes => 3
      case ValidatingRisk => 4
      case ShadowMode => 5
      case LiveReady => 6
      case Failed => 7
    }

    function Timeout(): real {
      match this
      case Booting => 30.0
      case FetchingMarketData => 120.0
      case BuildingFeatures => 180.0
      case StabilizingRegimes => 600.0
      case ValidatingRisk => 120.0
      case ShadowMode => 300.0
      case LiveReady => 0.0
      case Failed => 0.0
    }

    function MinConfidence(): real {
      match this
      case Booting => 0.80
      case FetchingMarketData => 0.60
      case BuildingFeatures => 0.70
      case StabilizingRegimes => 0.75
      case ValidatingRisk => 0.85
      case ShadowMode => 0.85
      case LiveReady => 1.0
      case Failed => 0.0
    }
  }

  const SEQUENCE: seq<WarmupState> :=
    [Booting, FetchingMarketData, BuildingFeatures, StabilizingRegimes, ValidatingRisk, ShadowMode, LiveReady]

  /** Why a state was left for FAILED. */
  datatype Reason = TimedOut | Looping | NoMarketData | CriticalInvariant

  /** One stay in a state; the last of the history is still open. */
  datatype StateRecord = StateRecord(
    state: WarmupState,
    enteredAt: real,
    exitedAt: Option<real>,
    confidenceAtExit: Float,
    failure: Option<Reason>)

  function Entered(state: WarmupState, now: real): StateRecord { StateRecord(state, now, None, Finite(0.0), None) }

  datatype MachineState = MachineState(
    state: WarmupState,
    history: seq<StateRecord>,
    consecutiveFailures: nat,
    stuckCycles: nat)

  function Initial(now: real): MachineState { MachineState(Booting, [Entered(Booting, now)], 0, 0) }

  /** The history with its last record closed. */
  function Closed(history: seq<StateRecord>, now: real, confidence: Float, failure: Option<Reason>): seq<StateRecord> {
    if history == [] then []
    else
      var n := |history| - 1;
      history[..n] + [history[n].(exitedAt := Some(now), confidenceAtExit := confidence, failure := failure)]
  }

  function TimeInState(m: MachineState, now: real): real {
    if m.history == [] then 0.0
    else
      var last := m.history[|m.history| - 1];
      (if last.exitedAt.Some? then last.exitedAt.value else now) - last.enteredAt
  }

  predicate IsTimedOut(m: MachineState, now: real) {
    m.state.Timeout() > 0.0 && TimeInState(m, now) > m.state.Timeout()
  }

  function FailWith(m: MachineState, reason: Reason, now: real): MachineState {
    MachineState(Failed,
                 Closed(m.history, now, Finite(0.0), Some(reason)) + [Entered(Failed, now).(failure := Some(reason))],
                 m.consecutiveFailures + 1, m.stuckCycles)
  }

  function AdvanceWith(m: MachineState, confidence: Float, now: real): MachineState
    requires !m.state.Terminal()
  {
    var next := SEQUENCE[m.state.Index() + 1];
    MachineState(next, Closed(m.history, now, confidence, None) + [Entered(next, now)], 0, 0)
  }

  /** The gate as it is written: it is shut only by a confidence that compares below the threshold. */
  predicate Shut(state: WarmupState, confidence: Float) { Less(confidence, Finite(state.MinConfidence())) }

  function TryAdvanceWith(m: MachineState, confidence: Float, now: real): MachineState {
    if m.state.Terminal() then m
    else if IsTimedOut(m, now) then FailWith(m, TimedOut, now)
    else if Shut(m.state, confidence) then
      var stuck := m.(stuckCycles := m.stuckCycles + 1);
      if stuck.stuckCycles > MAX_STUCK then FailWith(stuck, Looping, now) else stuck
    else AdvanceWith(m, confidence, now)
  }

  /** The mutable machine; saving to disk and logging are left out. */
  class WarmupStateMachine {
    var state: WarmupState
    var history: seq<StateRecord>
    var consecutiveFailures: nat
    var stuckCycles: nat

    function View(): MachineState
      reads this
    {
      MachineState(state, history, consecutiveFailures, stuckCycles)
    }

    constructor (now: real)
      ensures View() == Initial(now)
    {
      state, consecutiveFailures, stuckCycles := Booting, 0, 0;
      history := [Entered(Booting, now)];
    }

    method ExitCurrent(confidence: Float, failure: Option<Reason>, now: real)
      modifies `history
      ensures history == Closed(old(history), now, confidence, failure)
    {
      if history != [] {
        var n := |history| - 1;
        var last := history[n].(exitedAt := Some(now), confidenceAtExit := confidence, failure := failure);
        history := history[..n] + [last];
      }
    }

    method Fail(reason: Reason, now: real)
      modifies this
      ensures View() == FailWith(old(View()), reason, now)
    {
      consecutiveFailures := consecutiveFailures + 1;
      ExitCurrent(Finite(0.0), Some(reason), now);
      state := Failed;
      history := history + [StateRecord(Failed, now, None, Finite(0.0), Some(reason))];
    }

    method Advance(confidence: Float, now: real)
      requires !state.Terminal()
      modifies this
      ensures View() == AdvanceWith(old(View()), confidence, now)
    {
      var next := SEQUENCE[state.Index() + 1];
      ExitCurrent(confidence, None, now);
      state := next;
      stuckCycles := 0;
      history := history + [Entered(next, now)];
      consecutiveFailures := 0;
    }

    method TryAdvance(confidence: Float, now: real)
      modifies this
      ensures View() == TryAdvanceWith(old(View()), confidence, now)
    {
      if state == LiveReady || state == Failed { return; }
      if IsTimedOut(View(), now) {
        Fail(TimedOut, now);
        return;
      }
      if Less(confidence, Finite(state.MinConfidence())) {
        stuckCycles := stuckCycles + 1;
        if stuckCycles > MAX_STUCK { Fail(Looping, now); }
        return;
      }
      Advance(confidence, now);
    }
  }
}
