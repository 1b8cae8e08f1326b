/**
 * The reserve: no log the reader accepts is longer than 64 lines, 64 is reached, and an
 * unfinished operation can be closed and set aside within them from every reachable state.
 */
module OplogReserve {
  import opened Prelude
  import opened Oplog
  import opened OplogRuns
  import opened OplogSafety

  /** Ordinary reserve lines spent so far. */
  function Spent(c: Counts): nat {
    Count(c, Terminated) + Count(c, FailedConsumed) + Count(c, Abandoned) + Count(c, SetAsideBegin)
    + Count(c, SetAsideDone)
  }

  /** No event is counted more often than the reserve allows. */
  ghost predicate WithinReserve(c: Counts) {
    forall event :: Count(c, event) <= if event == TornTailAcknowledged then 2 else 1
  }

  /** The position is covered by the 56 ordinary lines and the counted ones. */
  predicate Covered(rs: RunState) {
    && rs.position <= RESERVE_AFTER + Spent(rs.counts) + 2 * Count(rs.counts, TornTailAcknowledged)
    && (rs.counts != map[] ==> rs.position > RESERVE_AFTER)
  }

  /** Counted events are still visible in the state, since no PREPARED is accepted in the reserve. */
  predicate Remembered(c: Counts, m: State) {
    && (Count(c, Terminated) > 0 ==> m.mode == Terminating || m.terminal.Some?)
    && (Count(c, Abandoned) > 0 ==> m.terminal == Some(Abandoned))
    && (Count(c, FailedConsumed) > 0 || Count(c, SetAsideBegin) > 0 || Count(c, SetAsideDone) > 0 ==>
          m.terminal == Some(FailedConsumed))
    && (Count(c, SetAsideBegin) > 0 ==> m.mode != TerminalClaim)
    && (Count(c, SetAsideDone) > 0 ==> m.mode == ClearedTerminal)
  }

  ghost predicate ReserveInv(rs: RunState) {
    WithinReserve(rs.counts) && Covered(rs) && Remembered(rs.counts, rs.machine)
  }

  /** How entries treat a terminal claim: PREPARED aside, none is withdrawn. */
  ghost predicate TerminalEffect(m: State, e: Entry, n: State) {
    && (m.terminal.Some? ==> n.terminal == m.terminal)
    && (e.event == Terminated ==> n.mode == Terminating)
    && (e.event == Abandoned ==> n.terminal == Some(Abandoned))
    && (e.event == FailedConsumed ==> n.terminal == Some(FailedConsumed))
    && (e.event == SetAsideBegin || e.event == SetAsideDone ==>
         m.terminal == Some(FailedConsumed) && n.mode != TerminalClaim)
    && (m.mode == Terminating ==> n.mode == Terminating || n.terminal.Some?)
    && (m.terminal.Some? && n.mode == TerminalClaim ==> m.mode == TerminalClaim)
    && (m.mode == ClearedTerminal || e.event == SetAsideDone ==> n.mode == ClearedTerminal)
  }

  lemma CloseTerminal(m: State, e: Entry)
    requires Inv(m) && Closes(e.event) && e.step.Some? && (e.event == InterruptedRecovered ==> e.data.ResultData?)
    requires ApplyClose(m, e).Some?
    ensures TerminalEffect(m, e, ApplyClose(m, e).value)
  {
  }

  lemma EndTerminal(env: Env, m: State, e: Entry)
    requires Inv(m) && m.bound.Some? && Ends(e.event) && (e.event == Committed ==> e.data.DigestData?)
    requires ApplyEnd(env, m, e).Some?
    ensures TerminalEffect(m, e, ApplyEnd(env, m, e).value)
  {
  }

  lemma RepairTerminal(m: State, e: Entry)
    requires Inv(m) && ApplyRepair(m, e).Some? && !Closes(e.event) && !Ends(e.event)
    ensures TerminalEffect(m, e, ApplyRepair(m, e).value)
  {
  }

  lemma StepTerminal(env: Env, m: State, e: Entry)
    requires Inv(m) && m.bound.Some? && ValidEntry(env, e) && ApplyStep(env, m, e).Some?
    requires e.event != Prepared && e.event != TornTailAcknowledged
    ensures TerminalEffect(m, e, ApplyStep(env, m, e).value)
  {
    hide ApplyClose, ApplyEnd, ApplyRepair;
    if e.event == Begin {
    } else if Closes(e.event) {
      hide Inv, TerminalEffect;
      CloseTerminal(m, e);
    } else if Ends(e.event) {
      hide Inv, TerminalEffect;
      EndTerminal(env, m, e);
    } else {
      hide Inv, TerminalEffect;
      RepairTerminal(m, e);
    }
  }

  lemma FeedTerminalEffect(env: Env, rs: RunState, e: Entry)
    requires Inv(rs.machine) && Feed(env, rs, e).Some? && e.event != Prepared
    ensures TerminalEffect(rs.machine, e, Feed(env, rs, e).value.machine)
  {
    hide ApplyStep;
    if e.event != TornTailAcknowledged { StepTerminal(env, rs.machine, e); }
  }

  /** One more line counts for nothing before the reserve, and once for its own event in it. */
  predicate CountsGrow(rs: RunState, e: Entry, n: RunState) {
    && n.position == rs.position + Width(e)
    && Reserve(rs.counts, e.event, n.position) == Some(n.counts)
  }

  lemma FeedCounts(env: Env, rs: RunState, e: Entry)
    requires Feed(env, rs, e).Some?
    ensures CountsGrow(rs, e, Feed(env, rs, e).value)
  {
  }

  lemma CountsKept(rs: RunState, e: Entry, n: RunState)
    requires WithinReserve(rs.counts) && CountsGrow(rs, e, n)
    ensures WithinReserve(n.counts)
    ensures forall event {:trigger Count(n.counts, event)} :: Count(n.counts, event)
              == Count(rs.counts, event) + (if n.position > RESERVE_AFTER && event == e.event then 1 else 0)
    ensures n.position > RESERVE_AFTER ==> e.event in RESERVE
    ensures n.position <= RESERVE_AFTER ==> n.counts == rs.counts
  {
    assert forall event {:trigger Count(rs.counts, event)} ::
        Count(rs.counts, event) <= if event == TornTailAcknowledged then 2 else 1;
    forall event
      ensures Count(n.counts, event)
              == Count(rs.counts, event) + (if n.position > RESERVE_AFTER && event == e.event then 1 else 0)
      ensures Count(n.counts, event) <= if event == TornTailAcknowledged then 2 else 1
    {
      assert Count(rs.counts, event) <= if event == TornTailAcknowledged then 2 else 1;
    }
  }

  lemma CoveredKept(rs: RunState, e: Entry, n: RunState)
    requires WithinReserve(rs.counts) && Covered(rs) && CountsGrow(rs, e, n)
    ensures Covered(n)
  {
    CountsKept(rs, e, n);
    hide WithinReserve, Count, Reserve;
    var a, c := rs.counts, n.counts;
    assert Count(c, Terminated) >= Count(a, Terminated) && Count(c, FailedConsumed) >= Count(a, FailedConsumed);
    assert Count(c, Abandoned) >= Count(a, Abandoned)
      && Count(c, TornTailAcknowledged) >= Count(a, TornTailAcknowledged);
    assert Count(c, SetAsideBegin) >= Count(a, SetAsideBegin) && Count(c, SetAsideDone) >= Count(a, SetAsideDone);
  }

  lemma RememberedKept(rs: RunState, e: Entry, n: RunState)
    requires WithinReserve(rs.counts) && Remembered(rs.counts, rs.machine) && CountsGrow(rs, e, n)
    requires Covered(rs)
    requires if e.event == Prepared then true else TerminalEffect(rs.machine, e, n.machine)
    ensures Remembered(n.counts, n.machine)
  {
    CountsKept(rs, e, n);
  }

  lemma ReserveKept(rs: RunState, e: Entry, n: RunState)
    requires ReserveInv(rs) && CountsGrow(rs, e, n)
    requires if e.event == Prepared then true else TerminalEffect(rs.machine, e, n.machine)
    ensures ReserveInv(n)
  {
    hide WithinReserve, Covered, Remembered, CountsGrow, TerminalEffect;
    CountsKept(rs, e, n);
    CoveredKept(rs, e, n);
    RememberedKept(rs, e, n);
  }

  lemma {:induction false} RunsKeepReserve(env: Env, events: seq<Entry>, states: seq<RunState>, n: nat)
    requires IsRun(env, events, states) && n <= |events|
    ensures ReserveInv(states[n])
  {
    hide Feed, ReserveInv, Inv, CountsGrow, TerminalEffect;
    if n == 0 {
      ReserveAtStart();
    } else {
      RunsKeepReserve(env, events, states, n - 1);
      RunsKeepInv(env, events, states, n - 1);
      var rs, e := states[n - 1], events[n - 1];
      assert Feed(env, rs, e) == Some(states[n]);
      FeedCounts(env, rs, e);
      if e.event != Prepared { FeedTerminalEffect(env, rs, e); }
      ReserveKept(rs, e, states[n]);
    }
  }

  lemma ReserveAtStart()
    ensures ReserveInv(START)
  {
  }

  /**
   * The reserve is sized so that the 64-line limit is never what refuses a log: past line 56 at
   * most four ordinary entries and two acknowledged fragments are accepted.
   */
  lemma RunsFitInSixtyFourLines(env: Env, events: seq<Entry>, states: seq<RunState>, n: nat)
    requires IsRun(env, events, states) && n <= |events|
    ensures states[n].position <= MAX_LINES
    ensures Spent(states[n].counts) <= 4 && Count(states[n].counts, TornTailAcknowledged) <= 2
  {
    RunsKeepReserve(env, events, states, n);
    var c := states[n].counts;
    assert forall event {:trigger Count(c, event)} ::
        Count(c, event) <= if event == TornTailAcknowledged then 2 else 1;
  }

  lemma {:induction false} RunCountsLines(env: Env, rs: RunState, lines: seq<bytes>)
    requires Run(env, rs, lines).Ok?
    ensures Run(env, rs, lines).value.position == rs.position + |lines|
    decreases |lines|
  {
    if lines != [] {
      var r := Next(env, rs, lines);
      assert r.state.position == rs.position + r.width;
      hide Next;
      RunCountsLines(env, r.state, lines[r.width..]);
    }
  }

  /** So the line limit of the reader is implied by its reserve: without the test it accepts the same files. */
  lemma LineLimitIsImplied(env: Env, lines: seq<bytes>)
    requires Run(env, START, lines).Ok?
    ensures |lines| <= MAX_LINES
  {
    RunCountsLines(env, START, lines);
    var events, states := ReaderRuns(env, START, lines);
    RunsFitInSixtyFourLines(env, events, states, |events|);
  }

  // ---- no unfinished operation is stuck -----------------------------------------------------

  /** A well-formed entry of the operator for the attempt in hand; its boot, root and text are free. */
  predicate IsOperatorEntry(env: Env, b: Bound, e: Entry, event: Event) {
    && ValidEntry(env, e) && e.event == event
    && e.operationSha == b.sha && e.attempt == b.op.attempt
    && (event == Terminated || event == FailedConsumed ==> e.code == OperatorTerminated)
  }

  lemma AppendEntry(env: Env, events: seq<Entry>, states: seq<RunState>, e: Entry, next: RunState)
    requires IsRun(env, events, states) && Feed(env, states[|events|], e) == Some(next)
    ensures IsRun(env, events + [e], states + [next])
  {
    hide Feed;
    var es, ss := events + [e], states + [next];
    forall i | 0 <= i < |es| ensures Feed(env, ss[i], es[i]) == Some(ss[i + 1]) {
      if i < |events| { assert es[i] == events[i]; }
    }
  }

  /** A bound operation has a positive attempt number and root version. */
  lemma BoundOperation(env: Env, events: seq<Entry>, states: seq<RunState>, n: nat)
    requires IsRun(env, events, states) && n <= |events| && states[n].machine.bound.Some?
    ensures states[n].machine.bound.value.op.attempt >= 1
    ensures states[n].machine.bound.value.op.historicalVersion >= 1
  {
    hide Feed;
    RunsKeepTrace(env, events, states, n);
    StepFacts(env, events, states, AttemptStart(events, n));
  }

  /** When the operator may close or set aside. */
  predicate MayFeed(m: State, event: Event) {
    match event
    case Terminated => m.terminal == None && m.mode != Terminating
    case FailedConsumed => m.mode == Terminating
    case SetAsideBegin => m.mode == TerminalClaim && m.terminal == Some(FailedConsumed) && m.d3
    case SetAsideDone => m.mode == SettingAside
    case _ => false
  }

  predicate OperatorEffect(rs: RunState, event: Event, next: RunState) {
    && next.position == rs.position + 1
    && next.machine.d3 == rs.machine.d3 && next.machine.bound == rs.machine.bound
    && (match event
        case Terminated => next.machine.mode == Terminating && next.machine.terminal == None
        case FailedConsumed => next.machine.mode == TerminalClaim && next.machine.terminal == Some(FailedConsumed)
        case SetAsideBegin => next.machine.mode == SettingAside && next.machine.terminal == rs.machine.terminal
        case _ => next.machine.mode == ClearedTerminal && next.machine.terminal == rs.machine.terminal)
  }

  /** The reserve still holds a line for what the operator may do. */
  lemma OperatorReserve(rs: RunState, event: Event)
    requires ReserveInv(rs) && Inv(rs.machine) && MayFeed(rs.machine, event)
    ensures Reserve(rs.counts, event, rs.position + 1).Some?
    ensures Count(Reserve(rs.counts, event, rs.position + 1).value, TornTailAcknowledged)
            == Count(rs.counts, TornTailAcknowledged)
  {
    assert forall v {:trigger Count(rs.counts, v)} ::
        Count(rs.counts, v) <= if v == TornTailAcknowledged then 2 else 1;
  }

  lemma OperatorApply(env: Env, rs: RunState, e: Entry, event: Event)
    requires Inv(rs.machine) && MayFeed(rs.machine, event)
    requires rs.machine.bound.Some? && IsOperatorEntry(env, rs.machine.bound.value, e, event)
    ensures e.event != TornTailAcknowledged && e.event != Prepared && ApplyStep(env, rs.machine, e).Some?
    ensures OperatorEffect(rs, event, RunState(ApplyStep(env, rs.machine, e).value, rs.counts, rs.position + 1))
  {
  }

  /** A well-formed operator entry is accepted at every position: machine and reserve allow it. */
  lemma OperatorFeed(env: Env, rs: RunState, e: Entry, event: Event)
    returns (next: RunState)
    requires ReserveInv(rs) && Inv(rs.machine) && MayFeed(rs.machine, event)
    requires rs.machine.bound.Some? && IsOperatorEntry(env, rs.machine.bound.value, e, event)
    ensures Feed(env, rs, e) == Some(next)
    ensures ReserveInv(next) && Inv(next.machine) && OperatorEffect(rs, event, next)
    ensures Count(next.counts, TornTailAcknowledged) == Count(rs.counts, TornTailAcknowledged)
  {
    hide ReserveInv, Inv, ApplyStep, Reserve, ValidEntry, Count, CountsGrow, TerminalEffect, MayFeed;
    OperatorReserve(rs, event);
    OperatorApply(env, rs, e, event);
    next := Feed(env, rs, e).value;
    hide Feed;
    FeedTerminalEffect(env, rs, e);
    FeedEffect(env, rs, e);
    FeedCounts(env, rs, e);
    ReserveKept(rs, e, next);
  }

  /** A run whose last state satisfies the invariants and has an attempt in hand. */
  ghost predicate OpenRun(env: Env, events: seq<Entry>, states: seq<RunState>) {
    && IsRun(env, events, states)
    && Inv(states[|events|].machine) && ReserveInv(states[|events|])
    && states[|events|].machine.bound.Some?
  }

  /** Append an operator entry to a run. */
  lemma OperatorStep(env: Env, events: seq<Entry>, states: seq<RunState>, e: Entry, event: Event)
    returns (states': seq<RunState>)
    requires OpenRun(env, events, states) && MayFeed(states[|events|].machine, event)
    requires IsOperatorEntry(env, states[|events|].machine.bound.value, e, event)
    ensures OpenRun(env, events + [e], states')
    ensures OperatorEffect(states[|events|], event, states'[|events| + 1])
    ensures Count(states'[|events| + 1].counts, TornTailAcknowledged)
            == Count(states[|events|].counts, TornTailAcknowledged)
  {
    hide Feed, Inv, ReserveInv, MayFeed, IsOperatorEntry;
    var next := OperatorFeed(env, states[|events|], e, event);
    AppendEntry(env, events, states, e, next);
    states' := states + [next];
    assert states'[|events| + 1] == next;
  }

  /** The entries that close an unfinished attempt. */
  function Closing(m: State, terminate: Entry, fail: Entry): seq<Entry> {
    if m.mode == Terminating then [fail] else [terminate, fail]
  }

  /** Closing entries, whatever well-formed ones, are accepted one after the other. */
  lemma CloseAttempt(env: Env, events: seq<Entry>, states: seq<RunState>, terminate: Entry, fail: Entry)
    returns (states': seq<RunState>)
    requires OpenRun(env, events, states) && states[|events|].machine.terminal == None
    requires IsOperatorEntry(env, states[|events|].machine.bound.value, terminate, Terminated)
    requires IsOperatorEntry(env, states[|events|].machine.bound.value, fail, FailedConsumed)
    ensures var closed := events + Closing(states[|events|].machine, terminate, fail);
            && OpenRun(env, closed, states')
            && (var m, n := states[|events|], states'[|closed|];
                && n.machine.mode == TerminalClaim && n.machine.terminal == Some(FailedConsumed)
                && n.machine.d3 == m.machine.d3 && n.machine.bound == m.machine.bound)
  {
    hide Feed, Inv, ReserveInv, IsOperatorEntry;
    if states[|events|].machine.mode == Terminating {
      states' := OperatorStep(env, events, states, fail, FailedConsumed);
    } else {
      var between := OperatorStep(env, events, states, terminate, Terminated);
      states' := OperatorStep(env, events + [terminate], between, fail, FailedConsumed);
      assert events + [terminate, fail] == events + [terminate] + [fail];
    }
  }

  /** Four well-formed operator entries for the attempt in hand. */
  predicate OperatorEntries(env: Env, b: Bound, terminate: Entry, fail: Entry, begin: Entry, done: Entry) {
    && IsOperatorEntry(env, b, terminate, Terminated) && IsOperatorEntry(env, b, fail, FailedConsumed)
    && IsOperatorEntry(env, b, begin, SetAsideBegin) && IsOperatorEntry(env, b, done, SetAsideDone)
  }

  /**
   * From every reachable state with an unfinished operation, any well-formed closing entries are
   * accepted and claim it, any two set-aside entries after them clear it if D3 ever began, and the
   * whole log still has at most 64 lines.
   */
  lemma NoOperationIsStuck(env: Env, events: seq<Entry>, states: seq<RunState>,
                           terminate: Entry, fail: Entry, begin: Entry, done: Entry)
    returns (closedStates: seq<RunState>, clearedStates: seq<RunState>)
    requires IsRun(env, events, states)
    requires states[|events|].machine.bound.Some? && states[|events|].machine.terminal == None
    requires OperatorEntries(env, states[|events|].machine.bound.value, terminate, fail, begin, done)
    ensures var closed := events + Closing(states[|events|].machine, terminate, fail);
            && IsRun(env, closed, closedStates)
            && closedStates[|closed|].machine.terminal == Some(FailedConsumed)
            && closedStates[|closed|].machine.mode == TerminalClaim
            && closedStates[|closed|].machine.bound == states[|events|].machine.bound
            && closedStates[|closed|].position <= MAX_LINES
            && (states[|events|].machine.d3 ==>
                  && IsRun(env, closed + [begin, done], clearedStates)
                  && clearedStates[|closed| + 2].machine.mode == ClearedTerminal
                  && clearedStates[|closed| + 2].machine.terminal == Some(FailedConsumed)
                  && clearedStates[|closed| + 2].machine.bound == states[|events|].machine.bound
                  && clearedStates[|closed| + 2].position <= MAX_LINES)
  {
    hide Feed, Inv, ReserveInv, IsOperatorEntry;
    RunsKeepInv(env, events, states, |events|);
    RunsKeepReserve(env, events, states, |events|);
    closedStates := CloseAttempt(env, events, states, terminate, fail);
    var closed := events + Closing(states[|events|].machine, terminate, fail);
    RunsFitInSixtyFourLines(env, closed, closedStates, |closed|);
    clearedStates := closedStates;
    if states[|events|].machine.d3 {
      var between := OperatorStep(env, closed, closedStates, begin, SetAsideBegin);
      clearedStates := OperatorStep(env, closed + [begin], between, done, SetAsideDone);
      assert closed + [begin, done] == closed + [begin] + [done];
      RunsFitInSixtyFourLines(env, closed + [begin, done], clearedStates, |closed| + 2);
    }
  }

  // ---- where a log ends ---------------------------------------------------------------------

  /** Machine states that accept nothing but acknowledgements, at any position. */
  predicate Final(m: State) {
    || m.mode == ClearedTerminal
    || (m.mode == BlockedDurability && m.terminal.Some?)
    || (m.mode == TerminalClaim && m.terminal == Some(Committed))
    || (m.mode == TerminalClaim && m.terminal == Some(FailedConsumed) && !m.d3)
  }

  /** A refused or abandoned attempt whose next line would lie in the reserve: no PREPARED fits any more. */
  predicate Exhausted(rs: RunState) {
    && (rs.machine.terminal == Some(Refused) || rs.machine.terminal == Some(Abandoned))
    && rs.position >= RESERVE_AFTER
  }

  /** The reader accepts some entry at this point, acknowledgements aside. */
  ghost predicate AcceptsMore(env: Env, rs: RunState) {
    exists e: Entry :: e.event != TornTailAcknowledged && Feed(env, rs, e).Some?
  }

  /** An entry of the attempt in hand that repeats what its operation was prepared with. */
  function EntryOf(sha: Hash, op: Operation, event: Event, step: Option<Step>, data: Data): Entry {
    Entry(sha, op.attempt, op.historicalRoot, op.historicalVersion, op.bootId, event, step, OperatorTerminated, data)
  }

  function OperatorEntry(b: Bound, event: Event): Entry {
    EntryOf(b.sha, b.op, event, if event == SetAsideBegin || event == SetAsideDone then Some(3) else None, NoData)
  }

  lemma FinalRefuses(env: Env, m: State, e: Entry)
    requires Inv(m) && m.bound.Some? && Final(m) && ValidEntry(env, e)
    requires e.event != TornTailAcknowledged && e.event != Prepared
    ensures ApplyStep(env, m, e).None?
  {
  }

  lemma RefusedRefuses(env: Env, m: State, e: Entry)
    requires Inv(m) && m.bound.Some? && ValidEntry(env, e)
    requires m.terminal == Some(Refused) || m.terminal == Some(Abandoned)
    requires e.event != TornTailAcknowledged && e.event != Prepared
    ensures ApplyStep(env, m, e).None?
  {
  }

  lemma DeadEnd(env: Env, rs: RunState, e: Entry)
    requires Inv(rs.machine) && rs.machine.bound.Some? && (Final(rs.machine) || Exhausted(rs))
    requires e.event != TornTailAcknowledged
    ensures Feed(env, rs, e).None?
  {
    hide ApplyStep;
    if ValidEntry(env, e) && e.event != Prepared {
      if Final(rs.machine) { FinalRefuses(env, rs.machine, e); } else { RefusedRefuses(env, rs.machine, e); }
    }
  }

  /** Outside of the reserve, any later attempt of a refused or abandoned operation's child is accepted. */
  lemma LaterAttemptIsTaken(env: Env, rs: RunState, e: Entry)
    requires Inv(rs.machine) && rs.machine.bound.Some? && rs.position < RESERVE_AFTER
    requires rs.machine.terminal == Some(Refused) || rs.machine.terminal == Some(Abandoned)
    requires ValidEntry(env, e) && e.event == Prepared
    requires var op, was := e.data.operation, rs.machine.bound.value.op;
             op.attempt > was.attempt && op.childAgentId == was.childAgentId
    ensures Feed(env, rs, e).Some?
  {
  }

  /** There is such an attempt: the same operation with the next number. */
  lemma NextAttempt(env: Env, rs: RunState)
    requires Inv(rs.machine) && rs.machine.bound.Some? && rs.position < RESERVE_AFTER
    requires rs.machine.terminal == Some(Refused) || rs.machine.terminal == Some(Abandoned)
    requires rs.machine.bound.value.op.attempt >= 1 && rs.machine.bound.value.op.historicalVersion >= 1
    ensures AcceptsMore(env, rs)
  {
    var was := rs.machine.bound.value.op;
    var op := was.(attempt := was.attempt + 1);
    LaterAttemptIsTaken(env, rs, EntryOf(env.Digest(op), op, Prepared, None, OperationData(op)));
  }

  /** The event an operator may always write when an attempt is unfinished or not yet set aside. */
  function NextEvent(m: State): Event {
    if m.terminal == None then (if m.mode == Terminating then FailedConsumed else Terminated)
    else if m.mode == SettingAside then SetAsideDone
    else SetAsideBegin
  }

  lemma OperatorGoesOn(env: Env, rs: RunState)
    requires Inv(rs.machine) && ReserveInv(rs) && rs.machine.bound.Some? && !Final(rs.machine)
    requires rs.machine.terminal == None || rs.machine.terminal == Some(FailedConsumed)
    requires rs.machine.bound.value.op.attempt >= 1 && rs.machine.bound.value.op.historicalVersion >= 1
    ensures AcceptsMore(env, rs)
  {
    var event := NextEvent(rs.machine);
    var e := OperatorEntry(rs.machine.bound.value, event);
    assert MayFeed(rs.machine, event) && IsOperatorEntry(env, rs.machine.bound.value, e, event);
    hide Feed, ReserveInv, Inv;
    var next := OperatorFeed(env, rs, e, event);
  }

  /**
   * The exact dead ends: at the end of a run with an operation, the reader accepts some further entry,
   * acknowledgements aside, exactly when the machine is not final and no refused or abandoned attempt
   * has reached the reserve.
   */
  lemma DeadEndsAreExactlyFinal(env: Env, events: seq<Entry>, states: seq<RunState>, n: nat)
    requires IsRun(env, events, states) && n <= |events| && states[n].machine.bound.Some?
    ensures AcceptsMore(env, states[n]) <==> !Final(states[n].machine) && !Exhausted(states[n])
  {
    hide Feed, Inv, ReserveInv;
    var rs := states[n];
    RunsKeepInv(env, events, states, n);
    RunsKeepReserve(env, events, states, n);
    BoundOperation(env, events, states, n);
    if Final(rs.machine) || Exhausted(rs) {
      forall e: Entry | e.event != TornTailAcknowledged ensures Feed(env, rs, e).None? { DeadEnd(env, rs, e); }
    } else if rs.machine.terminal == Some(Refused) || rs.machine.terminal == Some(Abandoned) {
      NextAttempt(env, rs);
    } else {
      TerminalKinds(rs.machine);
      OperatorGoesOn(env, rs);
    }
  }

  lemma TerminalKinds(m: State)
    requires Inv(m) && !Final(m) && m.terminal != Some(Refused) && m.terminal != Some(Abandoned)
    ensures m.terminal == None || m.terminal == Some(FailedConsumed)
  {
  }

  // ---- the bound is reached -----------------------------------------------------------------

  /** An operation with the numbers every validated one has. */
  predicate Preparable(op: Operation) { op.attempt >= 1 && op.historicalVersion >= 1 }

  /**
   * A valid entry of the one attempt of `op`, under the boot and root it was prepared with: it carries
   * no data, the operation itself, or acknowledges the fragment of digest `fragmentSha`.
   */
  predicate Carries(env: Env, op: Operation, fragmentSha: Hash, e: Entry) {
    && ValidEntry(env, e)
    && e.operationSha == env.Digest(op) && e.attempt == op.attempt
    && e.rootSha == op.historicalRoot && e.rootVersion == op.historicalVersion && e.bootId == op.bootId
    && e.code == OperatorTerminated
    && (match e.data
        case NoData => true
        case OperationData(operation) => operation == op
        case DigestData(digest) => e.event == TornTailAcknowledged && digest == fragmentSha
        case ResultData(_) => false)
  }

  /** A machine of the attempt waiting on step `k`, after `position` ordinary lines. */
  predicate WaitingOn(env: Env, op: Operation, rs: RunState, k: Step, position: nat) {
    && rs.position == position <= RESERVE_AFTER && rs.counts == map[]
    && rs.machine.bound == Some(Bound(op, env.Digest(op)))
    && rs.machine.mode == Interrupted && rs.machine.level == k - 1 && rs.machine.pending == Some(k)
    && rs.machine.terminal == None && (k == 3 ==> rs.machine.d3)
  }

  /** Two more lines: leave the pending step with `event` and begin step `next`. */
  lemma TwoLines(env: Env, op: Operation, fragmentSha: Hash, events: seq<Entry>, states: seq<RunState>,
                 k: Step, event: Event, next: Step)
    returns (more: seq<Entry>, states': seq<RunState>)
    requires IsRun(env, events, states) && WaitingOn(env, op, states[|events|], k, states[|events|].position)
    requires states[|events|].position + 2 <= RESERVE_AFTER && Preparable(op)
    requires (event == Done && next == k + 1) || (event == BeginCancelled && next == k == 3)
    ensures IsRun(env, events + more, states') && |more| == 2
    ensures WaitingOn(env, op, states'[|events| + 2], next, states[|events|].position + 2)
    ensures forall e | e in more :: Carries(env, op, fragmentSha, e) && e.event != TornTailAcknowledged
  {
    var sha := env.Digest(op);
    var leave, begin := EntryOf(sha, op, event, Some(k), NoData), EntryOf(sha, op, Begin, Some(next), NoData);
    var rs := states[|events|];
    var open := Feed(env, rs, leave).value;
    AppendEntry(env, events, states, leave, open);
    AppendEntry(env, events + [leave], states + [open], begin, Feed(env, open, begin).value);
    more, states' := [leave, begin], states + [open, Feed(env, open, begin).value];
    assert events + more == events + [leave] + [begin] && states' == states + [open] + [states'[|events| + 2]];
  }

  lemma FirstTwoLines(env: Env, op: Operation, fragmentSha: Hash) returns (events: seq<Entry>, states: seq<RunState>)
    requires Preparable(op)
    ensures IsRun(env, events, states) && WaitingOn(env, op, states[|events|], 1, 2)
    ensures forall e | e in events :: Carries(env, op, fragmentSha, e) && e.event != TornTailAcknowledged
  {
    var sha := env.Digest(op);
    var prepared := EntryOf(sha, op, Prepared, None, OperationData(op));
    var begin := EntryOf(sha, op, Begin, Some(1), NoData);
    var first := Feed(env, START, prepared).value;
    AppendEntry(env, [], [START], prepared, first);
    AppendEntry(env, [prepared], [START, first], begin, Feed(env, first, begin).value);
    events, states := [prepared, begin], [START, first, Feed(env, first, begin).value];
    assert events == [prepared] + [begin] && states == [START, first] + [states[2]];
  }

  /** An ordinary log may fill all of its 56 lines and still wait on D3. */
  lemma FiftySixLines(env: Env, op: Operation, fragmentSha: Hash) returns (events: seq<Entry>, states: seq<RunState>)
    requires Preparable(op)
    ensures IsRun(env, events, states) && WaitingOn(env, op, states[|events|], 3, RESERVE_AFTER)
    ensures forall e | e in events :: Carries(env, op, fragmentSha, e) && e.event != TornTailAcknowledged
  {
    hide Feed, Carries;
    var more;
    events, states := FirstTwoLines(env, op, fragmentSha);
    more, states := TwoLines(env, op, fragmentSha, events, states, 1, Done, 2);
    events := events + more;
    more, states := TwoLines(env, op, fragmentSha, events, states, 2, Done, 3);
    events := events + more;
    for n := 3 to 28
      invariant IsRun(env, events, states) && WaitingOn(env, op, states[|events|], 3, 2 * n)
      invariant forall e | e in events :: Carries(env, op, fragmentSha, e) && e.event != TornTailAcknowledged
    {
      more, states := TwoLines(env, op, fragmentSha, events, states, 3, BeginCancelled, 3);
      events := events + more;
    }
  }

  /** The four operator entries and two acknowledgements that fill the reserve. */
  function ReserveEntries(env: Env, op: Operation, fragmentSha: Hash): seq<Entry> {
    var b := Bound(op, env.Digest(op));
    var ack := EntryOf(b.sha, op, TornTailAcknowledged, None, DigestData(fragmentSha));
    [OperatorEntry(b, Terminated), OperatorEntry(b, FailedConsumed), OperatorEntry(b, SetAsideBegin),
     OperatorEntry(b, SetAsideDone), ack, ack]
  }

  lemma ReserveEntriesCarry(env: Env, op: Operation, fragmentSha: Hash)
    requires Preparable(op)
    ensures forall e | e in ReserveEntries(env, op, fragmentSha) :: Carries(env, op, fragmentSha, e)
    ensures var r, b := ReserveEntries(env, op, fragmentSha), Bound(op, env.Digest(op));
            OperatorEntries(env, b, r[0], r[1], r[2], r[3])
  {
  }

  /** After a set-aside in the reserve, two torn fragments can still be acknowledged. */
  lemma TwoAcknowledgements(env: Env, op: Operation, fragmentSha: Hash, events: seq<Entry>, states: seq<RunState>,
                            ack: Entry)
    returns (states': seq<RunState>)
    requires IsRun(env, events, states) && states[|events|].position >= RESERVE_AFTER
    requires states[|events|].machine.bound == Some(Bound(op, env.Digest(op)))
    requires Carries(env, op, fragmentSha, ack) && ack.event == TornTailAcknowledged
    requires Count(states[|events|].counts, TornTailAcknowledged) == 0
    ensures IsRun(env, events + [ack, ack], states')
    ensures states'[|events| + 2].position == states[|events|].position + 4
    ensures Count(states'[|events| + 2].counts, TornTailAcknowledged) == 2
    ensures states'[|events| + 2].machine == states[|events|].machine.(last := states[|events|].position + 4)
  {
    var first := Feed(env, states[|events|], ack).value;
    AppendEntry(env, events, states, ack, first);
    AppendEntry(env, events + [ack], states + [first], ack, Feed(env, first, ack).value);
    states' := states + [first, Feed(env, first, ack).value];
    assert events + [ack, ack] == events + [ack] + [ack];
    assert states' == states + [first] + [states'[|events| + 2]];
  }

  /** All four operator entries, one after the other. */
  lemma FourOperatorEntries(env: Env, events: seq<Entry>, states: seq<RunState>, r: seq<Entry>)
    returns (states': seq<RunState>)
    requires OpenRun(env, events, states) && |r| >= 4
    requires OperatorEntries(env, states[|events|].machine.bound.value, r[0], r[1], r[2], r[3])
    requires states[|events|].machine.mode == Interrupted && states[|events|].machine.terminal == None
    requires states[|events|].machine.d3
    ensures IsRun(env, events + r[..4], states')
    ensures var m, n := states[|events|], states'[|events| + 4];
            && n.position == m.position + 4 && n.machine.bound == m.machine.bound
            && Count(n.counts, TornTailAcknowledged) == Count(m.counts, TornTailAcknowledged)
  {
    hide Feed, Inv, ReserveInv, IsOperatorEntry, Count;
    var s1 := OperatorStep(env, events, states, r[0], Terminated);
    var s2 := OperatorStep(env, events + [r[0]], s1, r[1], FailedConsumed);
    var s3 := OperatorStep(env, events + [r[0]] + [r[1]], s2, r[2], SetAsideBegin);
    states' := OperatorStep(env, events + [r[0]] + [r[1]] + [r[2]], s3, r[3], SetAsideDone);
    assert events + r[..4] == events + [r[0]] + [r[1]] + [r[2]] + [r[3]];
  }

  /**
   * For every operation that can be prepared, and every torn fragment, some accepted log uses all 64
   * lines with valid entries of that one attempt, so the reserve is sized exactly.
   */
  lemma SixtyFourLinesAreReached(env: Env, op: Operation, fragmentSha: Hash)
    returns (events: seq<Entry>, states: seq<RunState>)
    requires Preparable(op)
    ensures IsRun(env, events, states) && states[|events|].position == MAX_LINES
    ensures states[|events|].machine.bound == Some(Bound(op, env.Digest(op)))
    ensures forall e | e in events :: Carries(env, op, fragmentSha, e)
  {
    hide Feed, Inv, ReserveInv, Carries, OperatorEntries;
    var r := ReserveEntries(env, op, fragmentSha);
    ReserveEntriesCarry(env, op, fragmentSha);
    var ordinary;
    ordinary, states := FiftySixLines(env, op, fragmentSha);
    RunsKeepInv(env, ordinary, states, |ordinary|);
    RunsKeepReserve(env, ordinary, states, |ordinary|);
    states := FourOperatorEntries(env, ordinary, states, r);
    states := TwoAcknowledgements(env, op, fragmentSha, ordinary + r[..4], states, r[4]);
    events := ordinary + r[..4] + [r[4], r[4]];
    assert forall e | e in r[..4] :: e in r;
  }
}
