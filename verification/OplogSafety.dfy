/** What every accepted log keeps: the machine's invariant, one completed D1, and commit safety. */
module OplogSafety {
  import opened Prelude
  import opened Oplog
  import opened OplogRuns

  /** The terminal claim that each mode goes with. */
  predicate ModeTerminal(m: State) {
    match m.mode
    case TerminalClaim =>
      || m.terminal == Some(Refused) || m.terminal == Some(Abandoned)
      || m.terminal == Some(Committed) || m.terminal == Some(FailedConsumed)
    case SettingAside => m.terminal == Some(FailedConsumed) && m.d3
    case ClearedTerminal => m.terminal == Some(FailedConsumed) && m.d3
    case BlockedDurability => m.terminal == None || (m.terminal == Some(FailedConsumed) && m.d3)
    case _ => m.terminal == None
  }

  /** The progress that each mode and claim goes with. */
  predicate ModeProgress(m: State) {
    && m.level <= 3
    && (m.mode != Interrupted && m.mode != BlockedDurability && m.mode != Terminating ==> m.pending == None)
    && (m.mode == Interrupted ==> m.pending.Some? && m.pending.value == m.level + 1 && m.beginBoot.Some?)
    && (m.mode == PartialD2 ==> m.level == 1)
    && ((m.mode == PartialD3 || m.mode == Quarantining) ==> m.level == 2)
    && ((m.terminal == Some(Refused) || m.terminal == Some(Abandoned)) ==> m.level == 0)
    && (m.terminal == Some(Committed) ==> m.level == 3)
  }

  /** D3 has begun as soon as it is pending, partial, being quarantined or done. */
  predicate D3History(m: State) {
    (m.level == 3 || m.pending == Some(3) || m.mode == PartialD3 || m.mode == Quarantining) ==> m.d3
  }

  predicate Preamble(m: State) {
    m.bound.None? ==>
      && (m.mode == Empty || m.mode == PreparationIncomplete)
      && m.level == 0 && m.pending == None && !m.d3 && m.history == []
  }

  predicate Inv(m: State) {
    && Preamble(m)
    && (m.bound.Some? ==> m.mode != Empty && m.mode != PreparationIncomplete)
    && ModeTerminal(m)
    && ModeProgress(m)
    && D3History(m)
  }

  /** An entry that completes step `k`, written or recovered. */
  predicate Completes(e: Entry, k: nat) {
    && e.step.Some? && e.step.value == k
    && (e.event == Done || (e.event == InterruptedRecovered && e.data == ResultData(Present)))
  }

  predicate Begins(e: Entry, k: nat) { e.event == Begin && e.step.Some? && e.step.value == k }

  /** How the level moves: only up, by one, when the pending step completes under another boot. */
  ghost predicate LevelEffect(m: State, e: Entry, n: State) {
    && n.level >= m.level
    && (forall k | 1 <= k :: Completes(e, k) ==> m.level < k == n.level)
    && (n.level > m.level ==>
          && m.mode == Interrupted && n.mode != Interrupted
          && n.level == m.level + 1
          && Completes(e, n.level)
          && (e.event == InterruptedRecovered ==> Some(e.bootId) != m.beginBoot))
  }

  /** Only BEGIN of the next step interrupts, and only acknowledgements leave it pending. */
  ghost predicate InterruptEffect(m: State, e: Entry, n: State) {
    n.mode == Interrupted ==>
      if m.mode == Interrupted then
        e.event == TornTailAcknowledged && n.beginBoot == m.beginBoot && n.level == m.level
      else
        Begins(e, m.level + 1) && n.beginBoot == Some(e.bootId) && n.level == m.level
  }

  /** Only COMMITTED at level 3, naming the frozen record, claims COMMITTED. */
  ghost predicate CommitEffect(env: Env, m: State, e: Entry, n: State) {
    n.terminal == Some(Committed) && m.terminal != Some(Committed) ==>
      && e.event == Committed && m.level == 3 && m.bound.Some?
      && e.data == DigestData(env.sha(m.bound.value.op.record))
  }

  /** What an entry other than PREPARED does to the machine, in the terms the trace needs. */
  ghost predicate Effect(env: Env, m: State, e: Entry, n: State) {
    && n.bound == m.bound
    && LevelEffect(m, e, n)
    && InterruptEffect(m, e, n)
    && CommitEffect(env, m, e, n)
  }

  /** What PREPARED does: only at level 0, and everything starts afresh. */
  ghost predicate PreparedEffect(m: State, e: Entry, n: State) {
    && m.level == 0
    && n.level == 0 && n.mode == Open && n.terminal == None && n.pending == None && !n.d3
    && e.data.OperationData?
    && n.bound == Some(Bound(e.data.operation, e.operationSha))
  }

  /** One accepted entry between two states that satisfy the invariant. */
  ghost predicate StepRelation(env: Env, m: State, e: Entry, n: State) {
    && Inv(m) && Inv(n)
    && (if e.event == Prepared then PreparedEffect(m, e, n) else Effect(env, m, e, n))
    && (e.event != Prepared && e.event != TornTailAcknowledged ==> m.bound.Some?)
  }

  lemma CloseEffect(env: Env, m: State, e: Entry)
    requires Inv(m) && m.bound.Some?
    requires Closes(e.event) && e.step.Some? && (e.event == InterruptedRecovered ==> e.data.ResultData?)
    requires e.step == Some(1) ==> e.data != ResultData(Partial)
    requires ApplyClose(m, e).Some?
    ensures var n := ApplyClose(m, e).value; Inv(n) && Effect(env, m, e, n)
  {
  }

  lemma EndEffect(env: Env, m: State, e: Entry)
    requires Inv(m) && m.bound.Some? && Ends(e.event) && (e.event == Committed ==> e.data.DigestData?)
    requires ApplyEnd(env, m, e).Some?
    ensures var n := ApplyEnd(env, m, e).value; Inv(n) && Effect(env, m, e, n)
  {
  }

  lemma RepairEffect(env: Env, m: State, e: Entry)
    requires Inv(m) && m.bound.Some? && ApplyRepair(m, e).Some?
    ensures var n := ApplyRepair(m, e).value; Inv(n) && Effect(env, m, e, n)
  {
  }

  lemma StepEffect(env: Env, m: State, e: Entry)
    requires Inv(m) && m.bound.Some? && ValidEntry(env, e) && ApplyStep(env, m, e).Some?
    requires e.event != Prepared && e.event != TornTailAcknowledged
    ensures var n := ApplyStep(env, m, e).value; Inv(n) && Effect(env, m, e, n)
  {
    hide ApplyClose, ApplyEnd, ApplyRepair;
    if e.event == Begin {
    } else if Closes(e.event) {
      hide Inv, Effect;
      CloseEffect(env, m, e);
    } else if Ends(e.event) {
      hide Inv, Effect;
      EndEffect(env, m, e);
    } else {
      hide Inv, Effect;
      RepairEffect(env, m, e);
    }
  }

  /** Every entry keeps the invariant, and only PREPARED, at level 0, resets the progress. */
  lemma FeedEffect(env: Env, rs: RunState, e: Entry)
    requires Inv(rs.machine) && Feed(env, rs, e).Some?
    ensures var n := Feed(env, rs, e).value.machine;
            StepRelation(env, rs.machine, e, n)
  {
    if e.event != Prepared && e.event != TornTailAcknowledged {
      StepEffect(env, rs.machine, e);
    }
  }

  /** Every state of every accepted log satisfies the invariant. */
  lemma {:induction false} RunsKeepInv(env: Env, events: seq<Entry>, states: seq<RunState>, n: nat)
    requires IsRun(env, events, states) && n <= |events|
    ensures Inv(states[n].machine)
  {
    hide Feed, Inv;
    if n == 0 {
      InvAtStart();
    } else {
      RunsKeepInv(env, events, states, n - 1);
      assert Feed(env, states[n - 1], events[n - 1]) == Some(states[n]);
      FeedEffect(env, states[n - 1], events[n - 1]);
    }
  }

  lemma InvAtStart()
    ensures Inv(INITIAL)
  {
  }

  /** The invariant on both sides of an entry, and what the entry does. */
  lemma StepFacts(env: Env, events: seq<Entry>, states: seq<RunState>, i: nat)
    requires IsRun(env, events, states) && i < |events|
    ensures ValidEntry(env, events[i])
    ensures StepRelation(env, states[i].machine, events[i], states[i + 1].machine)
  {
    RunsKeepInv(env, events, states, i);
    assert Feed(env, states[i], events[i]) == Some(states[i + 1]);
    FeedEffect(env, states[i], events[i]);
  }

  // ---- one completed D1 per log -------------------------------------------------------------

  /** A completed step stays completed, and no attempt is prepared any more. */
  lemma {:induction false} LevelAfterCompletion(env: Env, events: seq<Entry>, states: seq<RunState>,
                                                j: nat, n: nat, k: nat)
    requires IsRun(env, events, states) && j < n <= |events| && k >= 1 && Completes(events[j], k)
    ensures states[n].machine.level >= k
    ensures forall i | j < i < n :: events[i].event != Prepared && !Completes(events[i], k)
  {
    hide Feed, Inv;
    StepFacts(env, events, states, n - 1);
    if j < n - 1 {
      LevelAfterCompletion(env, events, states, j, n - 1, k);
    }
  }

  /** Only one entry of a log completes D1, and no attempt is prepared after it. */
  lemma OneAttemptCompletesD1(env: Env, events: seq<Entry>, states: seq<RunState>, j: nat)
    requires IsRun(env, events, states) && j < |events| && Completes(events[j], 1)
    ensures forall i | 0 <= i < |events| :: Completes(events[i], 1) ==> i == j
    ensures forall i | j < i < |events| :: events[i].event != Prepared
  {
    hide Feed;
    LevelAfterCompletion(env, events, states, j, |events|, 1);
    forall i | 0 <= i < j && Completes(events[i], 1) ensures false {
      LevelAfterCompletion(env, events, states, i, |events|, 1);
    }
  }

  // ---- commit safety ----------------------------------------------------------------------

  /** Index of the last PREPARED among the first `n` entries, -1 before the first. */
  function AttemptStart(events: seq<Entry>, n: nat): (a: int)
    requires n <= |events|
    ensures -1 <= a < n
    ensures a >= 0 ==> events[a].event == Prepared
    ensures forall i | a < i < n :: events[i].event != Prepared
  {
    if n == 0 then -1 else if events[n - 1].event == Prepared then n - 1 else AttemptStart(events, n - 1)
  }

  /** Only acknowledged fragments strictly between `b` and `c`. */
  ghost predicate Quiet(events: seq<Entry>, b: int, c: int) {
    forall i | 0 <= i < |events| && b < i < c :: events[i].event == TornTailAcknowledged
  }

  /** BEGIN k at `b`, answered at `c` by DONE k or by a PRESENT recovery under another boot. */
  ghost predicate StepDone(events: seq<Entry>, k: nat, b: int, c: int) {
    && 0 <= b < c < |events|
    && Begins(events[b], k)
    && Completes(events[c], k)
    && (events[c].event == InterruptedRecovered ==> events[c].bootId != events[b].bootId)
    && Quiet(events, b, c)
  }

  /** Steps 1 to `k` were done one after the other, after `a` and before `hi`. */
  ghost predicate Completed(events: seq<Entry>, a: int, k: nat, hi: int) {
    k == 0 || exists b, c :: a < b && c < hi && StepDone(events, k, b, c) && Completed(events, a, k - 1, b)
  }

  /** The BEGIN an interrupted machine is waiting on. */
  ghost predicate Waiting(events: seq<Entry>, n: nat, m: State, a: int, b: int) {
    && a < b < n <= |events| && 0 <= b
    && Begins(events[b], m.level + 1)
    && m.beginBoot == Some(events[b].bootId)
    && Completed(events, a, m.level, b)
    && Quiet(events, b, n)
  }

  ghost predicate IsWaiting(events: seq<Entry>, n: nat, m: State, a: int) {
    m.mode == Interrupted ==> exists b :: Waiting(events, n, m, a, b)
  }

  /** A COMMITTED at `i`, over all three steps and with the digest of the frozen record. */
  ghost predicate CommittedAt(env: Env, events: seq<Entry>, m: State, a: int, i: int) {
    && m.bound.Some?
    && a < i < |events| && 0 <= i
    && events[i].event == Committed
    && events[i].data == DigestData(env.sha(m.bound.value.op.record))
    && Completed(events, a, 3, i)
  }

  /** What the first `n` entries say about the state after them. */
  ghost predicate Trace(env: Env, events: seq<Entry>, n: nat, m: State)
    requires n <= |events|
  {
    var a := AttemptStart(events, n);
    && (m.bound.Some? <==> a >= 0)
    && (a >= 0 ==>
          events[a].data.OperationData?
          && m.bound == Some(Bound(events[a].data.operation, events[a].operationSha)))
    && Completed(events, a, m.level, n)
    && IsWaiting(events, n, m, a)
    && (m.terminal == Some(Committed) ==> exists i :: i < n && CommittedAt(env, events, m, a, i))
  }

  lemma CompletedLater(events: seq<Entry>, a: int, k: nat, hi: int, later: int)
    requires Completed(events, a, k, hi) && hi <= later
    ensures Completed(events, a, k, later)
  {
    if k > 0 {
      var b, c :| a < b && c < hi && StepDone(events, k, b, c) && Completed(events, a, k - 1, b);
      OneStepMore(events, a, k - 1, b, c, later);
    }
  }

  lemma OneStepMore(events: seq<Entry>, a: int, k: nat, b: int, c: int, hi: int)
    requires Completed(events, a, k, b) && a < b && c < hi && StepDone(events, k + 1, b, c)
    ensures Completed(events, a, k + 1, hi)
  {
    hide StepDone;
  }

  /** The BEGIN an interrupted machine waits on is kept, found, or answered. */
  lemma WaitingKept(env: Env, events: seq<Entry>, n: nat, m: State, m': State)
    requires n < |events| && Effect(env, m, events[n], m') && Inv(m) && Inv(m')
    requires events[n].event != Prepared && Completed(events, AttemptStart(events, n), m.level, n)
    requires IsWaiting(events, n, m, AttemptStart(events, n))
    ensures var a := AttemptStart(events, n + 1);
            && Completed(events, a, m'.level, n + 1)
            && IsWaiting(events, n + 1, m', a)
  {
    hide Completed, Inv, Completes;
    var a := AttemptStart(events, n);
    assert AttemptStart(events, n + 1) == a;
    if m.mode == Interrupted {
      var b :| Waiting(events, n, m, a, b);
      if m'.mode == Interrupted {
        assert Waiting(events, n + 1, m', a, b);
      } else if m'.level > m.level {
        AnswerCompletes(events, n, m, m', a, b);
      }
    } else if m'.mode == Interrupted {
      assert Waiting(events, n + 1, m', a, n);
    }
    if m'.level == m.level { CompletedLater(events, a, m.level, n, n + 1); }
  }

  /** The entry that raises the level completes the step whose BEGIN was waited on. */
  lemma AnswerCompletes(events: seq<Entry>, n: nat, m: State, m': State, a: int, b: int)
    requires n < |events| && LevelEffect(m, events[n], m') && m'.level > m.level && Waiting(events, n, m, a, b)
    ensures Completed(events, a, m'.level, n + 1)
  {
    hide Completed;
    assert StepDone(events, m'.level, b, n);
    OneStepMore(events, a, m.level, b, n, n + 1);
  }

  /** Every accepted log ends in a state its entries justify. */
  lemma {:induction false} RunsKeepTrace(env: Env, events: seq<Entry>, states: seq<RunState>, n: nat)
    requires IsRun(env, events, states) && n <= |events|
    ensures Trace(env, events, n, states[n].machine)
  {
    hide Feed, ValidEntry, Trace, StepRelation, Inv;
    if n == 0 {
      TraceAtStart(env, events);
    } else {
      RunsKeepTrace(env, events, states, n - 1);
      StepFacts(env, events, states, n - 1);
      TraceKept(env, events, n - 1, states[n - 1].machine, states[n].machine);
    }
  }

  lemma TraceAtStart(env: Env, events: seq<Entry>)
    ensures Trace(env, events, 0, INITIAL)
  {
  }

  lemma TraceKept(env: Env, events: seq<Entry>, n: nat, m: State, m': State)
    requires n < |events| && Trace(env, events, n, m) && StepRelation(env, m, events[n], m')
    ensures Trace(env, events, n + 1, m')
  {
    if events[n].event != Prepared {
      WaitingKept(env, events, n, m, m');
      if m'.terminal == Some(Committed) {
        var a := AttemptStart(events, n);
        if m.terminal == Some(Committed) {
          var i :| i < n && CommittedAt(env, events, m, a, i);
          assert CommittedAt(env, events, m', a, i);
        } else {
          assert CommittedAt(env, events, m', a, n);
        }
      }
    }
  }

  /** The last of `k` completed steps. */
  lemma LastStep(events: seq<Entry>, a: int, k: nat, hi: int) returns (b: int, c: int)
    requires k > 0 && Completed(events, a, k, hi)
    ensures a < b < c < hi && StepDone(events, k, b, c) && Completed(events, a, k - 1, b)
  {
    b, c :| a < b && c < hi && StepDone(events, k, b, c) && Completed(events, a, k - 1, b);
  }

  /** The six entries behind three completed steps. */
  lemma StepsOf(events: seq<Entry>, a: int, hi: int) returns (b: seq<int>, c: seq<int>)
    requires Completed(events, a, 3, hi)
    ensures |b| == |c| == 3
    ensures a < b[0] < c[0] < b[1] < c[1] < b[2] < c[2] < hi
    ensures StepDone(events, 1, b[0], c[0]) && StepDone(events, 2, b[1], c[1]) && StepDone(events, 3, b[2], c[2])
  {
    hide Completed, StepDone;
    var b3, c3 := LastStep(events, a, 3, hi);
    var b2, c2 := LastStep(events, a, 2, b3);
    var b1, c1 := LastStep(events, a, 1, b2);
    b, c := [b1, b2, b3], [c1, c2, c3];
  }

  /**
   * A log that claims COMMITTED holds, in its last attempt, BEGIN and completion of D1, then of
   * D2, then of D3, and after them a COMMITTED entry that names the frozen record.
   */
  lemma CommitSafety(env: Env, raw: bytes)
    returns (events: seq<Entry>, b: seq<int>, c: seq<int>, i: int)
    requires Project(env, raw).terminalClaim == Some(Committed)
    ensures Events(env, CompleteLines(raw)) == Some(events)
    ensures |b| == |c| == 3
    ensures 0 <= AttemptStart(events, |events|) < b[0] < c[0] < b[1] < c[1] < b[2] < c[2] < i < |events|
    ensures StepDone(events, 1, b[0], c[0]) && StepDone(events, 2, b[1], c[1]) && StepDone(events, 3, b[2], c[2])
    ensures var prepared := events[AttemptStart(events, |events|)];
            && events[i].event == Committed
            && prepared.data.OperationData?
            && events[i].data == DigestData(env.sha(prepared.data.operation.record))
  {
    hide Feed;
    var states;
    events, states := AcceptedRun(env, raw);
    RunsKeepTrace(env, events, states, |events|);
    var a := AttemptStart(events, |events|);
    i :| i < |events| && CommittedAt(env, events, states[|events|].machine, a, i);
    b, c := StepsOf(events, a, i);
  }
}
