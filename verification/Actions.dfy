/**
 * The folds that later stages run over the re-scanned entries of one attempt: the quarantine and
 * set-aside claims, and the phase a durability fault is compared with. Both follow the machine.
 */
module Actions {
  import opened Prelude
  import opened Lines
  import opened Oplog
  import opened OplogRuns
  import opened OplogSafety
  import opened OplogAttempts
  import opened Rescan
  import opened OplogGrammar
  import FaultLog

  datatype Progress = NotClaimed | Begun | Finished

  /** What the log claims about the two recovery actions; `incarnation` is a D3 begun again since. */
  datatype Claims = Claims(quarantine: Progress, setAside: Progress, incarnation: bool)

  const NOTHING := Claims(NotClaimed, NotClaimed, false)

  function Claim(c: Claims, e: Entry): Claims {
    if e.event == QuarantineBegin then c.(quarantine := Begun, incarnation := false)
    else if e.event == QuarantineDone then c.(quarantine := Finished)
    else if e.event == Begin && e.step == Some(3) && c.quarantine == Finished then c.(incarnation := true)
    else if e.event == BeginCancelled && e.step == Some(3) then c.(incarnation := false)
    else if e.event == SetAsideBegin then c.(setAside := Begun)
    else if e.event == SetAsideDone then c.(setAside := Finished)
    else c
  }

  function ClaimsOf(events: seq<Entry>): Claims {
    if events == [] then NOTHING else Claim(ClaimsOf(events[..|events| - 1]), events[|events| - 1])
  }

  /** The claims of one readable attempt, by one pass over its re-scanned entries. */
  method ReadClaims(env: Env, raw: bytes, sha: Hash) returns (c: Claims)
    ensures c == ClaimsOf(Rescanned(env, Split(raw, NEWLINE), sha))
  {
    hide Rescanned, Split;
    var events, _ := EventsOf(env, raw, sha);
    var quarantine, setAside, incarnation := NotClaimed, NotClaimed, false;
    for i := 0 to |events|
      invariant Claims(quarantine, setAside, incarnation) == ClaimsOf(events[..i])
    {
      OneMoreClaim(events, i);
      var e := events[i];
      match e.event {
        case QuarantineBegin => quarantine, incarnation := Begun, false;
        case QuarantineDone => quarantine := Finished;
        case Begin => if e.step == Some(3) && quarantine == Finished { incarnation := true; }
        case BeginCancelled => if e.step == Some(3) { incarnation := false; }
        case SetAsideBegin => setAside := Begun;
        case SetAsideDone => setAside := Finished;
        case _ =>
      }
    }
    assert events[..|events|] == events;
    return Claims(quarantine, setAside, incarnation);
  }

  lemma OneMoreClaim(events: seq<Entry>, i: nat)
    requires i < |events|
    ensures ClaimsOf(events[..i + 1]) == Claim(ClaimsOf(events[..i]), events[i])
  {
    assert events[..i + 1][..i] == events[..i];
  }

  predicate IsQuarantine(e: Entry) { e.event == QuarantineBegin || e.event == QuarantineDone }

  predicate IsSetAside(e: Entry) { e.event == SetAsideBegin || e.event == SetAsideDone }

  /** What the last entry of a recovery action says of it. */
  function ProgressSaid(e: Entry): Progress {
    if e.event == QuarantineBegin || e.event == SetAsideBegin then Begun else Finished
  }

  /** A D3 that begins while the last quarantine is done. */
  predicate BeginsAnew(events: seq<Entry>, i: nat)
    requires i < |events|
  {
    && events[i].event == Begin && events[i].step == Some(3)
    && Last(events, i, IsQuarantine, ProgressSaid, NotClaimed) == Finished
  }

  /** It is taken back by its cancellation, and forgotten when the next quarantine begins. */
  predicate EndsIncarnation(e: Entry) {
    e.event == QuarantineBegin || (e.event == BeginCancelled && e.step == Some(3))
  }

  /** What the first `n` entries claim: each recovery action by its last entry, and whether D3 began anew since. */
  ghost predicate ClaimsSay(events: seq<Entry>, n: nat, c: Claims)
    requires n <= |events|
  {
    && c.quarantine == Last(events, n, IsQuarantine, ProgressSaid, NotClaimed)
    && c.setAside == Last(events, n, IsSetAside, ProgressSaid, NotClaimed)
    && (c.incarnation <==> exists i: nat :: i < n && BeginsAnew(events, i)
                                            && forall k | i < k < n :: !EndsIncarnation(events[k]))
  }

  lemma {:induction false} ClaimsAreWritten(events: seq<Entry>, n: nat)
    requires n <= |events|
    ensures ClaimsSay(events, n, ClaimsOf(events[..n]))
  {
    hide ClaimsOf, ClaimsSay, Claim;
    if n == 0 {
      NothingSaid(events);
    } else {
      ClaimsAreWritten(events, n - 1);
      OneMoreClaim(events, n - 1);
      ClaimSaysMore(events, n - 1, ClaimsOf(events[..n - 1]));
    }
  }

  lemma NothingSaid(events: seq<Entry>)
    ensures ClaimsSay(events, 0, ClaimsOf(events[..0]))
  {
    assert events[..0] == [];
  }

  lemma ClaimSaysMore(events: seq<Entry>, n: nat, c: Claims)
    requires n < |events| && ClaimsSay(events, n, c)
    ensures ClaimsSay(events, n + 1, Claim(c, events[n]))
  {
    hide Last, LastOf;
    var e := events[n];
    LastAfter(events, n, IsQuarantine, ProgressSaid, NotClaimed);
    LastAfter(events, n, IsSetAside, ProgressSaid, NotClaimed);
    IncarnationMore(events, n, c);
  }

  lemma IncarnationMore(events: seq<Entry>, n: nat, c: Claims)
    requires n < |events| && ClaimsSay(events, n, c)
    ensures Claim(c, events[n]).incarnation <==>
              exists i: nat :: i < n + 1 && BeginsAnew(events, i)
                               && forall k | i < k < n + 1 :: !EndsIncarnation(events[k])
  {
    hide Last, LastOf;
    var next := Claim(c, events[n]);
    if next.incarnation {
      if BeginsAnew(events, n) {
      } else {
        var i: nat :| i < n && BeginsAnew(events, i) && forall k | i < k < n :: !EndsIncarnation(events[k]);
        assert !EndsIncarnation(events[n]);
        assert i < n + 1;
      }
    }
    if i: nat :| i < n + 1 && BeginsAnew(events, i) && forall k | i < k < n + 1 :: !EndsIncarnation(events[k]) {
      if i < n {
        assert !EndsIncarnation(events[n]);
        assert forall k | i < k < n :: !EndsIncarnation(events[k]);
      }
    }
  }

  /** The modes an unfinished quarantine leaves: it runs, faulted, or the operation is given up. */
  predicate GivenUp(mode: Mode) {
    mode == Quarantining || mode == BlockedDurability || mode == Terminating || mode == TerminalClaim
    || mode == SettingAside || mode == ClearedTerminal
  }

  /** Is the set-aside under way, or stopped by a fault? */
  predicate SetAsideOpen(m: State) {
    m.mode == SettingAside || (m.mode == BlockedDurability && m.terminal == Some(FailedConsumed))
  }

  /** What the claims of an attempt say about its machine. */
  predicate ClaimsFollow(m: State, c: Claims) {
    && (c.setAside == Finished <==> m.mode == ClearedTerminal)
    && (c.setAside == Begun <==> SetAsideOpen(m))
    && (m.mode == Quarantining ==> c.quarantine == Begun)
    && (c.quarantine == Begun ==> GivenUp(m.mode) && m.level == 2 && m.terminal != Some(Committed))
    && (c.quarantine == Finished ==> m.level >= 2 && m.d3)
    && (c.incarnation ==> c.quarantine == Finished)
    && (c.quarantine == Finished && (m.level == 3 || m.pending == Some(3) || m.mode == PartialD3) ==> c.incarnation)
    && (c.incarnation && Resting(m.mode) && m.level == 2 ==> m.recovery == Some(RecoveryClaim(3, Absent)))
  }

  lemma CloseKeepsClaims(m: State, e: Entry, c: Claims)
    requires Inv(m) && ClaimsFollow(m, c)
    requires Closes(e.event) && e.step.Some? && (e.event == InterruptedRecovered ==> e.data.ResultData?)
    requires ApplyClose(m, e).Some?
    ensures ClaimsFollow(ApplyClose(m, e).value, Claim(c, e))
  {
  }

  lemma EndKeepsClaims(env: Env, m: State, e: Entry, c: Claims)
    requires Inv(m) && ClaimsFollow(m, c) && m.bound.Some?
    requires Ends(e.event) && (e.event == Committed ==> e.data.DigestData?)
    requires ApplyEnd(env, m, e).Some?
    ensures ClaimsFollow(ApplyEnd(env, m, e).value, Claim(c, e))
  {
  }

  lemma RepairKeepsClaims(m: State, e: Entry, c: Claims)
    requires Inv(m) && ClaimsFollow(m, c) && ApplyRepair(m, e).Some?
    ensures ClaimsFollow(ApplyRepair(m, e).value, Claim(c, e))
  {
  }

  lemma ApplyKeepsClaims(env: Env, m: State, e: Entry, c: Claims)
    requires Inv(m) && ClaimsFollow(m, c) && m.bound.Some? && ValidEntry(env, e)
    requires e.event != Prepared && e.event != TornTailAcknowledged
    requires ApplyStep(env, m, e).Some?
    ensures ClaimsFollow(ApplyStep(env, m, e).value, Claim(c, e))
  {
    hide ApplyClose, ApplyEnd, ApplyRepair;
    if e.event == Begin {
    } else if Closes(e.event) {
      hide Inv, ClaimsFollow;
      CloseKeepsClaims(m, e, c);
    } else if Ends(e.event) {
      hide Inv, ClaimsFollow;
      EndKeepsClaims(env, m, e, c);
    } else {
      hide Inv, ClaimsFollow;
      RepairKeepsClaims(m, e, c);
    }
  }

  lemma FeedKeepsClaims(env: Env, rs: RunState, e: Entry, c: Claims)
    requires Inv(rs.machine) && ClaimsFollow(rs.machine, c) && rs.machine.bound.Some?
    requires e.event != Prepared && Feed(env, rs, e).Some?
    ensures ClaimsFollow(Feed(env, rs, e).value.machine, Claim(c, e))
  {
    if e.event != TornTailAcknowledged {
      hide ApplyStep, Inv;
      ApplyKeepsClaims(env, rs.machine, e, c);
    }
  }

  /** The machine right after a PREPARED. */
  lemma FeedPrepared(env: Env, rs: RunState, e: Entry)
    requires e.event == Prepared && Feed(env, rs, e).Some?
    ensures var m := Feed(env, rs, e).value.machine;
            m.mode == Open && m.level == 0 && m.pending == None && m.terminal == None
  {
  }

  lemma OneMoreEvent(events: seq<Entry>, n: nat)
    requires 0 < n <= |events| && AttemptStart(events, n) >= 0
    ensures AttemptEvents(events, n) != [] && AttemptEvents(events, n)[|AttemptEvents(events, n)| - 1] == events[n - 1]
    ensures AttemptEvents(events, n)[..|AttemptEvents(events, n)| - 1]
            == if events[n - 1].event == Prepared then [] else AttemptEvents(events, n - 1)
  {
    var a := AttemptStart(events, n);
    if events[n - 1].event != Prepared {
      assert events[a..n][..n - 1 - a] == events[a..n - 1];
    }
  }

  /** At every point of every accepted log the claims of the attempt in hand follow the machine. */
  lemma {:induction false} RunsKeepClaims(env: Env, events: seq<Entry>, states: seq<RunState>, n: nat)
    requires IsRun(env, events, states) && n <= |events| && states[n].machine.bound.Some?
    ensures ClaimsFollow(states[n].machine, ClaimsOf(AttemptEvents(events, n)))
  {
    hide Feed, Inv, ClaimsFollow;
    StartLine(env, events, states, n);
    OneMoreEvent(events, n);
    RunsKeepInv(env, events, states, n - 1);
    assert Feed(env, states[n - 1], events[n - 1]) == Some(states[n]);
    if events[n - 1].event == Prepared {
      FeedPrepared(env, states[n - 1], events[n - 1]);
      PreparedFollows(states[n].machine, events[n - 1]);
    } else {
      HistoryStep(env, events, states, n - 1);
      RunsKeepClaims(env, events, states, n - 1);
      FeedKeepsClaims(env, states[n - 1], events[n - 1], ClaimsOf(AttemptEvents(events, n - 1)));
    }
  }

  lemma PreparedFollows(m: State, e: Entry)
    requires e.event == Prepared
    requires m.mode == Open && m.level == 0 && m.pending == None && m.terminal == None
    ensures ClaimsFollow(m, Claim(NOTHING, e)) && ClaimsOf([]) == NOTHING
  {
  }

  lemma {:induction false} AcknowledgementsClaimNothing(acks: seq<Entry>)
    requires forall e | e in acks :: e.event == TornTailAcknowledged
    ensures ClaimsOf(acks) == NOTHING
  {
    if acks != [] {
      assert acks[|acks| - 1] in acks;
      AcknowledgementsClaimNothing(acks[..|acks| - 1]);
    }
  }

  lemma {:induction false} ClaimsAfterAcknowledgements(acks: seq<Entry>, events: seq<Entry>)
    requires forall e | e in acks :: e.event == TornTailAcknowledged
    ensures ClaimsOf(acks + events) == ClaimsOf(events)
  {
    hide Claim;
    if events == [] {
      assert acks + events == acks;
      AcknowledgementsClaimNothing(acks);
    } else {
      var n := |events| - 1;
      assert (acks + events)[..|acks| + n] == acks + events[..n];
      ClaimsAfterAcknowledgements(acks, events[..n]);
    }
  }

  /**
   * The claims re-scanned from an accepted file: the set-aside is finished exactly in the cleared
   * mode and open exactly while it runs or after its fault, and an unfinished quarantine means that
   * nothing is open, interrupted, partial, recovered or committed.
   */
  lemma ActionsFollowMachine(env: Env, raw: bytes)
    returns (events: seq<Entry>, states: seq<RunState>)
    requires !env.lex([]).Value?
    requires Project(env, raw).status.Observed? && Project(env, raw).operationSha.Some?
    requires LastHasOwnDigest(Project(env, raw).history)
    ensures Events(env, CompleteLines(raw)) == Some(events) && IsRun(env, events, states)
    ensures Project(env, raw) == Shown(states[|events|].machine, |PhysicalLines(raw)|, false)
    ensures ClaimsFollow(states[|events|].machine,
                         ClaimsOf(Rescanned(env, Split(raw, NEWLINE), Project(env, raw).operationSha.value)))
  {
    hide Feed, Project, Run, Rescanned, Events, ClaimsFollow, AttemptEvents, LastHasOwnDigest;
    var acks;
    events, states, acks := RescanSeesTheAttempt(env, raw);
    RunsKeepClaims(env, events, states, |events|);
    ClaimsAfterAcknowledgements(acks, AttemptEvents(events, |events|));
  }

  /** No step begins and nothing is committed while a quarantine is unfinished. */
  lemma NothingUnderQuarantine(env: Env, events: seq<Entry>, states: seq<RunState>, i: nat)
    requires IsRun(env, events, states) && i < |events|
    requires events[i].event == Begin || events[i].event == Done || events[i].event == Committed
    ensures AttemptStart(events, i) >= 0 && ClaimsOf(AttemptEvents(events, i)).quarantine != Begun
  {
    assert Feed(env, states[i], events[i]) == Some(states[i + 1]);
    FeedNeedsMode(env, states[i], events[i]);
    hide Feed;
    StartLine(env, events, states, i);
    RunsKeepClaims(env, events, states, i);
  }

  lemma FeedNeedsMode(env: Env, rs: RunState, e: Entry)
    requires Feed(env, rs, e).Some? && (e.event == Begin || e.event == Done || e.event == Committed)
    ensures rs.machine.bound.Some? && !GivenUp(rs.machine.mode)
  {
  }

  // ---- the phase of a durability fault -----------------------------------------------------

  /** The phase in force after an entry. */
  function PhaseAfter(phase: Option<FaultLog.Phase>, e: Entry): Option<FaultLog.Phase> {
    if e.event == Begin && e.step.Some? then Some(FaultLog.AtStep(e.step.value))
    else if e.event == QuarantineBegin then Some(FaultLog.Quarantine)
    else if e.event == SetAsideBegin then Some(FaultLog.SetAside)
    else phase
  }

  function PhaseOf(events: seq<Entry>): Option<FaultLog.Phase> {
    if events == [] then None else PhaseAfter(PhaseOf(events[..|events| - 1]), events[|events| - 1])
  }

  /** The mode in which a fault may be logged tells the phase. */
  predicate PhaseFollows(m: State, phase: Option<FaultLog.Phase>) {
    && (m.mode == Interrupted ==> m.pending.Some? && phase == Some(FaultLog.AtStep(m.pending.value)))
    && (m.mode == Quarantining ==> phase == Some(FaultLog.Quarantine))
    && (m.mode == SettingAside ==> phase == Some(FaultLog.SetAside))
  }

  lemma ApplyKeepsPhase(env: Env, m: State, e: Entry, phase: Option<FaultLog.Phase>)
    requires PhaseFollows(m, phase) && m.bound.Some? && ValidEntry(env, e)
    requires e.event != Prepared && e.event != TornTailAcknowledged
    requires ApplyStep(env, m, e).Some?
    ensures PhaseFollows(ApplyStep(env, m, e).value, PhaseAfter(phase, e))
    ensures e.event == DurabilityFault ==> phase.Some? && e.step == FaultLog.ExpectedStep(phase.value)
  {
    if e.event == Begin {
    } else if Closes(e.event) {
    } else if Ends(e.event) {
    } else {
    }
  }

  lemma FeedKeepsPhase(env: Env, rs: RunState, e: Entry, phase: Option<FaultLog.Phase>)
    requires PhaseFollows(rs.machine, phase) && Feed(env, rs, e).Some? && rs.machine.bound.Some?
    requires e.event != Prepared
    ensures PhaseFollows(Feed(env, rs, e).value.machine, PhaseAfter(phase, e))
    ensures e.event == DurabilityFault ==> phase.Some? && e.step == FaultLog.ExpectedStep(phase.value)
  {
    if e.event != TornTailAcknowledged {
      hide ApplyStep;
      ApplyKeepsPhase(env, rs.machine, e, phase);
    }
  }

  lemma OneMorePhase(events: seq<Entry>)
    requires events != []
    ensures PhaseOf(events) == PhaseAfter(PhaseOf(events[..|events| - 1]), events[|events| - 1])
  {
  }

  lemma PhaseStarts(env: Env, rs: RunState, e: Entry, next: RunState, events: seq<Entry>)
    requires Feed(env, rs, e) == Some(next) && e.event == Prepared && events == [e]
    ensures PhaseFollows(next.machine, PhaseOf(events))
  {
    hide Feed;
    FeedPrepared(env, rs, e);
    assert events[..0] == [];
  }

  lemma {:induction false} RunsKeepPhase(env: Env, events: seq<Entry>, states: seq<RunState>, n: nat)
    requires IsRun(env, events, states) && n <= |events| && states[n].machine.bound.Some?
    ensures PhaseFollows(states[n].machine, PhaseOf(AttemptEvents(events, n)))
  {
    hide Feed, PhaseFollows, PhaseOf, PhaseAfter;
    StartLine(env, events, states, n);
    OneMoreEvent(events, n);
    assert Feed(env, states[n - 1], events[n - 1]) == Some(states[n]);
    if events[n - 1].event == Prepared {
      PhaseStarts(env, states[n - 1], events[n - 1], states[n], AttemptEvents(events, n));
    } else {
      HistoryStep(env, events, states, n - 1);
      RunsKeepPhase(env, events, states, n - 1);
      FeedKeepsPhase(env, states[n - 1], events[n - 1], PhaseOf(AttemptEvents(events, n - 1)));
      OneMorePhase(AttemptEvents(events, n));
    }
  }

  /** Every durability fault of a log names the step that belongs to the phase it happened in. */
  lemma FaultsNameTheirPhase(env: Env, events: seq<Entry>, states: seq<RunState>, i: nat)
    requires IsRun(env, events, states) && i < |events| && events[i].event == DurabilityFault
    ensures var phase := PhaseOf(AttemptEvents(events, i));
            phase.Some? && events[i].step == FaultLog.ExpectedStep(phase.value)
  {
    assert Feed(env, states[i], events[i]) == Some(states[i + 1]);
    assert states[i].machine.bound.Some?;
    hide Feed;
    RunsKeepPhase(env, events, states, i);
    FeedKeepsPhase(env, states[i], events[i], PhaseOf(AttemptEvents(events, i)));
  }
}
