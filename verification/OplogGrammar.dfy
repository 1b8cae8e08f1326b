/**
 * The operation log without a machine: which entry may come next, and what each field of a
 * projection says, told from the earlier entries alone. The reader accepts exactly the logs of this
 * grammar, and shows exactly these values.
 */
module OplogGrammar {
  import opened Prelude
  import opened Lines
  import opened Oplog
  import opened OplogRuns
  import opened OplogSafety
  import opened OplogReserve

  /** Index of the last of the first `n` entries with a property, -1 if there is none. */
  function LastOf(events: seq<Entry>, n: nat, p: Entry -> bool): (i: int)
    requires n <= |events|
    ensures -1 <= i < n && (i >= 0 ==> p(events[i]))
    ensures forall k | i < k < n :: !p(events[k])
  {
    if n == 0 then -1 else if p(events[n - 1]) then n - 1 else LastOf(events, n - 1, p)
  }

  /** What the last entry with a property says, or `none`. */
  function Last<T>(events: seq<Entry>, n: nat, p: Entry -> bool, said: Entry -> T, none: T): T
    requires n <= |events|
  {
    var i := LastOf(events, n, p);
    if i < 0 then none else said(events[i])
  }

  lemma LastAfter<T>(events: seq<Entry>, n: nat, p: Entry -> bool, said: Entry -> T, none: T)
    requires n < |events|
    ensures Last(events, n + 1, p, said, none)
            == if p(events[n]) then said(events[n]) else Last(events, n, p, said, none)
  {
  }

  // ---- what each field follows from -----------------------------------------------------------

  predicate IsAction(e: Entry) { e.event != TornTailAcknowledged }

  predicate IsPrepared(e: Entry) { e.event == Prepared }

  predicate IsBegin(e: Entry) { e.event == Begin }

  /** The four terminal claims. */
  predicate IsClaim(e: Entry) {
    e.event == Refused || e.event == Abandoned || e.event == FailedConsumed || e.event == Committed
  }

  /** DONE, or a recovery that found the step present. */
  predicate IsCompletion(e: Entry) {
    e.event == Done || (e.event == InterruptedRecovered && e.data == ResultData(Present))
  }

  function BoundSaid(e: Entry): Option<Bound> {
    if e.data.OperationData? then Some(Bound(e.data.operation, e.operationSha)) else None
  }

  function ModeSaid(e: Entry): Mode {
    match e.event
    case Prepared | Done | BeginCancelled | QuarantineDone => Open
    case Begin => Interrupted
    case InterruptedRecovered =>
      if e.data != ResultData(Partial) then Recovered else if e.step == Some(2) then PartialD2 else PartialD3
    case Refused | Abandoned | FailedConsumed | Committed => TerminalClaim
    case Terminated => Terminating
    case DurabilityFault => BlockedDurability
    case QuarantineBegin => Quarantining
    case SetAsideBegin => SettingAside
    case SetAsideDone => ClearedTerminal
    case TornTailAcknowledged => PreparationIncomplete
  }

  function CodeSaid(e: Entry): Code { e.code }

  function BootSaid(e: Entry): Option<string> { Some(e.bootId) }

  predicate MarksLevel(e: Entry) { e.event == Prepared || IsCompletion(e) }

  function LevelSaid(e: Entry): nat { if e.event == Prepared || e.step == None then 0 else e.step.value }

  function SourceSaid(e: Entry): Option<Source> {
    Some(if e.event == Prepared then FromPrepared else if e.event == Done then FromDone else FromRecovery)
  }

  predicate MarksPending(e: Entry) {
    || e.event == Prepared || e.event == Begin
    || e.event == Done || e.event == BeginCancelled || e.event == InterruptedRecovered
    || e.event == Abandoned || e.event == FailedConsumed
  }

  function PendingSaid(e: Entry): Option<Step> { if e.event == Begin then e.step else None }

  predicate MarksClaim(e: Entry) { e.event == Prepared || IsClaim(e) }

  function ClaimSaid(e: Entry): Option<Event> { if IsClaim(e) then Some(e.event) else None }

  predicate MarksD3(e: Entry) { e.event == Prepared || (e.event == Begin && e.step == Some(3)) }

  predicate MarksRecovery(e: Entry) {
    e.event == Prepared || e.event == Begin || e.event == QuarantineDone || e.event == InterruptedRecovered
  }

  function RecoverySaid(e: Entry): Option<RecoveryClaim> {
    if e.event == InterruptedRecovered && e.step.Some? && e.data.ResultData?
    then Some(RecoveryClaim(e.step.value, e.data.result)) else None
  }

  /** The mode the last action leaves; before the first one a log is empty or an incomplete preparation. */
  function ModeAt(events: seq<Entry>, n: nat): Mode
    requires n <= |events|
  {
    Last(events, n, IsAction, ModeSaid, if n == 0 then Empty else PreparationIncomplete)
  }

  /** Every field of the machine but the line numbers, from the entries. */
  predicate Says(events: seq<Entry>, n: nat, m: State)
    requires n <= |events|
  {
    && m.bound == Last(events, n, IsPrepared, BoundSaid, None)
    && m.mode == ModeAt(events, n)
    && m.level == Last(events, n, MarksLevel, LevelSaid, 0)
    && m.pending == Last(events, n, MarksPending, PendingSaid, None)
    && m.beginBoot == Last(events, n, IsBegin, BootSaid, None)
    && m.d3 == Last(events, n, MarksD3, IsBegin, false)
    && m.terminal == Last(events, n, MarksClaim, ClaimSaid, None)
    && m.lastCode == Last(events, n, IsAction, CodeSaid, LogObserved)
    && m.recovery == Last(events, n, MarksRecovery, RecoverySaid, None)
    && m.completedSource == Last(events, n, MarksLevel, SourceSaid, None)
  }

  /** The fields after one more action: each takes what the entry says of it, or stays. */
  predicate FieldStep(m: State, e: Entry, n: State) {
    && n.mode == ModeSaid(e)
    && n.level == (if MarksLevel(e) then LevelSaid(e) else m.level)
    && n.pending == (if MarksPending(e) then PendingSaid(e) else m.pending)
    && n.beginBoot == (if IsBegin(e) then BootSaid(e) else m.beginBoot)
    && n.d3 == (if MarksD3(e) then IsBegin(e) else m.d3)
    && n.terminal == (if MarksClaim(e) then ClaimSaid(e) else m.terminal)
    && n.recovery == (if MarksRecovery(e) then RecoverySaid(e) else m.recovery)
    && n.completedSource == (if MarksLevel(e) then SourceSaid(e) else m.completedSource)
  }

  lemma CloseFields(env: Env, m: State, e: Entry)
    requires Inv(m) && ValidEntry(env, e) && Closes(e.event) && ApplyClose(m, e).Some?
    ensures FieldStep(m, e, ApplyClose(m, e).value) && ApplyClose(m, e).value.bound == m.bound
  {
  }

  lemma EndFields(env: Env, m: State, e: Entry)
    requires Inv(m) && m.bound.Some? && ValidEntry(env, e) && Ends(e.event) && ApplyEnd(env, m, e).Some?
    ensures FieldStep(m, e, ApplyEnd(env, m, e).value) && ApplyEnd(env, m, e).value.bound == m.bound
  {
  }

  lemma RepairFields(env: Env, m: State, e: Entry)
    requires Inv(m) && ValidEntry(env, e) && ApplyRepair(m, e).Some?
    ensures FieldStep(m, e, ApplyRepair(m, e).value) && ApplyRepair(m, e).value.bound == m.bound
  {
  }

  lemma StepFields(env: Env, m: State, e: Entry)
    requires Inv(m) && m.bound.Some? && ValidEntry(env, e) && ApplyStep(env, m, e).Some?
    requires e.event != Prepared && e.event != TornTailAcknowledged
    ensures FieldStep(m, e, ApplyStep(env, m, e).value) && ApplyStep(env, m, e).value.bound == m.bound
  {
    hide ApplyClose, ApplyEnd, ApplyRepair, Inv;
    if e.event == Begin {
    } else if Closes(e.event) {
      hide FieldStep;
      CloseFields(env, m, e);
    } else if Ends(e.event) {
      hide FieldStep;
      EndFields(env, m, e);
    } else {
      hide FieldStep;
      RepairFields(env, m, e);
    }
  }

  /** One accepted entry moves the fields as it says; an acknowledgement moves none of an attempt. */
  predicate FieldsMove(m: State, e: Entry, n: State) {
    if IsAction(e) then
      && FieldStep(m, e, n) && n.lastCode == e.code && n.bound == (if IsPrepared(e) then BoundSaid(e) else m.bound)
      && n.bound.Some?
    else n == m.(last := n.last, mode := if m.bound.Some? then m.mode else PreparationIncomplete)
  }

  lemma FeedFields(env: Env, rs: RunState, e: Entry)
    requires Inv(rs.machine) && Feed(env, rs, e).Some?
    ensures FieldsMove(rs.machine, e, Feed(env, rs, e).value.machine)
  {
    hide ApplyStep, ModeSaid, MarksLevel, MarksPending, MarksClaim, MarksD3, MarksRecovery;
    if e.event == Prepared {
      PreparedFields(env, rs, e);
    } else if e.event != TornTailAcknowledged {
      StepFields(env, rs.machine, e);
    }
  }

  lemma PreparedFields(env: Env, rs: RunState, e: Entry)
    requires e.event == Prepared && Feed(env, rs, e).Some?
    ensures FieldStep(rs.machine, e, Feed(env, rs, e).value.machine)
  {
  }

  /** Every state of every accepted log says what its entries say. */
  lemma {:induction false} StatesSayTheirEntries(env: Env, events: seq<Entry>, states: seq<RunState>, n: nat)
    requires IsRun(env, events, states) && n <= |events|
    ensures Says(events, n, states[n].machine)
    ensures states[n].machine.bound.Some? <==> LastOf(events, n, IsAction) >= 0
  {
    hide Feed, Inv, FieldsMove, Says;
    if n == 0 {
      SaysAtStart(events);
    } else {
      StatesSayTheirEntries(env, events, states, n - 1);
      RunsKeepInv(env, events, states, n - 1);
      assert Feed(env, states[n - 1], events[n - 1]) == Some(states[n]);
      FeedFields(env, states[n - 1], events[n - 1]);
      SaysKept(events, n - 1, states[n - 1].machine, states[n].machine);
    }
  }

  lemma SaysAtStart(events: seq<Entry>)
    ensures Says(events, 0, INITIAL)
  {
  }

  lemma SaysKept(events: seq<Entry>, n: nat, m: State, m': State)
    requires n < |events| && Says(events, n, m) && FieldsMove(m, events[n], m')
    requires m.bound.Some? <==> LastOf(events, n, IsAction) >= 0
    ensures Says(events, n + 1, m')
    ensures m'.bound.Some? <==> LastOf(events, n + 1, IsAction) >= 0
  {
    hide ModeAt, Last, LastOf, MarksLevel, MarksPending, MarksClaim, MarksD3, MarksRecovery;
    hide LevelSaid, PendingSaid, ClaimSaid, RecoverySaid, SourceSaid, ModeSaid, BoundSaid;
    var e := events[n];
    if !IsAction(e) { OnlyActionsMark(e); }
    NextMode(events, n);
    LastAfter(events, n, IsPrepared, BoundSaid, None);
    LastAfter(events, n, MarksLevel, LevelSaid, 0);
    LastAfter(events, n, MarksPending, PendingSaid, None);
    LastAfter(events, n, IsBegin, BootSaid, None);
    LastAfter(events, n, MarksD3, IsBegin, false);
    LastAfter(events, n, MarksClaim, ClaimSaid, None);
    LastAfter(events, n, IsAction, CodeSaid, LogObserved);
    LastAfter(events, n, MarksRecovery, RecoverySaid, None);
    LastAfter(events, n, MarksLevel, SourceSaid, None);
  }

  lemma NextMode(events: seq<Entry>, n: nat)
    requires n < |events|
    ensures LastOf(events, n + 1, IsAction) == if IsAction(events[n]) then n else LastOf(events, n, IsAction)
    ensures ModeAt(events, n + 1)
            == if IsAction(events[n]) then ModeSaid(events[n])
               else if LastOf(events, n, IsAction) < 0 then PreparationIncomplete else ModeAt(events, n)
  {
    hide ModeSaid;
  }

  lemma OnlyActionsMark(e: Entry)
    requires e.event == TornTailAcknowledged
    ensures !IsPrepared(e) && !IsBegin(e) && !MarksLevel(e) && !MarksPending(e) && !MarksClaim(e)
            && !MarksD3(e) && !MarksRecovery(e)
  {
  }

  // ---- which entry may come next ----------------------------------------------------------------

  /** Nothing is open behind this action: a step may begin, or the attempt be closed. */
  predicate Rests(p: Entry) {
    || p.event == Prepared || p.event == Done || p.event == BeginCancelled || p.event == QuarantineDone
    || (p.event == InterruptedRecovered && p.data != ResultData(Partial))
  }

  /** A recovery that found step `k` half done. */
  predicate FoundPartial(p: Entry, k: Step) {
    p.event == InterruptedRecovered && p.data == ResultData(Partial) && p.step == Some(k)
  }

  /**
   * May `e` follow the action `p` in an attempt of `op`? `level` steps are completed, `d3` says whether
   * D3 ever began, `claimed` whether a terminal claim was made.
   */
  predicate MayFollow(env: Env, op: Operation, p: Entry, level: nat, d3: bool, claimed: bool, e: Entry) {
    match e.event
    case Begin => (Rests(p) || FoundPartial(p, 2)) && e.step.Some? && e.step.value == level + 1
    case Done => p.event == Begin && e.step == p.step
    case BeginCancelled => p.event == Begin && e.step == p.step && e.step != Some(1)
    case InterruptedRecovered =>
      p.event == Begin && e.step == p.step && (e.data == ResultData(Absent) || e.bootId != p.bootId)
    case Refused => Rests(p) && level == 0
    case Abandoned => (Rests(p) || p.event == Terminated) && level == 0
    case Terminated =>
      && e.code == OperatorTerminated
      && (|| Rests(p) || p.event == Begin || p.event == InterruptedRecovered || p.event == QuarantineBegin
          || (p.event == DurabilityFault && !claimed))
    case FailedConsumed =>
      || (p.event == Terminated && e.code == OperatorTerminated)
      || (Rests(p) && level >= 1 && e.code == TrustRevokedAfterConsumption)
    case Committed => Rests(p) && level == 3 && e.data == DigestData(env.sha(op.record))
    case DurabilityFault =>
      || (p.event == Begin && e.step == p.step)
      || ((p.event == QuarantineBegin || p.event == SetAsideBegin) && e.step == Some(3))
    case QuarantineBegin => FoundPartial(p, 3)
    case QuarantineDone => p.event == QuarantineBegin
    case SetAsideBegin => p.event == FailedConsumed && d3
    case SetAsideDone => p.event == SetAsideBegin
    case Prepared => false
    case TornTailAcknowledged => false
  }

  /** The machine is where the action `p` left it. */
  predicate Behind(m: State, p: Entry) {
    && m.mode == ModeSaid(p)
    && (p.event == Begin ==> m.pending == p.step && m.beginBoot == Some(p.bootId))
    && (IsClaim(p) ==> m.terminal == Some(p.event))
    && (FoundPartial(p, 3) ==> m.level == 2)
  }

  lemma CloseFollows(env: Env, m: State, p: Entry, e: Entry)
    requires Inv(m) && m.bound.Some? && Behind(m, p) && ValidEntry(env, p) && IsAction(p)
    requires Closes(e.event) && ValidEntry(env, e)
    ensures ApplyClose(m, e).Some?
            <==> MayFollow(env, m.bound.value.op, p, m.level, m.d3, m.terminal.Some?, e)
  {
  }

  lemma EndFollows(env: Env, m: State, p: Entry, e: Entry)
    requires Inv(m) && m.bound.Some? && Behind(m, p) && ValidEntry(env, p) && IsAction(p)
    requires Ends(e.event) && ValidEntry(env, e)
    ensures ApplyEnd(env, m, e).Some?
            <==> MayFollow(env, m.bound.value.op, p, m.level, m.d3, m.terminal.Some?, e)
  {
  }

  lemma RepairFollows(env: Env, m: State, p: Entry, e: Entry)
    requires Inv(m) && m.bound.Some? && Behind(m, p) && ValidEntry(env, p) && IsAction(p)
    requires e.event != Begin && !Closes(e.event) && !Ends(e.event) && ValidEntry(env, e)
    requires e.event != Prepared && e.event != TornTailAcknowledged
    ensures ApplyRepair(m, e).Some?
            <==> MayFollow(env, m.bound.value.op, p, m.level, m.d3, m.terminal.Some?, e)
  {
    hide ApplyRepair, MayFollow, Behind, Inv, ValidEntry;
    if e.event == DurabilityFault {
      FaultFollows(env, m, p, e);
    } else {
      CleaningFollows(env, m, p, e);
    }
  }

  lemma FaultFollows(env: Env, m: State, p: Entry, e: Entry)
    requires Inv(m) && m.bound.Some? && Behind(m, p) && ValidEntry(env, p) && IsAction(p)
    requires e.event == DurabilityFault && ValidEntry(env, e)
    ensures ApplyRepair(m, e).Some?
            <==> MayFollow(env, m.bound.value.op, p, m.level, m.d3, m.terminal.Some?, e)
  {
  }

  lemma CleaningFollows(env: Env, m: State, p: Entry, e: Entry)
    requires Inv(m) && m.bound.Some? && Behind(m, p) && ValidEntry(env, p) && IsAction(p)
    requires e.event == QuarantineBegin || e.event == QuarantineDone || e.event == SetAsideBegin
             || e.event == SetAsideDone
    requires ValidEntry(env, e)
    ensures ApplyRepair(m, e).Some?
            <==> MayFollow(env, m.bound.value.op, p, m.level, m.d3, m.terminal.Some?, e)
  {
  }

  lemma StepFollows(env: Env, m: State, p: Entry, e: Entry)
    requires Inv(m) && m.bound.Some? && Behind(m, p) && ValidEntry(env, p) && IsAction(p) && ValidEntry(env, e)
    requires e.event != Prepared && e.event != TornTailAcknowledged
    ensures ApplyStep(env, m, e).Some?
            <==> MayFollow(env, m.bound.value.op, p, m.level, m.d3, m.terminal.Some?, e)
  {
    hide ApplyClose, ApplyEnd, ApplyRepair;
    if e.event == Begin {
    } else if Closes(e.event) {
      CloseFollows(env, m, p, e);
    } else if Ends(e.event) {
      EndFollows(env, m, p, e);
    } else {
      RepairFollows(env, m, p, e);
    }
  }

  // ---- whole logs ---------------------------------------------------------------------------------

  /** The steps an event may carry: one of the three, D3 alone, none, or whatever a fault reports. */
  predicate StepFits(e: Entry) {
    match e.event
    case Begin | Done | BeginCancelled | InterruptedRecovered => e.step.Some?
    case QuarantineBegin | QuarantineDone | SetAsideBegin | SetAsideDone => e.step == Some(3)
    case Prepared | Refused | Abandoned | Terminated | FailedConsumed | Committed | TornTailAcknowledged =>
      e.step == None
    case DurabilityFault => true
  }

  /** What an entry may carry besides: an operation is its own name, D1 is never found half done. */
  predicate DataFits(env: Env, e: Entry) {
    match e.data
    case NoData =>
      && e.event != Prepared && e.event != InterruptedRecovered && e.event != TornTailAcknowledged
      && e.event != Committed && e.event != DurabilityFault
    case OperationData(op) =>
      && e.event == Prepared
      && e == Entry(env.sha(env.encode(op)), op.attempt, op.historicalRoot, op.historicalVersion, op.bootId, e.event,
                    e.step, e.code, e.data)
    case ResultData(result) => e.event == InterruptedRecovered && (e.step == Some(1) ==> result != Partial)
    case DigestData(_) => e.event == TornTailAcknowledged || e.event == Committed || e.event == DurabilityFault
  }

  /** Is this an entry at all, whatever came before it? */
  predicate IsEntry(env: Env, e: Entry) {
    e.attempt >= 1 && e.rootVersion >= 1 && StepFits(e) && DataFits(env, e)
  }

  lemma ValidIsEntry(env: Env, e: Entry)
    ensures ValidEntry(env, e) <==> IsEntry(env, e)
  {
  }

  /** May `e` come after the accepted entries `before`? */
  predicate MayCome(env: Env, before: seq<Entry>, e: Entry) {
    var n := |before|;
    var a, l := LastOf(before, n, IsPrepared), LastOf(before, n, IsAction);
    if a < 0 || l < 0 then e.event == Prepared || e.event == TornTailAcknowledged
    else
      var prepared, p := before[a], before[l];
      if e.event == Prepared then
        && (p.event == Refused || p.event == Abandoned)
        && prepared.data.OperationData? && e.data.OperationData?
        && e.data.operation.attempt > prepared.data.operation.attempt
        && e.data.operation.childAgentId == prepared.data.operation.childAgentId
      else
        && e.operationSha == prepared.operationSha && e.attempt == prepared.attempt
        && (e.event == TornTailAcknowledged
            || (prepared.data.OperationData?
                && MayFollow(env, prepared.data.operation, p, Last(before, n, MarksLevel, LevelSaid, 0),
                             Last(before, n, MarksD3, IsBegin, false),
                             Last(before, n, MarksClaim, ClaimSaid, None).Some?, e)))
  }

  /** The lines that the first `n` entries take. */
  function LinesOf(events: seq<Entry>, n: nat): nat
    requires n <= |events|
  {
    if n == 0 then 0 else LinesOf(events, n - 1) + Width(events[n - 1])
  }

  /** How many of the first `n` entries are of this event and end behind line 56. */
  function Used(events: seq<Entry>, n: nat, event: Event): nat
    requires n <= |events|
  {
    if n == 0 then 0
    else Used(events, n - 1, event) + if events[n - 1].event == event && LinesOf(events, n) > 56 then 1 else 0
  }

  /** How many entries of an event may end behind line 56. */
  function Share(event: Event): nat {
    match event
    case Terminated | FailedConsumed | Abandoned | SetAsideBegin | SetAsideDone => 1
    case TornTailAcknowledged => 2
    case _ => 0
  }

  /** There is a line for `e` after the entries `before`. */
  predicate HasLine(before: seq<Entry>, e: Entry) {
    LinesOf(before, |before|) + Width(e) <= 56 || Used(before, |before|, e.event) < Share(e.event)
  }

  /** The logs of the grammar. */
  predicate IsLog(env: Env, events: seq<Entry>) {
    forall n | 0 <= n < |events| ::
      IsEntry(env, events[n]) && MayCome(env, events[..n], events[n]) && HasLine(events[..n], events[n])
  }

  /** The reserve counts what the entries used. */
  lemma {:induction false} CountsAreUsed(env: Env, events: seq<Entry>, states: seq<RunState>, n: nat)
    requires IsRun(env, events, states) && n <= |events|
    ensures states[n].position == LinesOf(events, n)
    ensures forall event :: Count(states[n].counts, event) == Used(events, n, event)
  {
    hide Feed, Reserve, WithinReserve, CountsGrow, ReserveInv;
    if n > 0 {
      CountsAreUsed(env, events, states, n - 1);
      RunsKeepReserve(env, events, states, n - 1);
      assert Feed(env, states[n - 1], events[n - 1]) == Some(states[n]);
      FeedCounts(env, states[n - 1], events[n - 1]);
      OneMoreCounted(states[n - 1], events[n - 1], states[n]);
    }
  }

  lemma OneMoreCounted(rs: RunState, e: Entry, n: RunState)
    requires ReserveInv(rs) && CountsGrow(rs, e, n)
    ensures n.position == rs.position + Width(e)
    ensures forall event {:trigger Count(n.counts, event)} :: Count(n.counts, event)
              == Count(rs.counts, event) + (if n.position > 56 && event == e.event then 1 else 0)
  {
    CountsKept(rs, e, n);
  }

  lemma ReserveIsShare(counts: Counts, event: Event, position: nat)
    ensures Reserve(counts, event, position).Some? <==> position <= 56 || Count(counts, event) < Share(event)
  {
  }

  lemma LastIsLast(events: seq<Entry>, n: nat, p: Entry -> bool, l: nat)
    requires l < n <= |events| && p(events[l]) && forall k | l < k < n :: !p(events[k])
    ensures LastOf(events, n, p) == l
  {
  }

  lemma BehindLast(events: seq<Entry>, n: nat, m: State, l: nat)
    requires l < n <= |events| && l == LastOf(events, n, IsAction) && Says(events, n, m) && Inv(m)
    ensures Behind(m, events[l])
  {
    hide LastOf, ModeSaid;
    var p := events[l];
    forall k | l < k < n ensures !IsBegin(events[k]) && !MarksPending(events[k]) && !MarksClaim(events[k]) {
      OnlyActionsMark(events[k]);
    }
    if p.event == Begin {
      LastIsLast(events, n, IsBegin, l);
      LastIsLast(events, n, MarksPending, l);
    }
    if IsClaim(p) { LastIsLast(events, n, MarksClaim, l); }
    if FoundPartial(p, 3) { PartialSaid(p); }
  }

  lemma PartialSaid(p: Entry)
    requires FoundPartial(p, 3)
    ensures ModeSaid(p) == PartialD3
  {
  }

  lemma EntryIsValid(env: Env, events: seq<Entry>, states: seq<RunState>, i: nat)
    requires IsRun(env, events, states) && i < |events|
    ensures ValidEntry(env, events[i])
  {
    hide Feed, Inv, ValidEntry;
    StepFacts(env, events, states, i);
  }

  lemma RunLength(env: Env, events: seq<Entry>, states: seq<RunState>)
    requires IsRun(env, events, states)
    ensures |states| == |events| + 1
  {
  }

  /** What the machine carries of the attempt, in terms of its entries. */
  lemma AttemptSays(env: Env, events: seq<Entry>, states: seq<RunState>)
    requires IsRun(env, events, states)
    ensures var n, m := |events|, states[|events|].machine;
            var a, l := LastOf(events, n, IsPrepared), LastOf(events, n, IsAction);
            && (m.bound.Some? <==> a >= 0) && (a >= 0 <==> l >= 0)
            && (m.bound.Some? ==>
                  && ValidEntry(env, events[a]) && ValidEntry(env, events[l]) && Behind(m, events[l])
                  && events[a].data.OperationData?
                  && m.bound == Some(Bound(events[a].data.operation, events[a].operationSha))
                  && events[a].data.operation.attempt == events[a].attempt)
  {
    hide Feed, Inv, IsRun, IsPath, Behind, LastOf;
    RunLength(env, events, states);
    var n := |events|;
    StatesSayTheirEntries(env, events, states, n);
    RunsKeepInv(env, events, states, n);
    var a, l := LastOf(events, n, IsPrepared), LastOf(events, n, IsAction);
    if l >= 0 {
      BehindLast(events, n, states[n].machine, l);
      EntryIsValid(env, events, states, l);
      EntryIsValid(env, events, states, a);
    }
  }

  /** The reader takes an entry exactly if the grammar and the reserve allow it here. */
  lemma FeedIsGrammar(env: Env, events: seq<Entry>, states: seq<RunState>, e: Entry)
    requires IsRun(env, events, states)
    ensures Feed(env, states[|events|], e).Some?
            <==> IsEntry(env, e) && MayCome(env, events, e) && HasLine(events, e)
  {
    hide IsEntry, IsRun, IsPath, Reserve, Inv, Says, LinesOf;
    hide Used, LastOf, Last, ApplyStep, MayFollow, Behind, ValidEntry;
    RunLength(env, events, states);
    AttemptSays(env, events, states);
    CountsAreUsed(env, events, states, |events|);
    var rs := states[|events|];
    ReserveIsShare(rs.counts, e.event, rs.position + Width(e));
    ValidIsEntry(env, e);
    if ValidEntry(env, e) { ApplyIsGrammar(env, events, states, e); }
  }

  lemma ApplyIsGrammar(env: Env, events: seq<Entry>, states: seq<RunState>, e: Entry)
    requires IsRun(env, events, states) && ValidEntry(env, e)
    ensures var rs := states[|events|];
            Apply(env, rs.machine, e, rs.position + Width(e), e.event == TornTailAcknowledged).Some?
            <==> MayCome(env, events, e)
  {
    hide IsRun, IsPath, Inv, ApplyStep, MayFollow, Behind, LastOf, Last;
    RunLength(env, events, states);
    AttemptSays(env, events, states);
    StatesSayTheirEntries(env, events, states, |events|);
    RunsKeepInv(env, events, states, |events|);
    var m, l := states[|events|].machine, LastOf(events, |events|, IsAction);
    if m.bound.Some? {
      var p := events[l];
      if e.event == Prepared {
        MayPrepareAfter(m, p, e.data.operation);
      } else if e.event != TornTailAcknowledged {
        StepFollows(env, m, p, e);
      }
    }
  }

  lemma MayPrepareAfter(m: State, p: Entry, op: Operation)
    requires Inv(m) && m.bound.Some? && Behind(m, p) && IsAction(p)
    ensures MayPrepare(m, op)
            <==> && (p.event == Refused || p.event == Abandoned)
                 && op.attempt > m.bound.value.op.attempt && op.childAgentId == m.bound.value.op.childAgentId
  {
  }

  /** Every run is a log of the grammar. */
  lemma RunsAreLogs(env: Env, events: seq<Entry>, states: seq<RunState>)
    requires IsRun(env, events, states)
    ensures IsLog(env, events)
  {
    hide Feed, IsEntry, MayCome, HasLine;
    forall n | 0 <= n < |events|
      ensures IsEntry(env, events[n]) && MayCome(env, events[..n], events[n]) && HasLine(events[..n], events[n])
    {
      RunPrefix(env, events, states, n);
      assert Feed(env, states[n], events[n]) == Some(states[n + 1]);
      FeedIsGrammar(env, events[..n], states[..n + 1], events[n]);
    }
  }

  /** Every log of the grammar is a run. */
  lemma {:induction false} LogsRun(env: Env, events: seq<Entry>) returns (states: seq<RunState>)
    requires IsLog(env, events)
    ensures IsRun(env, events, states)
  {
    hide Feed, IsEntry, MayCome, HasLine;
    if events == [] {
      states := [START];
    } else {
      var n := |events| - 1;
      var before, e := events[..n], events[n];
      assert forall k | 0 <= k < n :: before[k] == events[k] && before[..k] == events[..k];
      states := LogsRun(env, before);
      FeedIsGrammar(env, before, states, e);
      AppendEntry(env, before, states, e, Feed(env, states[n], e).value);
      states := states + [Feed(env, states[n], e).value];
      assert before + [e] == events;
    }
  }
}
