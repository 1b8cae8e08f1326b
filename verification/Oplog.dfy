/**
 * The operation log of one child: the entries, the protocol machine that folds them, the
 * reserve of the last eight lines, and the projection of a whole file of bytes.
 *
 * SHA-256, the encoding of an operation and the lexical reader are parameters (`Env`), so
 * everything proved here holds for every reader and every hash.
 */
module Oplog {
  import opened Prelude
  import opened Lines

  type Hash = string

  const MAX_LINES := 64
  const MAX_LOG := MAX_LINE * MAX_LINES
  const NEWLINE: byte := 10
  /** Lines after this one belong to the reserve. */
  const RESERVE_AFTER := 56

  type Step = k: int | 1 <= k <= 3 witness 1

  datatype Event =
    | Prepared
    | Begin
    | Done
    | BeginCancelled
    | InterruptedRecovered
    | TornTailAcknowledged
    | Refused
    | Abandoned
    | Terminated
    | FailedConsumed
    | Committed
    | DurabilityFault
    | QuarantineBegin
    | QuarantineDone
    | SetAsideBegin
    | SetAsideDone

  datatype Recovery = Absent | Present | Partial

  datatype Code =
    | LogObserved
    | OperatorTerminated
    | TrustRevokedAfterConsumption
    | OtherCode(text: string)
    | LogCorrupt
    | LimitReached
    | LogFull
    | TornTail

  /** A frozen operation: the fields the log reader looks at, and the rest as `payload`. */
  datatype Operation = Operation(
    labId: string,
    childAgentId: string,
    attempt: int,
    bootId: string,
    historicalRoot: Hash,
    historicalVersion: int,
    record: bytes,
    payload: bytes)

  datatype Data =
    | NoData
    | OperationData(operation: Operation)
    | ResultData(result: Recovery)
    | DigestData(digest: Hash)

  datatype Entry = Entry(
    operationSha: Hash,
    attempt: int,
    rootSha: Hash,
    rootVersion: int,
    bootId: string,
    event: Event,
    step: Option<Step>,
    code: Code,
    data: Data)

  /** What the strict reader makes of one line. */
  datatype Lexed =
    | Value(entry: Entry)
    | NotEntry      // canonical JSON that has not the shape of an entry
    | Malformed     // not canonical JSON
    | TooLarge      // beyond the depth or integer limit

  datatype Env = Env(lex: bytes -> Lexed, sha: bytes -> Hash, encode: Operation -> bytes)
  {
    function Digest(op: Operation): Hash { sha(encode(op)) }
  }

  /** The bindings of `validate_entry` that are visible on the typed entry. */
  predicate ValidEntry(env: Env, e: Entry) {
    && e.attempt >= 1
    && e.rootVersion >= 1
    && match e.event {
         case Prepared =>
           && e.data.OperationData?
           && e.step == None
           && e.data.operation.attempt >= 1
           && e.data.operation.historicalVersion >= 1
           && env.Digest(e.data.operation) == e.operationSha
           && e.data.operation.attempt == e.attempt
           && e.data.operation.bootId == e.bootId
           && e.data.operation.historicalRoot == e.rootSha
           && e.data.operation.historicalVersion == e.rootVersion
         case InterruptedRecovered =>
           && e.data.ResultData?
           && e.step.Some?
           && !(e.step == Some(1) && e.data.result == Partial)
         case TornTailAcknowledged => e.data.DigestData? && e.step == None
         case Committed => e.data.DigestData? && e.step == None
         case DurabilityFault => e.data.DigestData?
         case Begin => e.data.NoData? && e.step.Some?
         case Done => e.data.NoData? && e.step.Some?
         case BeginCancelled => e.data.NoData? && e.step.Some?
         case QuarantineBegin => e.data.NoData? && e.step == Some(3)
         case QuarantineDone => e.data.NoData? && e.step == Some(3)
         case SetAsideBegin => e.data.NoData? && e.step == Some(3)
         case SetAsideDone => e.data.NoData? && e.step == Some(3)
         case Refused => e.data.NoData? && e.step == None
         case Abandoned => e.data.NoData? && e.step == None
         case Terminated => e.data.NoData? && e.step == None
         case FailedConsumed => e.data.NoData? && e.step == None
       }
  }

  datatype Mode =
    | Empty
    | PreparationIncomplete
    | Open
    | Interrupted
    | Recovered
    | PartialD2
    | PartialD3
    | Quarantining
    | Terminating
    | BlockedDurability
    | TerminalClaim
    | SettingAside
    | ClearedTerminal

  datatype Source = FromPrepared | FromDone | FromRecovery

  datatype AttemptSummary = AttemptSummary(
    operationSha: Hash,
    attempt: int,
    startLine: nat,
    endLine: nat,
    terminal: Option<Event>)

  /** The frozen operation of an attempt and the digest its entries repeat. */
  datatype Bound = Bound(op: Operation, sha: Hash)

  /** What the last INTERRUPTED_RECOVERED said, until a BEGIN or a finished quarantine clears it. */
  datatype RecoveryClaim = RecoveryClaim(step: Step, result: Recovery)

  /**
   * The fields of the machine. The fields the source sets and clears together are one field
   * here: operation, child and digest are `bound`, step and result of a recovery `recovery`.
   */
  datatype State = State(
    bound: Option<Bound>,
    mode: Mode,
    level: nat,
    pending: Option<Step>,
    beginBoot: Option<string>,
    d3: bool,
    terminal: Option<Event>,
    history: seq<AttemptSummary>,
    start: nat,
    last: nat,
    lastCode: Code,
    recovery: Option<RecoveryClaim>,
    completedSource: Option<Source>)
  {
    /** The summary of the attempt in hand. */
    function Summary(): AttemptSummary
      requires bound.Some?
    {
      AttemptSummary(bound.value.sha, bound.value.op.attempt, start, last, terminal)
    }

    /** Every attempt so far, the one in hand last. */
    function FullHistory(): seq<AttemptSummary> {
      if bound.Some? then history + [Summary()] else history
    }

    /** Does the entry name the attempt in hand? */
    predicate Names(e: Entry) {
      bound.Some? && e.operationSha == bound.value.sha && e.attempt == bound.value.op.attempt
    }
  }

  const INITIAL := State(None, Empty, 0, None, None, false, None, [], 0, 0, LogObserved, None, None)

  /** Between steps, with nothing to repair. */
  predicate Resting(mode: Mode) { mode == Open || mode == Recovered }

  function ApplyBegin(m: State, k: Step, bootId: string): Option<State> {
    if (Resting(m.mode) || m.mode == PartialD2) && k == m.level + 1 then
      Some(m.(mode := Interrupted, pending := Some(k), beginBoot := Some(bootId), d3 := m.d3 || k == 3,
              recovery := None))
    else None
  }

  /** DONE, BEGIN_CANCELLED and INTERRUPTED_RECOVERED answer the pending BEGIN. */
  predicate Closes(event: Event) { event == Done || event == BeginCancelled || event == InterruptedRecovered }

  function ApplyClose(m: State, e: Entry): Option<State>
    requires Closes(e.event) && e.step.Some? && (e.event == InterruptedRecovered ==> e.data.ResultData?)
  {
    var k := e.step.value;
    if m.mode != Interrupted || e.step != m.pending then None
    else if e.event == Done then
      Some(m.(level := k, mode := Open, completedSource := Some(FromDone), pending := None))
    else if e.event == BeginCancelled then
      if k == 1 then None else Some(m.(mode := Open, pending := None))
    else if e.data.result != Absent && Some(e.bootId) == m.beginBoot then None
    else
      var r := m.(recovery := Some(RecoveryClaim(k, e.data.result)), pending := None);
      match e.data.result
      case Present => Some(r.(level := k, mode := Recovered, completedSource := Some(FromRecovery)))
      case Absent => Some(r.(mode := Recovered))
      case Partial => Some(r.(mode := if k == 2 then PartialD2 else PartialD3))
  }

  predicate MayTerminate(mode: Mode) {
    mode == Open || mode == Recovered || mode == Interrupted || mode == PartialD2 || mode == PartialD3
    || mode == Quarantining || mode == BlockedDurability
  }

  /** The events that end an attempt. */
  predicate Ends(event: Event) {
    event == Refused || event == Abandoned || event == Terminated || event == FailedConsumed || event == Committed
  }

  function ApplyEnd(env: Env, m: State, e: Entry): Option<State>
    requires m.bound.Some? && Ends(e.event) && (e.event == Committed ==> e.data.DigestData?)
  {
    match e.event
    case Refused =>
      if Resting(m.mode) && m.level == 0 then Some(m.(mode := TerminalClaim, terminal := Some(Refused))) else None
    case Abandoned =>
      if (Resting(m.mode) || m.mode == Terminating) && m.level == 0 then
        Some(m.(mode := TerminalClaim, terminal := Some(Abandoned), pending := None))
      else None
    case Terminated =>
      if MayTerminate(m.mode) && m.terminal == None && e.code == OperatorTerminated then
        Some(m.(mode := Terminating))
      else None
    case FailedConsumed =>
      if (m.mode == Terminating && e.code == OperatorTerminated)
         || (Resting(m.mode) && m.level >= 1 && e.code == TrustRevokedAfterConsumption) then
        Some(m.(mode := TerminalClaim, terminal := Some(FailedConsumed), pending := None))
      else None
    case Committed =>
      if Resting(m.mode) && m.level == 3 && e.data.digest == env.sha(m.bound.value.op.record) then
        Some(m.(mode := TerminalClaim, terminal := Some(Committed)))
      else None
  }

  /** Faults, quarantine and set-aside. */
  function ApplyRepair(m: State, e: Entry): Option<State> {
    match e.event
    case DurabilityFault =>
      if (m.mode == Interrupted && e.step == m.pending)
         || ((m.mode == Quarantining || m.mode == SettingAside) && e.step == Some(3)) then
        Some(m.(mode := BlockedDurability))
      else None
    case QuarantineBegin =>
      if m.mode == PartialD3 && m.level == 2 then Some(m.(mode := Quarantining)) else None
    case QuarantineDone =>
      if m.mode == Quarantining then Some(m.(mode := Open, recovery := None)) else None
    case SetAsideBegin =>
      if m.mode == TerminalClaim && m.terminal == Some(FailedConsumed) && m.d3 then
        Some(m.(mode := SettingAside))
      else None
    case SetAsideDone =>
      if m.mode == SettingAside then Some(m.(mode := ClearedTerminal)) else None
    case _ => None
  }

  /** One event of the attempt in hand, other than PREPARED and acknowledgements. */
  function ApplyStep(env: Env, m: State, e: Entry): Option<State>
    requires ValidEntry(env, e) && m.bound.Some?
  {
    if e.event == Begin then ApplyBegin(m, e.step.value, e.bootId)
    else if Closes(e.event) then ApplyClose(m, e)
    else if Ends(e.event) then ApplyEnd(env, m, e)
    else ApplyRepair(m, e)
  }

  /** An acknowledged fragment: it only advances the attempt in hand, or marks a preamble. */
  function ApplyAcknowledgement(m: State, e: Entry, position: nat): Option<State> {
    if m.bound == None then Some(m.(mode := PreparationIncomplete, last := position))
    else if m.Names(e) then Some(m.(last := position))
    else None
  }

  /** May `op` open a new attempt? Only first, or after a refusal or an abandonment. */
  predicate MayPrepare(m: State, op: Operation) {
    m.bound.Some? ==>
      && m.mode == TerminalClaim
      && (m.terminal == Some(Refused) || m.terminal == Some(Abandoned))
      && op.attempt > m.bound.value.op.attempt
      && op.childAgentId == m.bound.value.op.childAgentId
  }

  function ApplyPrepared(m: State, e: Entry, position: nat): Option<State>
    requires e.data.OperationData?
  {
    var op := e.data.operation;
    if MayPrepare(m, op) then
      Some(State(Some(Bound(op, e.operationSha)), Open, 0, None, m.beginBoot, false, None, m.FullHistory(),
                 position, position, e.code, None, Some(FromPrepared)))
    else None
  }

  /** One entry ending at physical line `position`; None is the reader's `FormatError`. */
  function Apply(env: Env, m: State, e: Entry, position: nat, acknowledged: bool): Option<State>
    requires ValidEntry(env, e)
  {
    if e.event == TornTailAcknowledged then
      if acknowledged then ApplyAcknowledgement(m, e, position) else None
    else if e.event == Prepared then ApplyPrepared(m, e, position)
    else if !m.Names(e) then None
    else
      match ApplyStep(env, m, e)
      case None => None
      case Some(n) => Some(n.(last := position, lastCode := e.code))
  }

  // ---- the reserve ------------------------------------------------------------------------

  const RESERVE: set<Event> :=
    {Terminated, FailedConsumed, Abandoned, SetAsideBegin, SetAsideDone, TornTailAcknowledged}

  type Counts = map<Event, nat>

  function Count(counts: Counts, event: Event): nat { if event in counts then counts[event] else 0 }

  /** Past line 56 only reserve events, each at most once, acknowledgements at most twice. */
  function Reserve(counts: Counts, event: Event, position: nat): Option<Counts> {
    if position <= RESERVE_AFTER then Some(counts)
    else if event !in RESERVE then None
    else
      var n := Count(counts, event) + 1;
      if n <= (if event == TornTailAcknowledged then 2 else 1) then Some(counts[event := n]) else None
  }

  // ---- one log ----------------------------------------------------------------------------

  /** The machine, the reserve counters and the number of lines consumed. */
  datatype RunState = RunState(machine: State, counts: Counts, position: nat)

  const START := RunState(INITIAL, map[], 0)

  /** Reserve, then machine, for an entry that ends `width` lines further on. */
  function Take(env: Env, rs: RunState, e: Entry, width: nat, acknowledged: bool): Option<RunState>
    requires ValidEntry(env, e)
  {
    var position := rs.position + width;
    match Reserve(rs.counts, e.event, position)
    case None => None
    case Some(counts) =>
      match Apply(env, rs.machine, e, position, acknowledged)
      case None => None
      case Some(m) => Some(RunState(m, counts, position))
  }

  /** Does `e` acknowledge exactly the torn bytes `fragment`? */
  predicate Acknowledges(env: Env, e: Entry, fragment: bytes) {
    ValidEntry(env, e) && e.event == TornTailAcknowledged && e.data.digest == env.sha(fragment)
  }

  /** An entry and the lines it takes, or the code of the error. */
  datatype Reading = Read(state: RunState, width: nat) | Refuse(code: Code)

  /** Take a valid entry that spans `width` lines. */
  function TakeOrRefuse(env: Env, rs: RunState, e: Entry, width: nat, acknowledged: bool): Reading
    requires ValidEntry(env, e)
    ensures TakeOrRefuse(env, rs, e, width, acknowledged).Read? ==>
              TakeOrRefuse(env, rs, e, width, acknowledged).width == width
  {
    match Take(env, rs, e, width, acknowledged)
    case None => Refuse(LogCorrupt)
    case Some(next) => Read(next, width)
  }

  /** The first entry of `lines`: a line that lexes, or a torn fragment with its acknowledgement. */
  function Next(env: Env, rs: RunState, lines: seq<bytes>): Reading
    requires lines != []
    ensures Next(env, rs, lines).Read? ==> 1 <= Next(env, rs, lines).width <= |lines|
  {
    match env.lex(lines[0])
    case TooLarge => Refuse(LimitReached)
    case NotEntry => Refuse(LogCorrupt)
    case Value(e) => if ValidEntry(env, e) then TakeOrRefuse(env, rs, e, 1, false) else Refuse(LogCorrupt)
    case Malformed =>
      if |lines| == 1 then Refuse(LogCorrupt)
      else
        (match env.lex(lines[1])
         case TooLarge => Refuse(LimitReached)
         case Value(e) =>
           if Acknowledges(env, e, lines[0]) then TakeOrRefuse(env, rs, e, 2, true) else Refuse(LogCorrupt)
         case _ => Refuse(LogCorrupt))
  }

  /** The complete lines of a log, read from the front. */
  function Run(env: Env, rs: RunState, lines: seq<bytes>): Result<RunState, Code>
    decreases |lines|
  {
    if lines == [] then Ok(rs)
    else
      match Next(env, rs, lines)
      case Refuse(code) => Err(code)
      case Read(next, width) => Run(env, next, lines[width..])
  }

  datatype Status = Observed(mode: Mode) | StatusTornTail | StatusCorrupt

  datatype LogProjection = LogProjection(
    status: Status,
    operationSha: Option<Hash>,
    attempt: Option<int>,
    lastCompletedStep: Option<nat>,
    pendingStep: Option<Step>,
    d3Started: bool,
    terminalClaim: Option<Event>,
    physicalLines: nat,
    code: Code,
    history: seq<AttemptSummary>,
    recovery: Option<RecoveryClaim>,
    lastCompletedSource: Option<Source>)

  function Corrupt(lines: nat, code: Code): LogProjection {
    LogProjection(StatusCorrupt, None, None, None, None, false, None, lines, code, [], None, None)
  }

  /** The mode a reader is shown: partial recoveries and set-aside terminals are folded away. */
  function ShownMode(mode: Mode): Mode {
    match mode
    case PartialD2 => Recovered
    case PartialD3 => Recovered
    case ClearedTerminal => TerminalClaim
    case _ => mode
  }

  function Shown(m: State, count: nat, torn: bool): LogProjection {
    LogProjection(
      if torn then StatusTornTail else Observed(ShownMode(m.mode)),
      if m.bound.Some? then Some(m.bound.value.sha) else None,
      if m.bound.Some? then Some(m.bound.value.op.attempt) else None,
      if m.bound.Some? then Some(m.level) else None,
      m.pending,
      m.d3,
      if torn then None else m.terminal,
      count,
      if torn then TornTail else m.lastCode,
      m.FullHistory(),
      m.recovery,
      m.completedSource)
  }

  /** The lines of a file without the empty part after its last newline. */
  function PhysicalLines(raw: bytes): seq<bytes> {
    var parts := Split(raw, NEWLINE);
    if parts[|parts| - 1] == [] then parts[..|parts| - 1] else parts
  }

  predicate IsTorn(raw: bytes) {
    var parts := Split(raw, NEWLINE);
    parts[|parts| - 1] != []
  }

  /** The lines that end with a newline. */
  function CompleteLines(raw: bytes): seq<bytes> {
    var parts := Split(raw, NEWLINE);
    parts[..|parts| - 1]
  }

  predicate WithinLimits(raw: bytes) {
    var lines := PhysicalLines(raw);
    |lines| <= MAX_LINES && forall i | 0 <= i < |lines| :: |lines[i]| + 1 <= MAX_LINE
  }

  /** The projection of a whole file, torn or not. */
  function Project(env: Env, raw: bytes): LogProjection {
    var count := |PhysicalLines(raw)|;
    if |raw| > MAX_LOG then Corrupt(0, LogFull)
    else if !WithinLimits(raw) then Corrupt(count, LogFull)
    else
      match Run(env, START, CompleteLines(raw))
      case Err(code) => Corrupt(count, code)
      case Ok(rs) => Shown(rs.machine, count, IsTorn(raw))
  }

  // ---- the reader as it is written ---------------------------------------------------------

  /** The mutable machine. */
  class Machine {
    var bound: Option<Bound>
    var mode: Mode
    var level: nat
    var pending: Option<Step>
    var beginBoot: Option<string>
    var d3: bool
    var terminal: Option<Event>
    var history: seq<AttemptSummary>
    var start: nat
    var last: nat
    var lastCode: Code
    var recovery: Option<RecoveryClaim>
    var completedSource: Option<Source>

    function View(): State
      reads this
    {
      State(bound, mode, level, pending, beginBoot, d3, terminal, history, start, last, lastCode, recovery,
            completedSource)
    }

    constructor ()
      ensures View() == INITIAL
    {
      bound, mode, level, pending, beginBoot := None, Empty, 0, None, None;
      d3, terminal, history, start, last, lastCode := false, None, [], 0, 0, LogObserved;
      recovery, completedSource := None, None;
    }

    /** PREPARED: the progress of the attempt starts afresh, all but the boot of the last BEGIN. */
    method Restart()
      modifies `mode, `level, `pending, `terminal, `d3, `recovery, `completedSource
      ensures View() == old(View()).(mode := Open, level := 0, pending := None, terminal := None, d3 := false,
                                     recovery := None, completedSource := Some(FromPrepared))
    {
      mode, level, pending := Open, 0, None;
      terminal, d3 := None, false;
      recovery, completedSource := None, Some(FromPrepared);
    }

    /** Append the summary of the attempt in hand, if there is one. */
    method PushSummary()
      modifies `history
      ensures View() == old(View()).(history := old(View()).FullHistory())
    {
      if bound.Some? {
        history := history + [AttemptSummary(bound.value.sha, bound.value.op.attempt, start, last, terminal)];
      }
    }

    /** PREPARED: close the summary of a refused or abandoned attempt and open the next. */
    method Prepare(e: Entry, position: nat) returns (ok: bool)
      requires e.data.OperationData?
      modifies this
      ensures ok == ApplyPrepared(old(View()), e, position).Some?
      ensures ok ==> View() == ApplyPrepared(old(View()), e, position).value
    {
      hide State.FullHistory, State.Summary;
      var next := e.data.operation;
      if bound.Some? {
        if !(mode == TerminalClaim && (terminal == Some(Refused) || terminal == Some(Abandoned))) { return false; }
        if !(next.attempt > bound.value.op.attempt && next.childAgentId == bound.value.op.childAgentId) {
          return false;
        }
      }
      PushSummary();
      Restart();
      bound := Some(Bound(next, e.operationSha));
      start, last, lastCode := position, position, e.code;
      return true;
    }

    /** TORN_TAIL_ACKNOWLEDGED, directly after the fragment it names. */
    method Acknowledge(e: Entry, position: nat) returns (ok: bool)
      modifies `mode, `last
      ensures ok == ApplyAcknowledgement(old(View()), e, position).Some?
      ensures ok ==> View() == ApplyAcknowledgement(old(View()), e, position).value
    {
      if bound == None {
        mode := PreparationIncomplete;
      } else if !(e.operationSha == bound.value.sha && e.attempt == bound.value.op.attempt) {
        return false;
      }
      last := position;
      return true;
    }

    /** BEGIN of the next step. */
    method Start(k: Step, bootId: string) returns (ok: bool)
      modifies `mode, `pending, `beginBoot, `d3, `recovery
      ensures ok == ApplyBegin(old(View()), k, bootId).Some?
      ensures ok ==> View() == ApplyBegin(old(View()), k, bootId).value
    {
      if !((mode == Open || mode == Recovered || mode == PartialD2) && k == level + 1) { return false; }
      mode, pending, beginBoot := Interrupted, Some(k), Some(bootId);
      d3 := d3 || k == 3;
      recovery := None;
      return true;
    }

    /** DONE, BEGIN_CANCELLED and INTERRUPTED_RECOVERED share the guard on the pending step. */
    method Close(e: Entry) returns (ok: bool)
      requires Closes(e.event) && e.step.Some? && (e.event == InterruptedRecovered ==> e.data.ResultData?)
      modifies `mode, `level, `pending, `completedSource, `recovery
      ensures ok == ApplyClose(old(View()), e).Some?
      ensures ok ==> View() == ApplyClose(old(View()), e).value
    {
      var k := e.step.value;
      if !(mode == Interrupted && Some(k) == pending) { return false; }
      if e.event == Done {
        level, mode := k, Open;
        completedSource := Some(FromDone);
      } else if e.event == BeginCancelled {
        if !(k == 2 || k == 3) { return false; }
        mode := Open;
      } else {
        var result := e.data.result;
        recovery := Some(RecoveryClaim(k, result));
        if result != Absent && Some(e.bootId) == beginBoot { return false; }
        if result == Present {
          level, mode := k, Recovered;
          completedSource := Some(FromRecovery);
        } else if result == Absent {
          mode := Recovered;
        } else {
          mode := if k == 2 then PartialD2 else PartialD3;
        }
      }
      pending := None;
      return true;
    }

    /** REFUSED, ABANDONED, TERMINATED, FAILED_CONSUMED and COMMITTED. */
    method End(env: Env, e: Entry) returns (ok: bool)
      requires bound.Some? && Ends(e.event) && (e.event == Committed ==> e.data.DigestData?)
      modifies `mode, `terminal, `pending
      ensures ok == ApplyEnd(env, old(View()), e).Some?
      ensures ok ==> View() == ApplyEnd(env, old(View()), e).value
    {
      match e.event {
        case Refused =>
          if !(Resting(mode) && level == 0) { return false; }
          mode, terminal := TerminalClaim, Some(Refused);
        case Abandoned =>
          if !((Resting(mode) || mode == Terminating) && level == 0) { return false; }
          mode, terminal := TerminalClaim, Some(Abandoned);
          pending := None;
        case Terminated =>
          if !MayTerminate(mode) { return false; }
          if !(terminal == None && e.code == OperatorTerminated) { return false; }
          mode := Terminating;
        case FailedConsumed =>
          if !(e.code == OperatorTerminated || e.code == TrustRevokedAfterConsumption) { return false; }
          if mode == Terminating {
            if e.code != OperatorTerminated { return false; }
          } else {
            if !(Resting(mode) && level >= 1) { return false; }
            if e.code != TrustRevokedAfterConsumption { return false; }
          }
          mode, terminal, pending := TerminalClaim, Some(FailedConsumed), None;
        case Committed =>
          if !(Resting(mode) && level == 3) { return false; }
          if e.data.digest != env.sha(bound.value.op.record) { return false; }
          mode, terminal := TerminalClaim, Some(Committed);
      }
      return true;
    }

    /** DURABILITY_FAULT, quarantine and set-aside. */
    method Repair(e: Entry) returns (ok: bool)
      modifies `mode, `recovery
      ensures ok == ApplyRepair(old(View()), e).Some?
      ensures ok ==> View() == ApplyRepair(old(View()), e).value
    {
      match e.event {
        case DurabilityFault =>
          if !(mode == Interrupted || mode == Quarantining || mode == SettingAside) { return false; }
          if e.step != (if mode == Interrupted then pending else Some(3)) { return false; }
          mode := BlockedDurability;
        case QuarantineBegin =>
          if !(mode == PartialD3 && level == 2) { return false; }
          mode := Quarantining;
        case QuarantineDone =>
          if mode != Quarantining { return false; }
          mode := Open;
          recovery := None;
        case SetAsideBegin =>
          if !(mode == TerminalClaim && terminal == Some(FailedConsumed) && d3) { return false; }
          mode := SettingAside;
        case SetAsideDone =>
          if mode != SettingAside { return false; }
          mode := ClearedTerminal;
        case _ => return false;
      }
      return true;
    }

    /** The events of the attempt in hand. */
    method Advance(env: Env, e: Entry) returns (ok: bool)
      requires ValidEntry(env, e) && bound.Some?
      modifies this
      ensures ok == ApplyStep(env, old(View()), e).Some?
      ensures ok ==> View() == ApplyStep(env, old(View()), e).value
    {
      if e.event == Begin {
        ok := Start(e.step.value, e.bootId);
      } else if Closes(e.event) {
        ok := Close(e);
      } else if Ends(e.event) {
        ok := End(env, e);
      } else {
        ok := Repair(e);
      }
    }

    /** Apply one entry; the state after a refusal is never looked at. */
    method ApplyEntry(env: Env, e: Entry, position: nat, acknowledged: bool) returns (ok: bool)
      requires ValidEntry(env, e)
      modifies this
      ensures ok == Apply(env, old(View()), e, position, acknowledged).Some?
      ensures ok ==> View() == Apply(env, old(View()), e, position, acknowledged).value
    {
      if e.event == TornTailAcknowledged {
        if !acknowledged { return false; }
        ok := Acknowledge(e, position);
      } else if e.event == Prepared {
        ok := Prepare(e, position);
      } else {
        if bound == None { return false; }
        if !(e.operationSha == bound.value.sha && e.attempt == bound.value.op.attempt) { return false; }
        ok := Advance(env, e);
        if !ok { return; }
        last, lastCode := position, e.code;
      }
    }
  }

  /** Count one line against the reserve. */
  method CountReserve(counts: Counts, event: Event, position: nat) returns (ok: bool, next: Counts)
    ensures ok == Reserve(counts, event, position).Some?
    ensures ok ==> next == Reserve(counts, event, position).value
  {
    next := counts;
    if position <= RESERVE_AFTER { return true, next; }
    if event !in RESERVE { return false, next; }
    next := next[event := (if event in next then next[event] else 0) + 1];
    ok := next[event] <= (if event == TornTailAcknowledged then 2 else 1);
  }

  /** Count and apply one valid entry that ends at `position`. */
  method TakeEntry(env: Env, machine: Machine, reserve: Counts, e: Entry, position: nat, ghost width: nat,
                   acknowledged: bool)
    returns (ok: bool, counts: Counts)
    requires ValidEntry(env, e) && position >= width
    modifies machine
    ensures ok == Take(env, RunState(old(machine.View()), reserve, position - width), e, width, acknowledged).Some?
    ensures ok ==> RunState(machine.View(), counts, position)
                   == Take(env, RunState(old(machine.View()), reserve, position - width), e, width, acknowledged).value
  {
    ok, counts := CountReserve(reserve, e.event, position);
    if !ok { return; }
    ok := machine.ApplyEntry(env, e, position, acknowledged);
  }

  /** One turn of the reader's loop: the entry at `index`, of the `limit` complete lines. */
  method ReadEntry(env: Env, machine: Machine, reserve: Counts, lines: seq<bytes>, index: nat, limit: nat)
    returns (error: Option<Code>, counts: Counts, next: nat)
    requires index < limit <= |lines|
    modifies machine
    ensures var reading := Next(env, RunState(old(machine.View()), reserve, index), lines[index..limit]);
            match error
            case Some(code) => reading == Refuse(code)
            case None => index < next <= limit
                         && reading == Read(RunState(machine.View(), counts, next), next - index)
  {
    hide Take, ValidEntry;
    counts, next := reserve, index;
    ghost var rest := lines[index..limit];
    assert rest[0] == lines[index];
    match env.lex(lines[index]) {
      case TooLarge => return Some(LimitReached), counts, next;
      case NotEntry => return Some(LogCorrupt), counts, next;
      case Value(e) =>
        if !ValidEntry(env, e) { return Some(LogCorrupt), counts, next; }
        var ok;
        ok, counts := TakeEntry(env, machine, reserve, e, index + 1, 1, false);
        if !ok { return Some(LogCorrupt), counts, next; }
        return None, counts, index + 1;
      case Malformed =>
        if index + 1 == limit { return Some(LogCorrupt), counts, next; }
        assert rest[1] == lines[index + 1];
        match env.lex(lines[index + 1]) {
          case TooLarge => return Some(LimitReached), counts, next;
          case NotEntry => return Some(LogCorrupt), counts, next;
          case Malformed => return Some(LogCorrupt), counts, next;
          case Value(e) =>
            if !Acknowledges(env, e, lines[index]) { return Some(LogCorrupt), counts, next; }
            var ok;
            ok, counts := TakeEntry(env, machine, reserve, e, index + 2, 2, true);
            if !ok { return Some(LogCorrupt), counts, next; }
            return None, counts, index + 2;
        }
    }
  }

  /** One turn of the loop, or its end. */
  lemma RunTurn(env: Env, rs: RunState, lines: seq<bytes>)
    ensures lines == [] ==> Run(env, rs, lines) == Ok(rs)
    ensures lines != [] && Next(env, rs, lines).Refuse? ==> Run(env, rs, lines) == Err(Next(env, rs, lines).code)
    ensures lines != [] && Next(env, rs, lines).Read? ==>
              Run(env, rs, lines) == Run(env, Next(env, rs, lines).state, lines[Next(env, rs, lines).width..])
  {
  }

  /** `project_log`: an index over the lines, stepping over a torn fragment with its acknowledgement. */
  method ProjectLog(env: Env, raw: bytes) returns (r: LogProjection)
    ensures r == Project(env, raw)
  {
    hide Next, Run, Shown, Split;
    if |raw| > MAX_LOG { return Corrupt(0, LogFull); }
    var lines := Split(raw, NEWLINE);
    var torn := lines[|lines| - 1] != [];
    var limit := |lines| - 1;
    if !torn { lines := lines[..limit]; }
    var count := |lines|;
    ghost var complete := CompleteLines(raw);
    assert lines[..limit] == complete && lines == PhysicalLines(raw);
    if count > MAX_LINES || exists i | 0 <= i < count :: |lines[i]| + 1 > MAX_LINE {
      return Corrupt(count, LogFull);
    }
    var machine := new Machine();
    var reserve: Counts := map[];
    var index := 0;
    while index < limit
      invariant 0 <= index <= limit <= count
      invariant fresh(machine)
      invariant Run(env, START, complete) == Run(env, RunState(machine.View(), reserve, index), lines[index..limit])
    {
      ghost var rs := RunState(machine.View(), reserve, index);
      RunTurn(env, rs, lines[index..limit]);
      var error, counts, next := ReadEntry(env, machine, reserve, lines, index, limit);
      if error.Some? { return Corrupt(count, error.value); }
      assert lines[index..limit][next - index..] == lines[next..limit];
      reserve, index := counts, next;
    }
    RunTurn(env, RunState(machine.View(), reserve, index), []);
    return Shown(machine.View(), count, torn);
  }
}
