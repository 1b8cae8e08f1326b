/**
 * The external fault log of a lab: faults, terminations linked to an OPERATION_LOG fault, and
 * set-asides linked to a termination. The reader of one line is a parameter, as is the digest.
 */
module FaultLog {
  import opened Prelude
  import opened Lines
  import Oplog

  type Hash = Oplog.Hash
  type Step = Oplog.Step

  const MAX_FAULT_LINES := 4096
  const MAX_FAULT_LINE := 16384
  const MAX_LEDGER := 16384

  datatype Scope = LabScope | OperationScope

  datatype Phase =
    | Prepare
    | AtStep(k: Step)
    | Quarantine
    | SetAside
    | Terminate
    | Acknowledge
    | TrustInstall

  /** The step a phase belongs to. */
  function ExpectedStep(phase: Phase): Option<Step> {
    match phase
    case AtStep(k) => Some(k)
    case Quarantine => Some(3)
    case SetAside => Some(3)
    case _ => None
  }

  datatype Resource =
    | LedgerDirectory | OperationLogDirectory | LabDirectory | IndividualsDirectory | HomeDirectory
    | AdmissionDirectory | EnvelopeDirectory | QuarantineDirectory | TrustDirectory
    | Ledger | OperationLog | AdmissionEntry | EnvelopeEntry | TrustPolicy | TrustHistory
    | HomeEntry
  {
    predicate IsDirectory() {
      LedgerDirectory? || OperationLogDirectory? || LabDirectory? || IndividualsDirectory? || HomeDirectory?
      || AdmissionDirectory? || EnvelopeDirectory? || QuarantineDirectory? || TrustDirectory?
    }

    predicate IsFile() {
      Ledger? || OperationLog? || AdmissionEntry? || EnvelopeEntry? || TrustPolicy? || TrustHistory?
    }

    /** Resources of which a lab has one: their path is empty. */
    predicate IsSingleton() {
      (IsDirectory() || IsFile()) && !HomeDirectory? && !QuarantineDirectory? && !OperationLog?
      && !AdmissionEntry? && !EnvelopeEntry?
    }

    predicate IsTrust() { TrustPolicy? || TrustHistory? || TrustDirectory? }
  }

  datatype Target = Target(resource: Resource, directory: bool, path: string)

  datatype Origin = Supervisor | Controller | Trust
  datatype Failure = Admit | Write | ShortWrite | Fsync | Rename | ConsumptionIoUnknown
  datatype FaultCode = DurabilityUnknown | OperatorTerminated | OperatorSetAside | OtherCode(text: string)

  datatype LedgerStatus =
    | AbsentInValidLedger
    | ConsumedByOperation
    | NoOperationEntry
    | OperationEntryPresent
    | LegacyAmbiguity
    | Conflict

  datatype LedgerEntry = LedgerEntry(issuerId: string, envelopeId: Hash, envelopeSha: Hash, operation: Hash)

  datatype Observation = Observation(
    status: LedgerStatus,
    operation: Hash,
    operationEntries: int,
    legacyEntries: int,
    ledgerEntries: int,
    ledgerSha: Hash,
    entry: Option<LedgerEntry>)

  datatype Finding = Finding(
    status: LedgerStatus,
    operationEntries: int,
    observationSha: Hash,
    observation: Option<Observation>)

  datatype Details =
    | FaultDetails(origin: Origin, failure: Failure, target: Option<Target>)
    | TerminationDetails(faultSha: Hash, finding: Finding)
    | SetAsideDetails(terminationSha: Hash)

  datatype FaultEvent = Fault | TerminatedExternally | SetAsideBegin | SetAsideDone

  datatype FaultEntry = FaultEntry(
    embedded: bool,     // schema version 1: the ledger observation is embedded
    labId: string,
    scope: Scope,
    child: Option<string>,
    operation: Option<Hash>,
    attempt: Option<int>,
    event: FaultEvent,
    step: Option<Step>,
    phase: Phase,
    code: FaultCode,
    details: Details)

  datatype FaultEnv = FaultEnv(
    lex: bytes -> Option<FaultEntry>,
    digest: FaultEntry -> Hash,
    observationDigest: Observation -> Hash)

  // ---- one line -------------------------------------------------------------------------------

  /** `_fault_entry_shape`, the lexical forms of names and digests left to the reader of the line. */
  predicate Shape(e: FaultEntry, labId: string) {
    && e.labId == labId
    && (match e.scope
        case LabScope =>
          e.event == Fault && e.phase == TrustInstall && e.step == None
          && e.child == None && e.operation == None && e.attempt == None
        case OperationScope =>
          e.phase != TrustInstall && e.child.Some? && e.operation.Some? && e.attempt.Some? && e.attempt.value >= 1)
    && e.step == ExpectedStep(e.phase)
  }

  predicate ComponentChar(c: char) {
    'A' <= c <= 'Z' || 'a' <= c <= 'z' || '0' <= c <= '9' || c == '_' || c == '.' || c == ':' || c == '-'
  }

  predicate SafeComponent(part: string) {
    part != "" && part != "." && part != ".." && forall i | 0 <= i < |part| :: ComponentChar(part[i])
  }

  predicate SafePath(path: string) {
    var parts := Split(path, '/');
    path == "" || forall i | 0 <= i < |parts| :: SafeComponent(parts[i])
  }

  function Decimal(n: nat): string {
    if n < 10 then [('0' as int + n) as char] else Decimal(n / 10) + Decimal(n % 10)
  }

  /** `_target`: the path a resource may have in an entry. */
  predicate TargetAllowed(t: Target, e: FaultEntry) {
    && (t.resource.IsDirectory() ==> t.directory)
    && (t.resource.IsFile() ==> !t.directory)
    && SafePath(t.path)
    && (t.resource.IsSingleton() ==> t.path == "")
    && (e.scope.LabScope? <==> t.resource.IsTrust())
    && (e.scope.OperationScope? && e.child.Some? && e.operation.Some? && e.attempt.Some? && e.attempt.value >= 1 ==>
          (match t.resource
           case OperationLog => t.path == e.child.value + ".log"
           case HomeDirectory => t.path == e.child.value
           case HomeEntry => e.child.value + "/" <= t.path
           case AdmissionEntry => t.path == e.child.value + ".json"
           case EnvelopeEntry => e.child.value + "/" <= t.path
           case QuarantineDirectory =>
             || t.path == "" || t.path == e.operation.value
             || t.path == e.operation.value + "/" + Decimal(e.attempt.value)
             || t.path == e.operation.value + "/terminal"
           case _ => true))
  }

  /** The data of a FAULT line. */
  predicate FaultAllowed(e: FaultEntry) {
    && e.details.FaultDetails?
    && e.code == DurabilityUnknown
    && (match e.details.origin
        case Supervisor => e.phase == AtStep(3) && e.details.failure == Admit && e.details.target == None
        case Trust =>
          && e.details.target.Some? && TargetAllowed(e.details.target.value, e)
          && e.phase == AtStep(1) && e.details.failure == ConsumptionIoUnknown
          && e.details.target.value == Target(Ledger, false, "")
        case Controller =>
          && e.details.target.Some? && TargetAllowed(e.details.target.value, e)
          && (e.details.failure == Write || e.details.failure == ShortWrite
              || e.details.failure == Fsync || e.details.failure == Rename))
  }

  /** `_observation`. */
  predicate ObservationAllowed(o: Observation, operation: Hash, status: LedgerStatus, count: int) {
    && o.status == status && o.operation == operation
    && o.operationEntries == count && o.legacyEntries >= 0
    && count + o.legacyEntries <= o.ledgerEntries <= MAX_LEDGER
    && (if count == 0 then o.entry == None && o.legacyEntries == 0
        else o.entry.Some? && o.entry.value.operation == operation)
  }

  /** `_finding`: 0 or 1 ledger lines, with the whole observation embedded in version 1. */
  predicate FindingAllowed(env: FaultEnv, e: FaultEntry)
    requires e.details.TerminationDetails? && e.operation.Some?
  {
    var f := e.details.finding;
    if e.embedded then
      && ((f.status == NoOperationEntry && f.operationEntries == 0)
          || (f.status == OperationEntryPresent && f.operationEntries == 1))
      && f.observation.Some?
      && ObservationAllowed(f.observation.value, e.operation.value, f.status, f.operationEntries)
      && env.observationDigest(f.observation.value) == f.observationSha
    else
      && ((f.status == AbsentInValidLedger && f.operationEntries == 0)
          || (f.status == ConsumedByOperation && f.operationEntries == 1))
      && f.observation == None
  }

  // ---- the claims -----------------------------------------------------------------------------

  datatype FaultClaim = FaultClaim(
    entrySha: Hash,
    scope: Scope,
    operation: Option<Hash>,
    child: Option<string>,
    attempt: Option<int>,
    step: Option<Step>,
    phase: Phase,
    origin: Origin,
    failure: Failure,
    target: Option<Target>)

  datatype TerminationClaim = TerminationClaim(
    entrySha: Hash,
    faultSha: Hash,
    operation: Hash,
    child: string,
    attempt: int,
    consumed: bool,     // FAILED_CONSUMED, otherwise ABANDONED
    embedded: bool)     // the finding is embedded, otherwise a reference

  datatype ActionState = Pending | Faulted | Finished

  /** The accumulators of the reader. */
  datatype FaultState = FaultState(
    faults: seq<FaultClaim>,
    terms: seq<TerminationClaim>,
    bindings: map<Hash, (string, int)>,
    termByOp: map<Hash, (TerminationClaim, FaultClaim)>,
    actions: map<Hash, ActionState>,
    faultByHash: map<Hash, FaultClaim>,
    faultyChildren: map<string, Hash>)

  const NO_FAULTS := FaultState([], [], map[], map[], map[], map[], map[])

  predicate IsLogFault(f: FaultClaim) { f.target.Some? && f.target.value.resource == OperationLog }

  /** Faults of a directory that a set-aside of `child` would have to rename in. */
  predicate BlocksDirectory(f: FaultClaim, child: string) {
    && f.origin == Controller && (f.failure == Fsync || f.failure == Rename) && f.target.Some?
    && (|| f.target.value.resource == IndividualsDirectory
        || (f.target.value.resource == QuarantineDirectory && f.target.value.path == "")
        || (f.target.value.resource == HomeDirectory && f.target.value.path == child))
  }

  predicate DirectoryBlocks(faults: seq<FaultClaim>, child: string) {
    exists i | 0 <= i < |faults| :: BlocksDirectory(faults[i], child)
  }

  /** An operation keeps its child and attempt, and a child with a faulty log keeps its operation. */
  function Bind(s: FaultState, e: FaultEntry): Option<FaultState>
    requires e.operation.Some? ==> e.child.Some? && e.attempt.Some?
  {
    if e.operation == None then Some(s)
    else
      var op, child, binding := e.operation.value, e.child.value, (e.child.value, e.attempt.value);
      if (op in s.bindings && s.bindings[op] != binding)
         || (child in s.faultyChildren && s.faultyChildren[child] != op) then None
      else Some(s.(bindings := s.bindings[op := binding]))
  }

  function ClaimOf(env: FaultEnv, e: FaultEntry): FaultClaim
    requires e.details.FaultDetails?
  {
    FaultClaim(env.digest(e), e.scope, e.operation, e.child, e.attempt, e.step, e.phase, e.details.origin,
               e.details.failure, e.details.target)
  }

  function TakeFault(env: FaultEnv, s: FaultState, e: FaultEntry): Option<FaultState>
    requires e.operation.Some? ==> e.child.Some? && e.attempt.Some?
  {
    if e.operation.Some? && e.phase == SetAside && e.operation.value in s.termByOp
       && !(e.operation.value in s.actions && s.actions[e.operation.value] == Pending) then None
    else if !FaultAllowed(e) then None
    else
      var claim := ClaimOf(env, e);
      Some(s.(faults := s.faults + [claim],
              faultByHash := s.faultByHash[claim.entrySha := claim],
              faultyChildren := if IsLogFault(claim) && e.operation.Some?
                                then s.faultyChildren[e.child.value := e.operation.value] else s.faultyChildren,
              actions := if e.operation.Some? && e.operation.value in s.actions
                            && s.actions[e.operation.value] == Pending
                         then s.actions[e.operation.value := Faulted] else s.actions))
  }

  function TakeTermination(env: FaultEnv, s: FaultState, e: FaultEntry): Option<FaultState> {
    if !(e.details.TerminationDetails? && e.scope == OperationScope && e.phase == Terminate
         && e.code == OperatorTerminated && e.operation.Some? && e.child.Some? && e.attempt.Some?
         && e.operation.value !in s.termByOp && e.details.faultSha in s.faultByHash) then None
    else
      var fault := s.faultByHash[e.details.faultSha];
      if !(fault.operation == e.operation && fault.child == e.child && fault.attempt == e.attempt
           && IsLogFault(fault) && FindingAllowed(env, e)) then None
      else
        var claim := TerminationClaim(env.digest(e), e.details.faultSha, e.operation.value, e.child.value,
                                      e.attempt.value, e.details.finding.operationEntries != 0, e.embedded);
        Some(s.(terms := s.terms + [claim], termByOp := s.termByOp[e.operation.value := (claim, fault)]))
  }

  function TakeSetAside(s: FaultState, e: FaultEntry): Option<FaultState> {
    if !(e.details.SetAsideDetails? && e.scope == OperationScope && e.phase == SetAside
         && e.code == OperatorSetAside && e.operation.Some? && e.child.Some?
         && e.operation.value in s.termByOp) then None
    else
      var op, term, fault := e.operation.value, s.termByOp[e.operation.value].0, s.termByOp[e.operation.value].1;
      if !(e.details.terminationSha == term.entrySha && fault.step == Some(3)
           && !DirectoryBlocks(s.faults, e.child.value)) then None
      else if e.event == SetAsideBegin then
        if op in s.actions then None else Some(s.(actions := s.actions[op := Pending]))
      else if op in s.actions && s.actions[op] == Pending then Some(s.(actions := s.actions[op := Finished]))
      else None
  }

  /** One line of the fault log. */
  function TakeLine(env: FaultEnv, labId: string, s: FaultState, e: FaultEntry): Option<FaultState> {
    if !Shape(e, labId) then None
    else
      match Bind(s, e)
      case None => None
      case Some(bound) =>
        match e.event
        case Fault => TakeFault(env, bound, e)
        case TerminatedExternally => TakeTermination(env, bound, e)
        case _ => TakeSetAside(bound, e)
  }

  /** The lines of a fault log, from the front. */
  function ReadLines(env: FaultEnv, labId: string, s: FaultState, lines: seq<bytes>): Option<FaultState>
    decreases |lines|
  {
    if lines == [] then Some(s)
    else
      match env.lex(lines[0])
      case None => None
      case Some(e) =>
        match TakeLine(env, labId, s, e)
        case None => None
        case Some(next) => ReadLines(env, labId, next, lines[1..])
  }

  datatype FaultStatus = FaultsEmpty | FaultsRead | FaultsCorrupt

  datatype FaultProjection = FaultProjection(
    status: FaultStatus,
    lines: seq<bytes>,
    faults: seq<FaultClaim>,
    terms: seq<TerminationClaim>,
    pendingSetAside: set<Hash>,
    ledgerFault: bool,
    trustFault: bool)

  const CORRUPT_FAULTS := FaultProjection(FaultsCorrupt, [], [], [], {}, false, false)

  /** Operations whose set-aside began and is not done, faulted ones included. */
  function PendingOf(actions: map<Hash, ActionState>): set<Hash> {
    set op | op in actions && actions[op] != Finished
  }

  predicate IsLedgerFault(f: FaultClaim) {
    f.target.Some? && (f.target.value.resource == Ledger || f.target.value.resource == LedgerDirectory)
  }

  function ProjectionOf(lines: seq<bytes>, s: FaultState): FaultProjection {
    FaultProjection(if lines == [] then FaultsEmpty else FaultsRead, lines, s.faults, s.terms, PendingOf(s.actions),
                    exists i | 0 <= i < |s.faults| :: IsLedgerFault(s.faults[i]),
                    exists i | 0 <= i < |s.faults| :: s.faults[i].scope == LabScope)
  }

  /** The lines of a file that ends with a newline or is empty, None when it is torn or too large. */
  function FaultLines(raw: bytes): Option<seq<bytes>> {
    var parts := Split(raw, Oplog.NEWLINE);
    var lines := parts[..|parts| - 1];
    if |raw| > MAX_FAULT_LINES * MAX_FAULT_LINE || parts[|parts| - 1] != []
       || |lines| > MAX_FAULT_LINES || exists i | 0 <= i < |lines| :: |lines[i]| + 1 > MAX_FAULT_LINE then None
    else Some(lines)
  }

  function ProjectFaults(env: FaultEnv, raw: bytes, labId: string): FaultProjection {
    match FaultLines(raw)
    case None => CORRUPT_FAULTS
    case Some(lines) =>
      match ReadLines(env, labId, NO_FAULTS, lines)
      case None => CORRUPT_FAULTS
      case Some(s) => ProjectionOf(lines, s)
  }

  /** `project_fault_log`: one pass over the lines with its accumulators. */
  method ProjectFaultLog(env: FaultEnv, raw: bytes, labId: string) returns (r: FaultProjection)
    ensures r == ProjectFaults(env, raw, labId)
  {
    var read := FaultLines(raw);
    if read == None { return CORRUPT_FAULTS; }
    var lines := read.value;
    var s := NO_FAULTS;
    for n := 0 to |lines|
      invariant ReadLines(env, labId, NO_FAULTS, lines) == ReadLines(env, labId, s, lines[n..])
    {
      assert lines[n..][0] == lines[n] && lines[n..][1..] == lines[n + 1..];
      var entry := env.lex(lines[n]);
      if entry == None { return CORRUPT_FAULTS; }
      var next := TakeLine(env, labId, s, entry.value);
      if next == None { return CORRUPT_FAULTS; }
      s := next.value;
    }
    return ProjectionOf(lines, s);
  }
}
