/**
 * The external fault log without accumulators: which line may come next, told from the fields of the
 * earlier lines alone. The reader accepts exactly the logs of this grammar.
 */
module FaultGrammar {
  import opened Prelude
  import opened Lines
  import Oplog
  import opened FaultLog
  import opened FaultSafety

  /** Index of the last of the first `n` lines with a property, -1 if there is none. */
  function LastLine(entries: seq<FaultEntry>, n: nat, p: FaultEntry -> bool): (i: int)
    requires n <= |entries|
    ensures -1 <= i < n && (i >= 0 ==> p(entries[i]))
    ensures forall k | i < k < n :: !p(entries[k])
  {
    if n == 0 then -1 else if p(entries[n - 1]) then n - 1 else LastLine(entries, n - 1, p)
  }

  // ---- one line -----------------------------------------------------------------------------------

  /** A line of the lab is a fault of its trust store; every other line names child, operation and attempt. */
  predicate HasShape(e: FaultEntry, labId: string) {
    && e.labId == labId && (e.scope.LabScope? <==> e.phase == TrustInstall)
    && (if e.scope.LabScope? then e.event == Fault && e.child == None && e.operation == None && e.attempt == None
        else e.child.Some? && e.operation.Some? && e.attempt.Some? && e.attempt.value >= 1)
    && (match e.phase
        case AtStep(k) => e.step == Some(k)
        case Quarantine | SetAside => e.step == Some(3)
        case Prepare | Terminate | Acknowledge | TrustInstall => e.step == None)
  }

  lemma ShapesAre(e: FaultEntry, labId: string)
    ensures Shape(e, labId) <==> HasShape(e, labId)
  {
  }

  /** One name of a path: letters, digits, `-`, `.`, `:` and `_`, and neither `.` nor `..`. */
  predicate IsName(name: string) {
    && |name| >= 1 && name != "." && !(|name| == 2 && name[0] == name[1] == '.')
    && forall i | 0 <= i < |name| ::
         var c := name[i] as int;
         c == 0x2D || c == 0x2E || 0x30 <= c <= 0x3A || 0x41 <= c <= 0x5A || c == 0x5F || 0x61 <= c <= 0x7A
  }

  /** Names joined by slashes: a path that never leaves the directory it starts in. */
  ghost predicate IsPlain(path: string) {
    path == "" || exists names: seq<string> ::
      names != [] && Join(names, '/') == path && forall i | 0 <= i < |names| :: IsName(names[i])
  }

  lemma PathsArePlain(path: string)
    ensures SafePath(path) <==> IsPlain(path)
  {
    hide IsName, SafeComponent, Split, Join;
    forall name ensures SafeComponent(name) <==> IsName(name) { NamesAre(name); }
    JoinSplit(path, '/');
    if names: seq<string> :|
      names != [] && Join(names, '/') == path && forall i | 0 <= i < |names| :: IsName(names[i]) {
      forall i | 0 <= i < |names| ensures '/' !in names[i] { NoSlash(names[i]); }
      SplitJoin(names, '/');
    }
  }

  lemma NamesAre(name: string)
    ensures SafeComponent(name) <==> IsName(name)
  {
  }

  lemma NoSlash(name: string)
    requires IsName(name)
    ensures '/' !in name
  {
  }

  /** The number a string of decimal digits stands for. */
  function ValueOf(digits: string): int {
    if digits == "" then 0
    else ValueOf(digits[..|digits| - 1]) * 10 + (digits[|digits| - 1] as int - 0x30)
  }

  /** Python's `str(n)`: digits only, no leading zero, and they stand for `n`. */
  lemma {:induction false} DecimalReads(n: nat)
    ensures var s := Decimal(n);
            && s != "" && ValueOf(s) == n && (forall i | 0 <= i < |s| :: 0x30 <= s[i] as int <= 0x39)
            && (n > 0 ==> s[0] != '0') && (n == 0 ==> s == "0")
  {
    if n >= 10 {
      DecimalReads(n / 10);
      DecimalReads(n % 10);
      var s := Decimal(n);
      assert s == Decimal(n / 10) + [('0' as int + n % 10) as char];
      assert s[..|s| - 1] == Decimal(n / 10);
    } else {
      assert Decimal(n)[..0] == "";
    }
  }

  lemma FaultLinesAre(raw: bytes, lines: seq<bytes>)
    ensures FaultLines(raw) == Some(lines) <==> IsFile(raw, lines)
  {
    hide Unlines;
    if FaultLines(raw) == Some(lines) {
      UnlinesOfSplit(raw, 10);
      assert raw == Unlines(lines, 10) + [];
    } else if IsFile(raw, lines) {
      UnlinesSplits(lines, 10);
      UnlinesLength(lines, 10, 16384);
    }
  }

  /** What a fault may be of: for each resource its kind, its place, and the scope it belongs to. */
  predicate InTable(t: Target, e: FaultEntry)
    requires e.scope.OperationScope? ==> e.child.Some? && e.operation.Some? && e.attempt.Some? && e.attempt.value >= 1
  {
    match t.resource
    case TrustPolicy | TrustHistory => e.scope.LabScope? && !t.directory && t.path == ""
    case TrustDirectory => e.scope.LabScope? && t.directory && t.path == ""
    case Ledger => e.scope.OperationScope? && !t.directory && t.path == ""
    case LedgerDirectory | OperationLogDirectory | LabDirectory | IndividualsDirectory | AdmissionDirectory
         | EnvelopeDirectory => e.scope.OperationScope? && t.directory && t.path == ""
    case OperationLog => e.scope.OperationScope? && !t.directory && t.path == e.child.value + ".log"
    case AdmissionEntry => e.scope.OperationScope? && !t.directory && t.path == e.child.value + ".json"
    case EnvelopeEntry => e.scope.OperationScope? && !t.directory && e.child.value + "/" <= t.path
    case HomeDirectory => e.scope.OperationScope? && t.directory && t.path == e.child.value
    case HomeEntry => e.scope.OperationScope? && e.child.value + "/" <= t.path
    case QuarantineDirectory =>
      && e.scope.OperationScope? && t.directory
      && (var op := e.operation.value;
          t.path == "" || t.path == op || t.path == op + "/" + Decimal(e.attempt.value) || t.path == op + "/terminal")
  }

  lemma TargetsAreInTable(t: Target, e: FaultEntry, labId: string)
    requires Shape(e, labId)
    ensures TargetAllowed(t, e) <==> InTable(t, e) && IsPlain(t.path)
  {
    hide SafePath, IsPlain, Decimal;
    PathsArePlain(t.path);
  }

  /** A FAULT line is of the supervisor, of the trust store, or of the controller. */
  ghost predicate FaultLine(e: FaultEntry)
    requires e.scope.OperationScope? ==> e.child.Some? && e.operation.Some? && e.attempt.Some? && e.attempt.value >= 1
  {
    && e.code == DurabilityUnknown
    && (|| (e.details == FaultDetails(Supervisor, Admit, None) && e.phase == AtStep(3))
        || (&& e.details == FaultDetails(Trust, ConsumptionIoUnknown, Some(Target(Ledger, false, "")))
            && e.phase == AtStep(1))
        || (&& e.details.FaultDetails? && e.details.origin == Controller && e.details.target.Some?
            && InTable(e.details.target.value, e) && IsPlain(e.details.target.value.path)
            && e.details.failure != Admit && e.details.failure != ConsumptionIoUnknown))
  }

  lemma FaultsAreLines(e: FaultEntry, labId: string)
    requires Shape(e, labId)
    ensures FaultAllowed(e) <==> FaultLine(e)
  {
    hide InTable, TargetAllowed, IsPlain;
    if e.details.FaultDetails? && e.details.target.Some? { TargetsAreInTable(e.details.target.value, e, labId); }
    if e.phase == AtStep(1) { LedgerIsInTable(e, labId); }
  }

  lemma LedgerIsInTable(e: FaultEntry, labId: string)
    requires Shape(e, labId) && e.phase == AtStep(1)
    ensures InTable(Target(Ledger, false, ""), e) && IsPlain("")
  {
  }

  /** The finding of a termination: the count says which status, and an embedded observation repeats both. */
  predicate FindingOf(env: FaultEnv, e: FaultEntry, f: Finding, operation: Hash) {
    && 0 <= f.operationEntries <= 1
    && (if e.embedded then
          && f.status == (if f.operationEntries == 0 then NoOperationEntry else OperationEntryPresent)
          && f.observation.Some? && f.observationSha == env.observationDigest(f.observation.value)
          && (var o := f.observation.value;
              && o.status == f.status && o.operation == operation && o.operationEntries == f.operationEntries
              && 0 <= o.legacyEntries && f.operationEntries + o.legacyEntries <= o.ledgerEntries <= 16384
              && (if f.operationEntries == 0 then o.legacyEntries == 0 && o.entry == None
                  else o.entry.Some? && o.entry.value.operation == operation))
        else
          && f.status == (if f.operationEntries == 0 then AbsentInValidLedger else ConsumedByOperation)
          && f.observation == None)
  }

  lemma FindingsAre(env: FaultEnv, e: FaultEntry)
    requires e.details.TerminationDetails? && e.operation.Some?
    ensures FindingAllowed(env, e) <==> FindingOf(env, e, e.details.finding, e.operation.value)
  {
  }

  // ---- what the accumulators recall --------------------------------------------------------------

  function About(event: FaultEvent, op: Hash): FaultEntry -> bool { (e: FaultEntry) => Names(e, event, op) }

  function FaultOf(env: FaultEnv, h: Hash): FaultEntry -> bool {
    (e: FaultEntry) => e.event == Fault && env.digest(e) == h
  }

  /** A FAULT line of the operation log of `child`. */
  predicate IsLogLine(e: FaultEntry) {
    && e.event == Fault && e.details.FaultDetails? && e.details.target.Some?
    && e.details.target.value.resource == OperationLog
  }

  /** The set-aside of an operation began, and was neither finished nor faulted since. */
  predicate IsOpen(entries: seq<FaultEntry>, n: nat, op: Hash)
    requires n <= |entries|
  {
    var b := LastLine(entries, n, About(SetAsideBegin, op));
    && b >= 0 && LastLine(entries, n, About(SetAsideDone, op)) < b && LastLine(entries, n, About(Fault, op)) < b
  }

  /** The fault that termination line `t` answers. */
  function AnsweredBy(env: FaultEnv, entries: seq<FaultEntry>, t: nat): int
    requires t < |entries|
  {
    if entries[t].details.TerminationDetails? then LastLine(entries, t, FaultOf(env, entries[t].details.faultSha))
    else -1
  }

  predicate RecallsAction(entries: seq<FaultEntry>, n: nat, s: FaultState, op: Hash)
    requires n <= |entries|
  {
    && (op in s.actions <==> LastLine(entries, n, About(SetAsideBegin, op)) >= 0)
    && ((op in s.actions && s.actions[op] == Pending) <==> IsOpen(entries, n, op))
  }

  predicate RecallsFault(env: FaultEnv, entries: seq<FaultEntry>, n: nat, s: FaultState, h: Hash)
    requires n <= |entries|
  {
    var i := LastLine(entries, n, FaultOf(env, h));
    && (h in s.faultByHash <==> i >= 0)
    && (i >= 0 ==> entries[i].details.FaultDetails? && s.faultByHash[h] == ClaimOf(env, entries[i]))
  }

  predicate RecallsTerm(env: FaultEnv, entries: seq<FaultEntry>, n: nat, s: FaultState, op: Hash)
    requires n <= |entries|
  {
    var t := LastLine(entries, n, About(TerminatedExternally, op));
    && (op in s.termByOp <==> t >= 0)
    && (t >= 0 ==>
          var f := AnsweredBy(env, entries, t);
          && f >= 0 && entries[f].details.FaultDetails?
          && s.termByOp[op].0.entrySha == env.digest(entries[t])
          && s.termByOp[op].1 == ClaimOf(env, entries[f]))
  }

  ghost predicate RecallsBlocks(entries: seq<FaultEntry>, n: nat, s: FaultState)
    requires n <= |entries|
  {
    forall child :: DirectoryBlocks(s.faults, child) <==> exists i :: 0 <= i < n && BlocksLine(entries[i], child)
  }

  ghost predicate RecallsBindings(entries: seq<FaultEntry>, n: nat, s: FaultState)
    requires n <= |entries|
  {
    RecallsBound(entries, n, s) && RecallsFaulty(entries, n, s)
  }

  ghost predicate Recalls(env: FaultEnv, entries: seq<FaultEntry>, n: nat, s: FaultState)
    requires n <= |entries|
  {
    && (forall op :: RecallsAction(entries, n, s, op)) && (forall h :: RecallsFault(env, entries, n, s, h))
    && (forall op :: RecallsTerm(env, entries, n, s, op))
    && RecallsBlocks(entries, n, s)
  }

  /** What one line does to each accumulator. */
  ghost predicate Moves(env: FaultEnv, s: FaultState, e: FaultEntry, n: FaultState) {
    && (forall op :: op in n.actions <==> op in s.actions || Names(e, SetAsideBegin, op))
    && (forall op :: (op in n.actions && n.actions[op] == Pending) <==>
          (Names(e, SetAsideBegin, op)
           || (op in s.actions && s.actions[op] == Pending && !Names(e, SetAsideDone, op) && !Names(e, Fault, op))))
    && (if e.event == Fault then
          && e.details.FaultDetails? && n.faultByHash == s.faultByHash[env.digest(e) := ClaimOf(env, e)]
          && n.faults == s.faults + [ClaimOf(env, e)]
        else n.faultByHash == s.faultByHash && n.faults == s.faults)
    && (if e.event == TerminatedExternally then
          && e.operation.Some? && e.details.TerminationDetails? && e.details.faultSha in s.faultByHash
          && (forall op :: op in n.termByOp <==> op in s.termByOp || op == e.operation.value)
          && (forall op | op in n.termByOp && op != e.operation.value :: n.termByOp[op] == s.termByOp[op])
          && n.termByOp[e.operation.value].0.entrySha == env.digest(e)
          && n.termByOp[e.operation.value].1 == s.faultByHash[e.details.faultSha]
        else n.termByOp == s.termByOp)
  }

  lemma FaultMovesAll(env: FaultEnv, s: FaultState, e: FaultEntry)
    requires e.event == Fault && (e.operation.Some? ==> e.child.Some? && e.attempt.Some?)
    requires TakeFault(env, s, e).Some?
    ensures Moves(env, s, e, TakeFault(env, s, e).value)
  {
    hide TargetAllowed, IsLogFault;
  }

  lemma TerminationMovesAll(env: FaultEnv, s: FaultState, e: FaultEntry)
    requires e.event == TerminatedExternally && TakeTermination(env, s, e).Some?
    ensures Moves(env, s, e, TakeTermination(env, s, e).value)
  {
    hide FindingAllowed;
  }

  lemma SetAsideMovesAll(env: FaultEnv, s: FaultState, e: FaultEntry)
    requires (e.event == SetAsideBegin || e.event == SetAsideDone) && TakeSetAside(s, e).Some?
    ensures Moves(env, s, e, TakeSetAside(s, e).value)
  {
    hide DirectoryBlocks;
  }

  lemma LineMoves(env: FaultEnv, labId: string, s: FaultState, e: FaultEntry)
    requires TakeLine(env, labId, s, e).Some?
    ensures Moves(env, s, e, TakeLine(env, labId, s, e).value)
  {
    hide TakeFault, TakeTermination, TakeSetAside;
    var bound := Bind(s, e).value;
    if e.event == Fault {
      FaultMovesAll(env, bound, e);
    } else if e.event == TerminatedExternally {
      TerminationMovesAll(env, bound, e);
    } else {
      SetAsideMovesAll(env, bound, e);
    }
  }

  lemma NextLine(entries: seq<FaultEntry>, n: nat, p: FaultEntry -> bool)
    requires n < |entries|
    ensures LastLine(entries, n + 1, p) == if p(entries[n]) then n else LastLine(entries, n, p)
  {
  }

  lemma ActionRecalled(env: FaultEnv, entries: seq<FaultEntry>, n: nat, s: FaultState, next: FaultState, op: Hash)
    requires n < |entries| && RecallsAction(entries, n, s, op) && Moves(env, s, entries[n], next)
    ensures RecallsAction(entries, n + 1, next, op)
  {
    hide LastLine;
    NextLine(entries, n, About(SetAsideBegin, op));
    NextLine(entries, n, About(SetAsideDone, op));
    NextLine(entries, n, About(Fault, op));
  }

  lemma FaultRecalled(env: FaultEnv, entries: seq<FaultEntry>, n: nat, s: FaultState, next: FaultState, h: Hash)
    requires n < |entries| && RecallsFault(env, entries, n, s, h) && Moves(env, s, entries[n], next)
    ensures RecallsFault(env, entries, n + 1, next, h)
  {
    hide LastLine, ClaimOf;
    NextLine(entries, n, FaultOf(env, h));
  }

  lemma TermRecalled(env: FaultEnv, entries: seq<FaultEntry>, n: nat, s: FaultState, next: FaultState, op: Hash)
    requires n < |entries| && RecallsTerm(env, entries, n, s, op) && Moves(env, s, entries[n], next)
    requires entries[n].details.TerminationDetails? ==>
               RecallsFault(env, entries, n, s, entries[n].details.faultSha)
    ensures RecallsTerm(env, entries, n + 1, next, op)
  {
    hide LastLine, ClaimOf;
    NextLine(entries, n, About(TerminatedExternally, op));
  }

  lemma BlocksRecalled(env: FaultEnv, entries: seq<FaultEntry>, n: nat, s: FaultState, next: FaultState)
    requires n < |entries| && RecallsBlocks(entries, n, s) && Moves(env, s, entries[n], next)
    ensures RecallsBlocks(entries, n + 1, next)
  {
    var e := entries[n];
    forall child
      ensures DirectoryBlocks(next.faults, child) <==> exists i :: 0 <= i < n + 1 && BlocksLine(entries[i], child)
    {
      assert DirectoryBlocks(s.faults, child) <==> exists i :: 0 <= i < n && BlocksLine(entries[i], child);
      BlocksMore(env, s.faults, e, next.faults, child);
      hide DirectoryBlocks, BlocksLine;
    }
  }

  lemma BlocksMore(env: FaultEnv, faults: seq<FaultClaim>, e: FaultEntry, next: seq<FaultClaim>, child: string)
    requires if e.event == Fault then e.details.FaultDetails? && next == faults + [ClaimOf(env, e)] else next == faults
    ensures DirectoryBlocks(next, child) <==> DirectoryBlocks(faults, child) || BlocksLine(e, child)
  {
    if e.event == Fault {
      assert next[|faults|] == ClaimOf(env, e);
      assert forall i | 0 <= i < |faults| :: next[i] == faults[i];
    }
  }

  /** What one line does to the bindings and to the children whose logs are faulty. */
  predicate BindMoves(s: FaultState, e: FaultEntry, n: FaultState) {
    && (e.operation.Some? ==> e.child.Some? && e.attempt.Some?)
    && (IsLogLine(e) ==> e.operation.Some?)
    && n.bindings == (if e.operation.Some? then s.bindings[e.operation.value := (e.child.value, e.attempt.value)]
                      else s.bindings)
    && n.faultyChildren == (if IsLogLine(e) then s.faultyChildren[e.child.value := e.operation.value]
                            else s.faultyChildren)
    && (e.operation.Some? && e.operation.value in s.bindings ==>
          s.bindings[e.operation.value] == (e.child.value, e.attempt.value))
    && (e.operation.Some? && e.child.value in s.faultyChildren ==>
          s.faultyChildren[e.child.value] == e.operation.value)
  }

  lemma FaultBinds(env: FaultEnv, labId: string, s: FaultState, e: FaultEntry)
    requires Shape(e, labId) && e.event == Fault && TakeFault(env, s, e).Some?
    ensures IsLogLine(e) ==> e.operation.Some?
    ensures TakeFault(env, s, e).value.bindings == s.bindings
    ensures TakeFault(env, s, e).value.faultyChildren
            == if IsLogLine(e) then s.faultyChildren[e.child.value := e.operation.value] else s.faultyChildren
  {
    hide SafePath;
  }

  lemma LineBinds(env: FaultEnv, labId: string, s: FaultState, e: FaultEntry)
    requires TakeLine(env, labId, s, e).Some?
    ensures BindMoves(s, e, TakeLine(env, labId, s, e).value)
  {
    hide TakeFault, DirectoryBlocks, FindingAllowed;
    if e.event == Fault { FaultBinds(env, labId, Bind(s, e).value, e); }
  }

  /** The operations that are bound, and to what. */
  ghost predicate RecallsBound(entries: seq<FaultEntry>, n: nat, s: FaultState)
    requires n <= |entries|
  {
    && (forall op :: op in s.bindings <==> exists i :: 0 <= i < n && entries[i].operation == Some(op))
    && (forall i | 0 <= i < n :: Bound(s, entries[i].operation, entries[i].child, entries[i].attempt))
  }

  /** The children whose logs are faulty, and the operation each fault names. */
  ghost predicate RecallsFaulty(entries: seq<FaultEntry>, n: nat, s: FaultState)
    requires n <= |entries|
  {
    && (forall child :: child in s.faultyChildren <==>
          exists i :: 0 <= i < n && IsLogLine(entries[i]) && entries[i].child == Some(child))
    && (forall i | 0 <= i < n && IsLogLine(entries[i]) ::
          && entries[i].child.Some? && entries[i].child.value in s.faultyChildren
          && entries[i].operation == Some(s.faultyChildren[entries[i].child.value]))
  }

  lemma BoundRecalled(entries: seq<FaultEntry>, n: nat, s: FaultState, next: FaultState)
    requires n < |entries| && RecallsBound(entries, n, s) && BindMoves(s, entries[n], next)
    ensures RecallsBound(entries, n + 1, next)
  {
    hide IsLogLine;
    var e := entries[n];
    forall op ensures op in next.bindings <==> exists i :: 0 <= i < n + 1 && entries[i].operation == Some(op) {
      assert op in s.bindings <==> exists i :: 0 <= i < n && entries[i].operation == Some(op);
      if e.operation == Some(op) { assert entries[n].operation == Some(op); }
    }
  }

  lemma FaultyRecalled(entries: seq<FaultEntry>, n: nat, s: FaultState, next: FaultState)
    requires n < |entries| && RecallsFaulty(entries, n, s) && BindMoves(s, entries[n], next)
    ensures RecallsFaulty(entries, n + 1, next)
  {
    hide IsLogLine;
    var e := entries[n];
    forall child
      ensures child in next.faultyChildren <==>
                exists i :: 0 <= i < n + 1 && IsLogLine(entries[i]) && entries[i].child == Some(child)
    {
      assert child in s.faultyChildren <==>
               exists i :: 0 <= i < n && IsLogLine(entries[i]) && entries[i].child == Some(child);
      if IsLogLine(e) && e.child == Some(child) { assert IsLogLine(entries[n]); }
    }
  }

  /** In every state of every accepted log the accumulators are what the lines say. */
  lemma {:induction false} StatesRecall(env: FaultEnv, labId: string, entries: seq<FaultEntry>,
                                        states: seq<FaultState>, n: nat)
    requires IsFaultRun(env, labId, entries, states) && n <= |entries|
    ensures Recalls(env, entries, n, states[n]) && RecallsBindings(entries, n, states[n])
  {
    hide TakeLine, RecallsAction, RecallsFault, RecallsTerm, RecallsBlocks, RecallsBound, RecallsFaulty;
    hide Moves, BindMoves;
    if n == 0 {
      NothingRecalled(env, entries);
    } else {
      var s, next := states[n - 1], states[n];
      StatesRecall(env, labId, entries, states, n - 1);
      assert TakeLine(env, labId, s, entries[n - 1]) == Some(next);
      LineMoves(env, labId, s, entries[n - 1]);
      LineBinds(env, labId, s, entries[n - 1]);
      forall op ensures RecallsAction(entries, n, next, op) { ActionRecalled(env, entries, n - 1, s, next, op); }
      forall h ensures RecallsFault(env, entries, n, next, h) { FaultRecalled(env, entries, n - 1, s, next, h); }
      forall op ensures RecallsTerm(env, entries, n, next, op) { TermRecalled(env, entries, n - 1, s, next, op); }
      BlocksRecalled(env, entries, n - 1, s, next);
      BoundRecalled(entries, n - 1, s, next);
      FaultyRecalled(entries, n - 1, s, next);
    }
  }

  lemma NothingRecalled(env: FaultEnv, entries: seq<FaultEntry>)
    ensures Recalls(env, entries, 0, NO_FAULTS) && RecallsBindings(entries, 0, NO_FAULTS)
  {
  }

  // ---- which line may come next -------------------------------------------------------------------

  /** The line names child and attempt of its operation, and the operation whose log of that child is faulty. */
  predicate MayBind(before: seq<FaultEntry>, e: FaultEntry) {
    e.operation.Some? ==>
      && (forall i | 0 <= i < |before| && before[i].operation == e.operation ::
            before[i].child == e.child && before[i].attempt == e.attempt)
      && (forall i | 0 <= i < |before| && IsLogLine(before[i]) && before[i].child == e.child ::
            before[i].operation == e.operation)
  }

  /** May this line come after the accepted lines `before`? */
  ghost predicate MayBeNext(env: FaultEnv, labId: string, before: seq<FaultEntry>, e: FaultEntry) {
    var n := |before|;
    && HasShape(e, labId) && MayBind(before, e)
    && (match e.event
        case Fault =>
          && FaultLine(e)
          && (e.phase == SetAside && e.operation.Some?
              && LastLine(before, n, About(TerminatedExternally, e.operation.value)) >= 0 ==>
                IsOpen(before, n, e.operation.value))
        case TerminatedExternally =>
          && e.phase == Terminate && e.code == OperatorTerminated && e.details.TerminationDetails?
          && e.operation.Some?
          && LastLine(before, n, About(TerminatedExternally, e.operation.value)) < 0
          && FindingOf(env, e, e.details.finding, e.operation.value)
          && (var i := LastLine(before, n, FaultOf(env, e.details.faultSha));
              && i >= 0 && IsLogLine(before[i])
              && before[i].operation == e.operation && before[i].child == e.child && before[i].attempt == e.attempt)
        case _ =>
          && e.phase == SetAside && e.code == OperatorSetAside && e.details.SetAsideDetails?
          && e.operation.Some? && e.child.Some?
          && (var t := LastLine(before, n, About(TerminatedExternally, e.operation.value));
              && t >= 0 && e.details.terminationSha == env.digest(before[t])
              && (var f := AnsweredBy(env, before, t); f >= 0 && before[f].step == Some(3)))
          && (forall i | 0 <= i < n :: !BlocksLine(before[i], e.child.value))
          && (if e.event == SetAsideBegin then LastLine(before, n, About(SetAsideBegin, e.operation.value)) < 0
              else IsOpen(before, n, e.operation.value)))
  }

  lemma BindIsAllowed(entries: seq<FaultEntry>, s: FaultState, e: FaultEntry)
    requires RecallsBindings(entries, |entries|, s) && (e.operation.Some? ==> e.child.Some? && e.attempt.Some?)
    ensures Bind(s, e).Some? <==> MayBind(entries, e)
  {
    hide IsLogLine;
  }

  lemma FaultIsNext(env: FaultEnv, labId: string, entries: seq<FaultEntry>, s: FaultState, e: FaultEntry)
    requires Recalls(env, entries, |entries|, s) && Shape(e, labId) && MayBind(entries, e) && e.event == Fault
    ensures TakeFault(env, s, e).Some? <==> MayBeNext(env, labId, entries, e)
  {
    hide LastLine, FaultAllowed, FaultLine, IsOpen, MayBind, RecallsBlocks, RecallsFault;
    ShapesAre(e, labId);
    FaultsAreLines(e, labId);
    if e.operation.Some? {
      assert RecallsAction(entries, |entries|, s, e.operation.value);
      assert RecallsTerm(env, entries, |entries|, s, e.operation.value);
    }
  }

  lemma TerminationIsNext(env: FaultEnv, labId: string, entries: seq<FaultEntry>, s: FaultState, e: FaultEntry)
    requires Recalls(env, entries, |entries|, s) && Shape(e, labId) && MayBind(entries, e)
    requires e.event == TerminatedExternally
    ensures TakeTermination(env, s, e).Some? <==> MayBeNext(env, labId, entries, e)
  {
    hide LastLine, FindingAllowed, FindingOf, IsOpen, MayBind, RecallsBlocks, RecallsAction;
    ShapesAre(e, labId);
    if e.operation.Some? && e.details.TerminationDetails? {
      FindingsAre(env, e);
      assert RecallsFault(env, entries, |entries|, s, e.details.faultSha);
      assert RecallsTerm(env, entries, |entries|, s, e.operation.value);
    }
  }

  lemma SetAsideIsNext(env: FaultEnv, labId: string, entries: seq<FaultEntry>, s: FaultState, e: FaultEntry)
    requires Recalls(env, entries, |entries|, s) && Shape(e, labId) && MayBind(entries, e)
    requires e.event == SetAsideBegin || e.event == SetAsideDone
    ensures TakeSetAside(s, e).Some? <==> MayBeNext(env, labId, entries, e)
  {
    hide LastLine, IsOpen, MayBind, RecallsFault, DirectoryBlocks, BlocksLine, AnsweredBy;
    ShapesAre(e, labId);
    if e.operation.Some? && e.child.Some? {
      assert RecallsAction(entries, |entries|, s, e.operation.value);
      assert RecallsTerm(env, entries, |entries|, s, e.operation.value);
      assert DirectoryBlocks(s.faults, e.child.value)
             <==> exists i :: 0 <= i < |entries| && BlocksLine(entries[i], e.child.value);
    }
  }

  /** The reader takes a line exactly if the grammar allows it here. */
  lemma TakeLineIsGrammar(env: FaultEnv, labId: string, entries: seq<FaultEntry>, states: seq<FaultState>,
                          e: FaultEntry)
    requires IsFaultRun(env, labId, entries, states)
    ensures TakeLine(env, labId, states[|entries|], e).Some? <==> MayBeNext(env, labId, entries, e)
  {
    hide TakeFault, TakeTermination, TakeSetAside, MayBind, Bind, Recalls, RecallsBindings;
    StatesRecall(env, labId, entries, states, |entries|);
    ShapesAre(e, labId);
    var s := states[|entries|];
    if Shape(e, labId) {
      BindIsAllowed(entries, s, e);
      if Bind(s, e).Some? {
        var bound := Bind(s, e).value;
        BoundRecalls(env, entries, s, e);
        if e.event == Fault {
          FaultIsNext(env, labId, entries, bound, e);
        } else if e.event == TerminatedExternally {
          TerminationIsNext(env, labId, entries, bound, e);
        } else {
          SetAsideIsNext(env, labId, entries, bound, e);
        }
      }
    }
  }

  lemma BoundRecalls(env: FaultEnv, entries: seq<FaultEntry>, s: FaultState, e: FaultEntry)
    requires Recalls(env, entries, |entries|, s) && (e.operation.Some? ==> e.child.Some? && e.attempt.Some?)
    requires Bind(s, e).Some?
    ensures Recalls(env, entries, |entries|, Bind(s, e).value)
  {
    hide LastLine, DirectoryBlocks, BlocksLine;
    var bound := Bind(s, e).value;
    forall op ensures RecallsAction(entries, |entries|, bound, op) { assert RecallsAction(entries, |entries|, s, op); }
    forall h ensures RecallsFault(env, entries, |entries|, bound, h) {
      assert RecallsFault(env, entries, |entries|, s, h);
    }
    forall op ensures RecallsTerm(env, entries, |entries|, bound, op) {
      assert RecallsTerm(env, entries, |entries|, s, op);
    }
  }

  /** The logs of the grammar. */
  ghost predicate IsFaultLog(env: FaultEnv, labId: string, entries: seq<FaultEntry>) {
    forall n | 0 <= n < |entries| :: MayBeNext(env, labId, entries[..n], entries[n])
  }

  lemma FaultRunPrefix(env: FaultEnv, labId: string, entries: seq<FaultEntry>, states: seq<FaultState>, n: nat)
    requires IsFaultRun(env, labId, entries, states) && n <= |entries|
    ensures IsFaultRun(env, labId, entries[..n], states[..n + 1])
  {
    hide TakeLine;
    forall i | 0 <= i < n
      ensures TakeLine(env, labId, states[..n + 1][i], entries[..n][i]) == Some(states[..n + 1][i + 1])
    {
      assert entries[..n][i] == entries[i];
    }
  }

  /** Every run is a log of the grammar. */
  lemma FaultRunsAreLogs(env: FaultEnv, labId: string, entries: seq<FaultEntry>, states: seq<FaultState>)
    requires IsFaultRun(env, labId, entries, states)
    ensures IsFaultLog(env, labId, entries)
  {
    hide TakeLine, MayBeNext;
    forall n | 0 <= n < |entries| ensures MayBeNext(env, labId, entries[..n], entries[n]) {
      FaultRunPrefix(env, labId, entries, states, n);
      assert TakeLine(env, labId, states[n], entries[n]) == Some(states[n + 1]);
      TakeLineIsGrammar(env, labId, entries[..n], states[..n + 1], entries[n]);
    }
  }

  /** Every log of the grammar is a run. */
  lemma {:induction false} FaultLogsRun(env: FaultEnv, labId: string, entries: seq<FaultEntry>)
    returns (states: seq<FaultState>)
    requires IsFaultLog(env, labId, entries)
    ensures IsFaultRun(env, labId, entries, states)
  {
    hide TakeLine, MayBeNext;
    if entries == [] {
      states := [NO_FAULTS];
    } else {
      var n := |entries| - 1;
      var before, e := entries[..n], entries[n];
      assert forall k | 0 <= k < n :: before[k] == entries[k] && before[..k] == entries[..k];
      var was := FaultLogsRun(env, labId, before);
      TakeLineIsGrammar(env, labId, before, was, e);
      states := was + [TakeLine(env, labId, was[n], e).value];
      forall i | 0 <= i < |entries| ensures TakeLine(env, labId, states[i], entries[i]) == Some(states[i + 1]) {
        if i < n { assert entries[i] == before[i]; }
      }
    }
  }

  /** Entries on lines that run are read. */
  lemma {:induction false} FaultRunsAreRead(env: FaultEnv, labId: string, lines: seq<bytes>,
                                            entries: seq<FaultEntry>, states: seq<FaultState>)
    requires IsFaultPath(env, labId, entries, states) && |lines| == |entries|
    requires forall i | 0 <= i < |lines| :: env.lex(lines[i]) == Some(entries[i])
    ensures ReadLines(env, labId, states[0], lines) == Some(states[|entries|])
    decreases |lines|
  {
    hide TakeLine;
    if lines != [] {
      assert TakeLine(env, labId, states[0], entries[0]) == Some(states[1]);
      var es, ss := entries[1..], states[1..];
      forall i | 0 <= i < |es| ensures TakeLine(env, labId, ss[i], es[i]) == Some(ss[i + 1]) {
        assert es[i] == entries[i + 1];
      }
      FaultRunsAreRead(env, labId, lines[1..], es, ss);
    }
  }

  /** The entries on these lines, None if one of them is no entry. */
  predicate Carry(env: FaultEnv, lines: seq<bytes>, entries: seq<FaultEntry>) {
    |lines| == |entries| && forall i | 0 <= i < |lines| :: env.lex(lines[i]) == Some(entries[i])
  }

  /** The lines of a file: it is them, each ended by a newline, at most 4096 of at most 16384 bytes each. */
  predicate IsFile(raw: bytes, lines: seq<bytes>) {
    && raw == Unlines(lines, 10) && |lines| <= 4096
    && forall i | 0 <= i < |lines| :: 10 !in lines[i] && |lines[i]| + 1 <= 16384
  }

  /** A file is read exactly if its lines keep to the limits and carry a log of the grammar. */
  lemma FaultFilesAreLogs(env: FaultEnv, raw: bytes, labId: string)
    ensures ProjectFaults(env, raw, labId).status != FaultsCorrupt
            <==> exists lines, entries ::
                   IsFile(raw, lines) && Carry(env, lines, entries) && IsFaultLog(env, labId, entries)
  {
    hide ProjectFaults, IsFaultLog, IsFile;
    FaultLogsAreRead(env, raw, labId);
    forall lines ensures FaultLines(raw) == Some(lines) <==> IsFile(raw, lines) { FaultLinesAre(raw, lines); }
  }

  lemma FaultLogsAreRead(env: FaultEnv, raw: bytes, labId: string)
    ensures ProjectFaults(env, raw, labId).status != FaultsCorrupt
            <==> FaultLines(raw).Some?
                 && exists entries :: Carry(env, FaultLines(raw).value, entries) && IsFaultLog(env, labId, entries)
  {
    hide TakeLine, FaultLines, ReadLines, IsFaultLog;
    if ProjectFaults(env, raw, labId).status != FaultsCorrupt {
      var lines := FaultLines(raw).value;
      var entries, states := LinesRun(env, labId, NO_FAULTS, lines);
      FaultRunsAreLogs(env, labId, entries, states);
      assert Carry(env, lines, entries);
    } else if FaultLines(raw).Some? {
      var lines := FaultLines(raw).value;
      if entries :| Carry(env, lines, entries) && IsFaultLog(env, labId, entries) {
        var states := FaultLogsRun(env, labId, entries);
        FaultRunsAreRead(env, labId, lines, entries, states);
      }
    }
  }

  // ---- what a projection shows --------------------------------------------------------------------

  predicate MakesFault(e: FaultEntry) { e.event == Fault && e.details.FaultDetails? }

  function FaultOn(env: FaultEnv, e: FaultEntry): FaultClaim
    requires MakesFault(e)
  {
    FaultClaim(env.digest(e), e.scope, e.operation, e.child, e.attempt, e.step, e.phase, e.details.origin,
               e.details.failure, e.details.target)
  }

  /** The claims of the FAULT lines, in order. */
  function FaultsOn(env: FaultEnv, entries: seq<FaultEntry>): seq<FaultClaim> {
    if entries == [] then []
    else
      var e := entries[|entries| - 1];
      FaultsOn(env, entries[..|entries| - 1])
      + if MakesFault(e) then [FaultOn(env, e)] else []
  }

  /** The claims of the TERMINATED_EXTERNALLY lines, in order: one ledger line found means consumed. */
  function TermsOn(env: FaultEnv, entries: seq<FaultEntry>): seq<TerminationClaim> {
    if entries == [] then []
    else
      var e := entries[|entries| - 1];
      TermsOn(env, entries[..|entries| - 1])
      + if e.event == TerminatedExternally && e.details.TerminationDetails? && e.operation.Some? && e.child.Some?
           && e.attempt.Some? then
          [TerminationClaim(env.digest(e), e.details.faultSha, e.operation.value, e.child.value, e.attempt.value,
                            e.details.finding.operationEntries == 1, e.embedded)]
        else []
  }

  lemma OneMoreClaim(env: FaultEnv, labId: string, s: FaultState, e: FaultEntry)
    requires TakeLine(env, labId, s, e).Some?
    ensures TakeLine(env, labId, s, e).value.faults == s.faults + FaultsOn(env, [e])
    ensures TakeLine(env, labId, s, e).value.terms == s.terms + TermsOn(env, [e])
  {
    hide TakeFault, TakeTermination, TakeSetAside, FaultsOn, TermsOn;
    var bound := Bind(s, e).value;
    NoClaim(env, e);
    if e.event == Fault {
      OneMoreFault(env, bound, e);
    } else if e.event == TerminatedExternally {
      OneMoreTermination(env, bound, e);
    } else {
      NoMoreClaims(bound, e);
    }
  }

  lemma NoClaim(env: FaultEnv, e: FaultEntry)
    ensures e.event != Fault ==> FaultsOn(env, [e]) == []
    ensures e.event != TerminatedExternally ==> TermsOn(env, [e]) == []
  {
  }

  lemma OneMoreFault(env: FaultEnv, s: FaultState, e: FaultEntry)
    requires e.event == Fault && (e.operation.Some? ==> e.child.Some? && e.attempt.Some?)
    requires TakeFault(env, s, e).Some?
    ensures TakeFault(env, s, e).value.faults == s.faults + FaultsOn(env, [e])
    ensures TakeFault(env, s, e).value.terms == s.terms
  {
    hide TargetAllowed;
  }

  lemma OneMoreTermination(env: FaultEnv, s: FaultState, e: FaultEntry)
    requires e.event == TerminatedExternally && TakeTermination(env, s, e).Some?
    ensures TakeTermination(env, s, e).value.terms == s.terms + TermsOn(env, [e])
    ensures TakeTermination(env, s, e).value.faults == s.faults
  {
  }

  lemma NoMoreClaims(s: FaultState, e: FaultEntry)
    requires TakeSetAside(s, e).Some?
    ensures TakeSetAside(s, e).value.faults == s.faults && TakeSetAside(s, e).value.terms == s.terms
  {
    hide DirectoryBlocks;
  }

  lemma {:induction false} ClaimsAreWritten(env: FaultEnv, labId: string, entries: seq<FaultEntry>,
                                            states: seq<FaultState>, n: nat)
    requires IsFaultRun(env, labId, entries, states) && n <= |entries|
    ensures states[n].faults == FaultsOn(env, entries[..n]) && states[n].terms == TermsOn(env, entries[..n])
  {
    hide TakeLine;
    if n > 0 {
      ClaimsAreWritten(env, labId, entries, states, n - 1);
      assert TakeLine(env, labId, states[n - 1], entries[n - 1]) == Some(states[n]);
      OneMoreClaim(env, labId, states[n - 1], entries[n - 1]);
      assert entries[..n][..n - 1] == entries[..n - 1];
    }
  }

  /** A FAULT line whose target is one of two resources. */
  predicate IsFaultOf(e: FaultEntry, r: Resource, q: Resource) {
    && e.event == Fault && e.details.FaultDetails? && e.details.target.Some?
    && (e.details.target.value.resource == r || e.details.target.value.resource == q)
  }

  lemma {:induction false} InFaultsOn(env: FaultEnv, entries: seq<FaultEntry>, f: FaultClaim)
    ensures f in FaultsOn(env, entries) <==> exists e :: e in entries && MakesFault(e) && f == FaultOn(env, e)
  {
    hide FaultOn;
    if entries != [] {
      var n := |entries| - 1;
      InFaultsOn(env, entries[..n], f);
      assert entries == entries[..n] + [entries[n]];
    }
  }

  lemma FaultFlags(env: FaultEnv, entries: seq<FaultEntry>)
    ensures (exists f :: f in FaultsOn(env, entries) && IsLedgerFault(f))
            <==> exists e :: e in entries && IsFaultOf(e, Ledger, LedgerDirectory)
    ensures (exists f :: f in FaultsOn(env, entries) && f.scope == LabScope)
            <==> exists e :: e in entries && MakesFault(e) && e.scope == LabScope
  {
    hide FaultsOn;
    forall f ensures f in FaultsOn(env, entries) <==> exists e ::
        e in entries && MakesFault(e) && f == FaultOn(env, e) {
      InFaultsOn(env, entries, f);
    }
    forall e | e in entries && MakesFault(e) ensures FaultOn(env, e) in FaultsOn(env, entries) { }
  }

  lemma FlagsOfState(s: FaultState)
    ensures (exists i | 0 <= i < |s.faults| :: IsLedgerFault(s.faults[i]))
            <==> exists f :: f in s.faults && IsLedgerFault(f)
    ensures (exists i | 0 <= i < |s.faults| :: s.faults[i].scope == LabScope)
            <==> exists f :: f in s.faults && f.scope == LabScope
  {
  }

  /** Every file that is read shows the claims of its lines, what is pending, and what is faulty. */
  lemma ProjectionShows(env: FaultEnv, raw: bytes, labId: string) returns (entries: seq<FaultEntry>)
    requires ProjectFaults(env, raw, labId).status != FaultsCorrupt
    ensures var p := ProjectFaults(env, raw, labId);
            && IsFile(raw, p.lines) && Carry(env, p.lines, entries) && IsFaultLog(env, labId, entries)
            && (p.status == FaultsEmpty <==> entries == [])
            && p.faults == FaultsOn(env, entries) && p.terms == TermsOn(env, entries)
            && (forall op :: op in p.pendingSetAside
                  <==> HasLine(entries, |entries|, SetAsideBegin, op) && !HasLine(entries, |entries|, SetAsideDone, op))
            && (p.ledgerFault <==> exists e :: e in entries && IsFaultOf(e, Ledger, LedgerDirectory))
            && (p.trustFault <==>
                  exists e :: e in entries && MakesFault(e) && e.scope == LabScope)
  {
    hide TakeLine, FaultLines, ReadLines, IsFaultLog, IsLedgerFault, IsFaultOf, HasLine, PendingOf;
    var states;
    FaultLinesAre(raw, FaultLines(raw).value);
    entries, states := LinesRun(env, labId, NO_FAULTS, FaultLines(raw).value);
    FaultRunsAreLogs(env, labId, entries, states);
    ClaimsAreWritten(env, labId, entries, states, |entries|);
    assert entries[..|entries|] == entries;
    FaultFlags(env, entries);
    FlagsOfState(states[|entries|]);
    forall op
      ensures op in PendingOf(states[|entries|].actions)
              <==> HasLine(entries, |entries|, SetAsideBegin, op) && !HasLine(entries, |entries|, SetAsideDone, op)
    {
      PendingIsBeginWithoutDone(env, labId, entries, states, op);
    }
  }
}
