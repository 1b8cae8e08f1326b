/**
 * The query universe of one acquisition: the terminated operations of the fault log, whose logs are
 * never read, and every attempt of every other log. Directory listings, file sizes and file contents
 * are inputs.
 */
module LogInventory {
  import opened Prelude
  import Lines
  import opened Oplog
  import opened OplogRuns
  import opened OplogSafety
  import opened OplogAttempts
  import FL = FaultLog
  import FaultSafety
  import opened Sorting

  const MAX_SCAN := 32 * 1024 * 1024

  /** What the caller and the directory supply; `names` are the children that have a `.log` file. */
  datatype Source = Source(
    labId: string,
    itemCap: nat,
    names: seq<string>,
    content: string -> bytes,
    unreadSize: string -> Option<nat>,
    items: Operation -> nat)

  datatype FoundAttempt = FoundAttempt(
    child: string,
    sha: Hash,
    operation: Operation,
    prefix: bytes,
    projection: LogProjection,
    latest: bool)

  datatype UnreadLog = UnreadLog(claim: FL.TerminationClaim, size: Option<nat>)

  datatype Inventory = Inventory(
    attempts: seq<FoundAttempt>,
    unread: seq<UnreadLog>,
    operationIds: set<Hash>,
    pending: set<Hash>)

  datatype Refusal = FaultLogUnavailable | SourceLimit | LogUnavailable | DuplicateOperation | BindingMismatch

  function TermChildren(terms: seq<FL.TerminationClaim>): set<string> { set t | t in terms :: t.child }

  function TermIds(terms: seq<FL.TerminationClaim>): set<Hash> { set t | t in terms :: t.operation }

  /** No operation and no child is terminated twice. */
  predicate TermsDistinct(terms: seq<FL.TerminationClaim>) {
    forall i, j | 0 <= i < j < |terms| :: terms[i].operation != terms[j].operation && terms[i].child != terms[j].child
  }

  /** Every accepted fault log has distinct terminations. */
  lemma ProjectedTermsAreDistinct(env: FL.FaultEnv, raw: bytes, labId: string)
    ensures TermsDistinct(FL.ProjectFaults(env, raw, labId).terms)
  {
    var p := FL.ProjectFaults(env, raw, labId);
    if p.status != FL.FaultsCorrupt {
      hide FL.TakeLine;
      var entries, states := FaultSafety.LinesRun(env, labId, FL.NO_FAULTS, FL.FaultLines(raw).value);
      FaultSafety.TerminationsAreLinked(env, labId, entries, states);
    }
  }

  function ShasOf(attempts: seq<FoundAttempt>): seq<Hash> {
    seq(|attempts|, i requires 0 <= i < |attempts| => attempts[i].sha)
  }

  function HistoryShas(h: seq<AttemptSummary>): seq<Hash> { seq(|h|, i requires 0 <= i < |h| => h[i].operationSha) }

  /** The digests of all attempts of all logs that are read, in the order of the listing. */
  function ReadShas(env: Env, src: Source, skip: set<string>, names: seq<string>): seq<Hash> {
    if names == [] then []
    else
      var child := names[|names| - 1];
      ReadShas(env, src, skip, names[..|names| - 1])
      + (if child in skip then [] else HistoryShas(Project(env, src.content(child)).history))
  }

  /** The operations in hand of the logs that are read and carry no terminal claim. */
  function Unfinished(env: Env, src: Source, skip: set<string>, names: seq<string>): set<Hash> {
    set c | c in names && c !in skip
            && Project(env, src.content(c)).terminalClaim == None
            && Project(env, src.content(c)).operationSha.Some?
        :: Project(env, src.content(c)).operationSha.value
  }

  /** What is known of an attempt that was found. */
  ghost predicate FoundIn(env: Env, src: Source, skip: set<string>, names: seq<string>, a: FoundAttempt) {
    && a.child in names && a.child !in skip
    && Readable(env, a.prefix) && a.projection == Project(env, a.prefix)
    && a.projection.operationSha == Some(a.sha)
    && env.Digest(a.operation) == a.sha
    && a.operation.labId == src.labId && a.operation.childAgentId == a.child
    && (a.latest <==> Some(a.sha) == Project(env, src.content(a.child)).operationSha)
    && HeldBy(env, src.content(a.child), a.operation)
  }

  /** The accumulators of the second loop. */
  datatype Found = Found(attempts: seq<FoundAttempt>, seen: set<Hash>, ids: set<Hash>)

  ghost predicate AllFound(env: Env, src: Source, terms: seq<FL.TerminationClaim>, names: seq<string>,
                           attempts: seq<FoundAttempt>)
  {
    forall i | 0 <= i < |attempts| :: FoundIn(env, src, TermChildren(terms), names, attempts[i])
  }

  predicate NoRepeats(shas: seq<Hash>) { forall i, j | 0 <= i < j < |shas| :: shas[i] != shas[j] }

  /** Every digest is counted once, and none is terminated. */
  predicate SeenWell(terms: seq<FL.TerminationClaim>, f: Found) {
    && f.seen == (set h | h in ShasOf(f.attempts))
    && |f.seen| == |f.attempts| && NoRepeats(ShasOf(f.attempts))
    && f.ids == TermIds(terms) + f.seen
    && f.seen !! TermIds(terms)
  }

  ghost predicate FoundWell(env: Env, src: Source, terms: seq<FL.TerminationClaim>, names: seq<string>, f: Found) {
    AllFound(env, src, terms, names, f.attempts) && SeenWell(terms, f)
  }

  /** Some listed log holds an operation of another child. */
  ghost predicate Misnamed(env: Env, src: Source) {
    exists c, i, op :: c in src.names && 0 <= i && HoldsOperation(env, src.content(c), i, op) && op.childAgentId != c
  }

  /** Two different operations that listed logs hold share a digest. */
  ghost predicate Collide(env: Env, src: Source) {
    exists c, d, a, b :: c in src.names && d in src.names && HeldBy(env, src.content(c), a)
                         && HeldBy(env, src.content(d), b) && a != b && env.Digest(a) == env.Digest(b)
  }

  ghost predicate HeldBy(env: Env, raw: bytes, op: Operation) { exists i :: HoldsOperation(env, raw, i, op) }

  /** The line that attempt `i` of the log starts on holds `op`. */
  ghost predicate HoldsOperation(env: Env, raw: bytes, i: int, op: Operation) {
    var h := Project(env, raw).history;
    && 0 <= i < |h|
    && OperationAt(env, raw, i) == Some(op)
    && env.Digest(op) == h[i].operationSha
    && op.attempt == h[i].attempt
  }

  /** What is known of one attempt of a log that was read again. */
  predicate AttemptKnown(env: Env, raw: bytes, s: AttemptSummary) {
    && 1 <= s.startLine <= s.endLine < |FileLines(raw)|
    && Readable(env, PrefixTo(raw, s.endLine))
    && Project(env, PrefixTo(raw, s.endLine)).operationSha == Some(s.operationSha)
    && (var start := env.lex(FileLines(raw)[s.startLine - 1]);
        && start.Value? && start.entry.data.OperationData?
        && env.Digest(start.entry.data.operation) == s.operationSha
        && start.entry.data.operation.attempt == s.attempt)
  }

  lemma AttemptFacts(env: Env, raw: bytes, i: nat)
    requires Project(env, raw).status.Observed? && i < |Project(env, raw).history|
    requires Reparsed(env, raw, i)
    ensures AttemptKnown(env, raw, Project(env, raw).history[i])
  {
  }

  function FileLines(raw: bytes): seq<bytes> { Lines.Split(raw, NEWLINE) }

  // ---- what a log must satisfy ----------------------------------------------------------------

  /** The operation on the line that attempt `i` of a log starts on. */
  function OperationAt(env: Env, raw: bytes, i: nat): Option<Operation> {
    var h := Project(env, raw).history;
    if i < |h| && 1 <= h[i].startLine <= |FileLines(raw)| then
      var start := env.lex(FileLines(raw)[h[i].startLine - 1]);
      if start.Value? && start.entry.data.OperationData? then Some(start.entry.data.operation) else None
    else None
  }

  /** The attempt names this lab and its own log's child, and its operation is not terminated. */
  predicate AttemptBound(env: Env, src: Source, terms: seq<FL.TerminationClaim>, child: string, i: nat) {
    var h, op := Project(env, src.content(child)).history, OperationAt(env, src.content(child), i);
    && i < |h| && h[i].operationSha !in TermIds(terms)
    && op.Some? && op.value.labId == src.labId && op.value.childAgentId == child
  }

  /** The attempt has no more items than the caller allows. */
  predicate AttemptSmall(env: Env, src: Source, child: string, i: nat) {
    var op := OperationAt(env, src.content(child), i);
    op.Some? ==> src.items(op.value) <= src.itemCap
  }

  predicate LogBound(env: Env, src: Source, terms: seq<FL.TerminationClaim>, child: string) {
    forall i | 0 <= i < |Project(env, src.content(child)).history| :: AttemptBound(env, src, terms, child, i)
  }

  predicate LogSmall(env: Env, src: Source, child: string) {
    forall i | 0 <= i < |Project(env, src.content(child)).history| :: AttemptSmall(env, src, child, i)
  }

  /** Every attempt of every log that is read is bound as it should. */
  predicate WellBound(env: Env, src: Source, terms: seq<FL.TerminationClaim>, names: seq<string>) {
    forall c | c in names && c !in TermChildren(terms) :: LogBound(env, src, terms, c)
  }

  /** Every log that is read is short enough, and its attempts are small enough. */
  predicate LogsFit(env: Env, src: Source, skip: set<string>, names: seq<string>) {
    forall c | c in names && c !in skip :: |src.content(c)| <= 16777216 && LogSmall(env, src, c)
  }

  /** The attempts found so far of the log in hand. */
  ghost predicate FromLog(env: Env, h: seq<AttemptSummary>, found: seq<FoundAttempt>, from: nat) {
    && from <= |found| <= from + |h|
    && forall k | from <= k < |found| ::
         found[k].sha == h[k - from].operationSha && found[k].operation.attempt == h[k - from].attempt
  }

  /** A digest that was seen before is an operation of another child, or a collision. */
  lemma DuplicateIsMisnamed(env: Env, src: Source, terms: seq<FL.TerminationClaim>, before: seq<string>, child: string,
                            f: Found, from: nat, i: nat, op: Operation)
    requires FoundWell(env, src, terms, before + [child], f) && child !in before
    requires child in src.names && forall c | c in before :: c in src.names
    requires Project(env, src.content(child)).status != StatusCorrupt
    requires HoldsOperation(env, src.content(child), i, op) && env.Digest(op) in f.seen
    requires FromLog(env, Project(env, src.content(child)).history, f.attempts, from) && |f.attempts| == from + i
    requires forall k | 0 <= k < from :: f.attempts[k].child in before
    ensures Misnamed(env, src) || Collide(env, src)
  {
    hide Project, Readable, FoundWell, Misnamed, HoldsOperation, Collide, HeldBy;
    var k := SeenAttempt(env, src, terms, before + [child], f, op);
    if f.attempts[k].operation != op {
      TheyCollide(env, src, f.attempts[k].child, f.attempts[k].operation, child, i, op);
    } else if k < from {
      NotHere(env, src, child, i, op);
    } else {
      SameDigest(env, src.content(child), i, op, f, from, k);
    }
  }

  lemma SeenAttempt(env: Env, src: Source, terms: seq<FL.TerminationClaim>, names: seq<string>, f: Found, op: Operation)
    returns (k: nat)
    requires FoundWell(env, src, terms, names, f) && env.Digest(op) in f.seen
    ensures k < |f.attempts| && env.Digest(f.attempts[k].operation) == f.attempts[k].sha == env.Digest(op)
    ensures f.attempts[k].child == f.attempts[k].operation.childAgentId && f.attempts[k].child in names
    ensures HeldBy(env, src.content(f.attempts[k].child), f.attempts[k].operation)
  {
    hide Project, Readable, TermChildren, TermIds, HeldBy;
    k :| 0 <= k < |f.attempts| && f.attempts[k].sha == env.Digest(op);
    assert FoundIn(env, src, TermChildren(terms), names, f.attempts[k]);
  }

  lemma TheyCollide(env: Env, src: Source, c: string, a: Operation, d: string, i: nat, b: Operation)
    requires c in src.names && d in src.names && HeldBy(env, src.content(c), a)
    requires HoldsOperation(env, src.content(d), i, b) && a != b && env.Digest(a) == env.Digest(b)
    ensures Collide(env, src)
  {
    hide HoldsOperation;
    assert HeldBy(env, src.content(d), b);
  }

  lemma NotHere(env: Env, src: Source, child: string, i: nat, op: Operation)
    requires child in src.names && HoldsOperation(env, src.content(child), i, op) && op.childAgentId != child
    ensures Misnamed(env, src)
  {
    hide HoldsOperation;
  }

  /** Within one log no two attempts hold the same operation. */
  lemma SameDigest(env: Env, raw: bytes, i: nat, op: Operation, f: Found, from: nat, k: nat)
    requires Project(env, raw).status != StatusCorrupt && HoldsOperation(env, raw, i, op)
    requires FromLog(env, Project(env, raw).history, f.attempts, from) && |f.attempts| == from + i
    requires from <= k < |f.attempts|
    ensures f.attempts[k].operation != op
  {
    hide Project;
    HistoryIncreases(env, raw, k - from, i);
  }

  function AddFound(f: Found, a: FoundAttempt): Found {
    Found(f.attempts + [a], f.seen + {a.sha}, f.ids + {a.sha})
  }

  lemma AddKeepsSeen(terms: seq<FL.TerminationClaim>, f: Found, a: FoundAttempt)
    requires SeenWell(terms, f) && a.sha !in f.ids
    ensures SeenWell(terms, AddFound(f, a))
    ensures ShasOf(AddFound(f, a).attempts) == ShasOf(f.attempts) + [a.sha]
  {
    hide TermIds;
    assert ShasOf(f.attempts + [a]) == ShasOf(f.attempts) + [a.sha];
  }

  lemma SeenAreIds(terms: seq<FL.TerminationClaim>, f: Found)
    requires SeenWell(terms, f)
    ensures |f.seen| <= |f.ids|
  {
    assert f.ids - f.seen == TermIds(terms);
  }

  lemma AddKeepsFound(env: Env, src: Source, terms: seq<FL.TerminationClaim>, names: seq<string>, f: Found,
                      a: FoundAttempt)
    requires FoundWell(env, src, terms, names, f) && FoundIn(env, src, TermChildren(terms), names, a)
    requires a.sha !in f.ids
    ensures FoundWell(env, src, terms, names, AddFound(f, a))
    ensures ShasOf(AddFound(f, a).attempts) == ShasOf(f.attempts) + [a.sha]
  {
    hide FoundIn, SeenWell, ShasOf;
    AddKeepsSeen(terms, f, a);
  }

  /** More listed names keep what was found. */
  lemma NamesKeepFound(env: Env, src: Source, terms: seq<FL.TerminationClaim>, names: seq<string>, child: string,
                       f: Found)
    requires FoundWell(env, src, terms, names, f)
    ensures FoundWell(env, src, terms, names + [child], f)
  {
    hide Project, Readable;
  }

  /** What the loop over the attempts of one log has taken so far. */
  ghost predicate Taking(env: Env, src: Source, terms: seq<FL.TerminationClaim>, before: seq<string>, child: string,
                         h: seq<AttemptSummary>, f0: Found, f: Found, i: nat)
    requires i <= |h|
  {
    && FoundWell(env, src, terms, before + [child], f)
    && ShasOf(f.attempts) == ShasOf(f0.attempts) + HistoryShas(h[..i])
    && f0.attempts <= f.attempts && |f.attempts| == |f0.attempts| + i
    && FromLog(env, h, f.attempts, |f0.attempts|)
    && (forall k | 0 <= k < |f0.attempts| :: f0.attempts[k].child in before)
    && (forall k | |f0.attempts| <= k < |f.attempts| :: f.attempts[k].child == child)
    && |f.ids| == |f0.ids| + i
  }

  /** The first `i` attempts of the log are bound as they should, and small. */
  predicate TakenWell(env: Env, src: Source, terms: seq<FL.TerminationClaim>, child: string, i: nat) {
    forall j | 0 <= j < i :: AttemptBound(env, src, terms, child, j) && AttemptSmall(env, src, child, j)
  }

  lemma TakingStep(env: Env, src: Source, terms: seq<FL.TerminationClaim>, before: seq<string>, child: string,
                   h: seq<AttemptSummary>, f0: Found, f: Found, i: nat, a: FoundAttempt)
    requires i < |h| && Taking(env, src, terms, before, child, h, f0, f, i)
    requires FoundIn(env, src, TermChildren(terms), before + [child], a) && a.sha !in f.ids && a.child == child
    requires a.sha == h[i].operationSha && a.operation.attempt == h[i].attempt
    ensures Taking(env, src, terms, before, child, h, f0, AddFound(f, a), i + 1)
    ensures |AddFound(f, a).seen| <= |AddFound(f, a).ids| == |f0.ids| + i + 1
  {
    hide FoundIn, AllFound, SeenWell, TermChildren, ShasOf;
    AddKeepsFound(env, src, terms, before + [child], f, a);
    SeenAreIds(terms, AddFound(f, a));
    assert HistoryShas(h[..i + 1]) == HistoryShas(h[..i]) + [a.sha];
  }

  /** The attempts of one log, each checked and added. */
  method TakeAttempts(env: Env, src: Source, ghost terms: seq<FL.TerminationClaim>, ghost before: seq<string>,
                      child: string, whole: LogProjection, f0: Found)
    returns (error: Option<Refusal>, f: Found)
    requires whole == Project(env, src.content(child)) && Readable(env, src.content(child))
    requires child in src.names && child !in before && child !in TermChildren(terms)
    requires forall c | c in before :: c in src.names
    requires FoundWell(env, src, terms, before, f0)
             && forall k | 0 <= k < |f0.attempts| :: f0.attempts[k].child in before
    ensures error.None? ==> FoundWell(env, src, terms, before + [child], f)
    ensures error.None? ==> ShasOf(f.attempts) == ShasOf(f0.attempts) + HistoryShas(whole.history)
    ensures error.None? ==> forall k | 0 <= k < |f.attempts| :: f.attempts[k].child in before + [child]
    ensures error.None? ==> LogBound(env, src, terms, child) && LogSmall(env, src, child)
    ensures error.None? ==> |f.ids| == |f0.ids| + |whole.history| <= Max(|f0.ids|, MAX_OPERATIONS)
    ensures error == Some(DuplicateOperation) ==> !NoRepeats(ShasOf(f0.attempts) + HistoryShas(whole.history))
    ensures error == Some(DuplicateOperation) ==> Misnamed(env, src) || Collide(env, src)
    ensures error == Some(BindingMismatch) ==> !LogBound(env, src, terms, child)
    ensures error == Some(SourceLimit) ==>
              !LogSmall(env, src, child) || |f0.ids| + |whole.history| > MAX_OPERATIONS
    ensures error != Some(FaultLogUnavailable) && error != Some(LogUnavailable)
  {
    hide Project, Readable, IsRead, FoundIn, FoundWell, Misnamed, Collide, HoldsOperation, Taking, ShasOf, HistoryShas;
    hide TermChildren, TermIds, OperationAt, NoRepeats;
    var raw := src.content(child);
    var blocked, read := Attempts(env, raw, whole);
    f := f0;
    TakingStarts(env, src, terms, before, child, whole.history, f0);
    for i := 0 to |read|
      invariant Taking(env, src, terms, before, child, whole.history, f0, f, i)
      invariant TakenWell(env, src, terms, child, i)
      invariant |f.ids| <= Max(|f0.ids|, MAX_OPERATIONS)
    {
      TakingGives(env, src, terms, before, child, whole.history, f0, f, i);
      AttemptChecks(env, src, terms, before, child, whole, f, |f0.attempts|, i, read[i]);
      var sha := read[i].projection.operationSha.value;
      if sha in f.seen {
        SeenRepeats(env, src, terms, before, child, whole.history, f0, f, i);
        return Some(DuplicateOperation), f;
      }
      var op := read[i].operation;
      assert AttemptBound(env, src, terms, child, i)
             <==> op.labId == src.labId && op.childAgentId == child && sha !in f.ids;
      if op.labId != src.labId || op.childAgentId != child { return Some(BindingMismatch), f; }
      if sha in f.ids { return Some(BindingMismatch), f; }
      var a := FoundAttempt(child, sha, op, read[i].prefix, read[i].projection, Some(sha) == whole.operationSha);
      TakingStep(env, src, terms, before, child, whole.history, f0, f, i, a);
      f := AddFound(f, a);
      if |f.seen| > MAX_OPERATIONS || |f.ids| > MAX_OPERATIONS { return Some(SourceLimit), f; }
      assert AttemptSmall(env, src, child, i) <==> src.items(op) <= src.itemCap;
      if src.items(op) > src.itemCap { return Some(SourceLimit), f; }
    }
    TakingEnds(env, src, terms, before, child, whole.history, f0, f);
    error := None;
  }

  lemma TakingStarts(env: Env, src: Source, terms: seq<FL.TerminationClaim>, before: seq<string>, child: string,
                     h: seq<AttemptSummary>, f0: Found)
    requires FoundWell(env, src, terms, before, f0)
             && forall k | 0 <= k < |f0.attempts| :: f0.attempts[k].child in before
    ensures Taking(env, src, terms, before, child, h, f0, f0, 0)
  {
    NamesKeepFound(env, src, terms, before, child, f0);
    hide FoundWell;
  }

  lemma TakingGives(env: Env, src: Source, terms: seq<FL.TerminationClaim>, before: seq<string>, child: string,
                    h: seq<AttemptSummary>, f0: Found, f: Found, i: nat)
    requires i <= |h| && Taking(env, src, terms, before, child, h, f0, f, i)
    ensures FoundWell(env, src, terms, before + [child], f)
    ensures FromLog(env, h, f.attempts, |f0.attempts|) && |f.attempts| == |f0.attempts| + i
    ensures forall k | 0 <= k < |f0.attempts| :: f.attempts[k].child in before
    ensures f.ids == TermIds(terms) + f.seen && |f.ids| == |f0.ids| + i
  {
    hide AllFound, ShasOf, HistoryShas, FromLog, TermIds, NoRepeats;
  }

  /** A digest seen before repeats among the digests so far and those of the log in hand. */
  lemma SeenRepeats(env: Env, src: Source, terms: seq<FL.TerminationClaim>, before: seq<string>, child: string,
                    h: seq<AttemptSummary>, f0: Found, f: Found, i: nat)
    requires i < |h| && Taking(env, src, terms, before, child, h, f0, f, i) && h[i].operationSha in f.seen
    ensures !NoRepeats(ShasOf(f0.attempts) + HistoryShas(h))
  {
    hide AllFound, FromLog, TermIds, NoRepeats, ShasOf, HistoryShas;
    FirstShas(h, i);
    RepeatedSha(ShasOf(f0.attempts), HistoryShas(h), ShasOf(f.attempts), i);
  }

  lemma FirstShas(h: seq<AttemptSummary>, i: nat)
    requires i < |h|
    ensures |HistoryShas(h)| == |h| && HistoryShas(h)[i] == h[i].operationSha
            && HistoryShas(h[..i]) == HistoryShas(h)[..i]
  {
  }

  /** A digest that is already among the first ones repeats in the whole. */
  lemma RepeatedSha(a: seq<Hash>, b: seq<Hash>, seen: seq<Hash>, i: nat)
    requires i < |b| && seen == a + b[..i] && b[i] in seen
    ensures !NoRepeats(a + b)
  {
    var k :| 0 <= k < |seen| && seen[k] == b[i];
    assert (a + b)[k] == seen[k] && (a + b)[|a| + i] == b[i];
  }

  lemma TakingEnds(env: Env, src: Source, terms: seq<FL.TerminationClaim>, before: seq<string>, child: string,
                   h: seq<AttemptSummary>, f0: Found, f: Found)
    requires Taking(env, src, terms, before, child, h, f0, f, |h|)
    ensures FoundWell(env, src, terms, before + [child], f)
    ensures ShasOf(f.attempts) == ShasOf(f0.attempts) + HistoryShas(h) && |f.ids| == |f0.ids| + |h|
    ensures forall k | 0 <= k < |f.attempts| :: f.attempts[k].child in before + [child]
  {
    hide FoundWell, ShasOf, HistoryShas, FromLog;
    assert h[..|h|] == h;
  }

  lemma AttemptChecks(env: Env, src: Source, terms: seq<FL.TerminationClaim>, before: seq<string>, child: string,
                      whole: LogProjection, f: Found, from: nat, i: nat, read: ReadAttempt)
    requires whole == Project(env, src.content(child)) && Readable(env, src.content(child)) && i < |whole.history|
    requires child in src.names && child !in before && child !in TermChildren(terms)
    requires forall c | c in before :: c in src.names
    requires FoundWell(env, src, terms, before + [child], f)
    requires FromLog(env, whole.history, f.attempts, from) && |f.attempts| == from + i
    requires forall k | 0 <= k < from :: f.attempts[k].child in before
    requires IsRead(env, src.content(child), i, read)
    ensures read.projection.operationSha == Some(whole.history[i].operationSha)
    ensures read.operation.attempt == whole.history[i].attempt
    ensures OperationAt(env, src.content(child), i) == Some(read.operation)
    ensures read.operation.labId == src.labId && read.operation.childAgentId == child ==>
              FoundIn(env, src, TermChildren(terms), before + [child],
                      FoundAttempt(child, whole.history[i].operationSha, read.operation, read.prefix, read.projection,
                                   Some(whole.history[i].operationSha) == whole.operationSha))
    ensures whole.history[i].operationSha in f.seen ==> Misnamed(env, src) || Collide(env, src)
  {
    hide Project, Readable, IsRead, FoundWell, FromLog, FoundIn, TermChildren, HoldsOperation, Misnamed, Collide;
    hide OperationAt;
    AttemptIsRead(env, src, terms, before, child, whole, i, read);
    ObservedIsReadable(env, src.content(child));
    if whole.history[i].operationSha in f.seen {
      DuplicateIsMisnamed(env, src, terms, before, child, f, from, i, read.operation);
    }
  }

  lemma ObservedIsReadable(env: Env, raw: bytes)
    requires Readable(env, raw)
    ensures Project(env, raw).status.Observed?
  {
    hide Project;
  }

  /** What was read of an attempt. */
  lemma AttemptIsRead(env: Env, src: Source, terms: seq<FL.TerminationClaim>, before: seq<string>, child: string,
                      whole: LogProjection, i: nat, read: ReadAttempt)
    requires whole == Project(env, src.content(child)) && Readable(env, src.content(child)) && i < |whole.history|
    requires child !in TermChildren(terms) && IsRead(env, src.content(child), i, read)
    ensures read.projection.operationSha == Some(whole.history[i].operationSha)
    ensures read.operation.attempt == whole.history[i].attempt
    ensures env.Digest(read.operation) == whole.history[i].operationSha
    ensures OperationAt(env, src.content(child), i) == Some(read.operation)
    ensures HoldsOperation(env, src.content(child), i, read.operation)
    ensures read.operation.labId == src.labId && read.operation.childAgentId == child ==>
              FoundIn(env, src, TermChildren(terms), before + [child],
                      FoundAttempt(child, whole.history[i].operationSha, read.operation, read.prefix, read.projection,
                                   Some(whole.history[i].operationSha) == whole.operationSha))
  {
    hide Project, TermChildren;
    ObservedIsReadable(env, src.content(child));
    AttemptFacts(env, src.content(child), i);
  }

  // ---- the terminated operations --------------------------------------------------------------

  /** The per-child table: with one termination a child, it holds every claim. */
  method TerminalTable(terms: seq<FL.TerminationClaim>) returns (table: map<string, FL.TerminationClaim>)
    ensures table.Keys == TermChildren(terms)
    ensures TermsDistinct(terms) ==> forall i | 0 <= i < |terms| :: table[terms[i].child] == terms[i]
  {
    table := map[];
    for n := 0 to |terms|
      invariant table.Keys == TermChildren(terms[..n])
      invariant TermsDistinct(terms) ==>
                  forall i | 0 <= i < n :: terms[i].child in table && table[terms[i].child] == terms[i]
    {
      assert terms[..n + 1] == terms[..n] + [terms[n]];
      table := table[terms[n].child := terms[n]];
    }
    assert terms[..|terms|] == terms;
  }

  function Sizes(unread: seq<UnreadLog>): nat {
    if unread == [] then 0
    else Sizes(unread[..|unread| - 1]) + (match unread[|unread| - 1].size case None => 0 case Some(n) => n)
  }

  function ClaimsOf(unread: seq<UnreadLog>): seq<FL.TerminationClaim> {
    seq(|unread|, i requires 0 <= i < |unread| => unread[i].claim)
  }

  function ByChild(terms: seq<FL.TerminationClaim>): seq<FL.TerminationClaim> {
    SortBy(terms, (t: FL.TerminationClaim) => t.child)
  }

  lemma OneMoreUnread(unread: seq<UnreadLog>, u: UnreadLog)
    ensures ClaimsOf(unread + [u]) == ClaimsOf(unread) + [u.claim]
    ensures Sizes(unread + [u]) == Sizes(unread) + (match u.size case None => 0 case Some(n) => n)
  {
    assert (unread + [u])[..|unread|] == unread;
  }

  /** Each claim, looked up by its child, is found again. */
  lemma SortedClaims(terms: seq<FL.TerminationClaim>, table: map<string, FL.TerminationClaim>)
    requires forall i | 0 <= i < |terms| :: terms[i].child in table && table[terms[i].child] == terms[i]
    ensures forall n | 0 <= n < |ByChild(terms)| ::
              ByChild(terms)[n].child in table && table[ByChild(terms)[n].child] == ByChild(terms)[n]
  {
    SortByOrders(terms, (t: FL.TerminationClaim) => t.child);
    forall n | 0 <= n < |ByChild(terms)|
      ensures ByChild(terms)[n].child in table && table[ByChild(terms)[n].child] == ByChild(terms)[n]
    {
      assert ByChild(terms)[n] in multiset(ByChild(terms));
      assert ByChild(terms)[n] in multiset(terms);
    }
  }

  /** The terminated operations in the order of their children, with the sizes of their logs. */
  function Unread(src: Source, terms: seq<FL.TerminationClaim>): seq<UnreadLog> {
    var sorted := ByChild(terms);
    seq(|sorted|, i requires 0 <= i < |sorted| => UnreadLog(sorted[i], src.unreadSize(sorted[i].child)))
  }

  /** Every log that is not read has at most 16 MiB, and all of them together at most 32. */
  predicate UnreadFits(unread: seq<UnreadLog>) {
    && (forall u | u in unread :: u.size.Some? ==> u.size.value <= 16777216)
    && Sizes(unread) <= 33554432
  }

  lemma {:induction false} SizesGrow(unread: seq<UnreadLog>, n: nat)
    requires n <= |unread|
    ensures Sizes(unread[..n]) <= Sizes(unread)
  {
    if n == |unread| {
      assert unread[..n] == unread;
    } else {
      SizesGrow(unread[..|unread| - 1], n);
      assert unread[..|unread| - 1][..n] == unread[..n];
    }
  }

  /** Looking up the metadata of the unread logs succeeds exactly if their sizes fit. */
  method ListUnread(src: Source, terms: seq<FL.TerminationClaim>) returns (r: Result<seq<UnreadLog>, Refusal>)
    requires TermsDistinct(terms)
    ensures ClaimsOf(Unread(src, terms)) == ByChild(terms)
    ensures r == if UnreadFits(Unread(src, terms)) then Ok(Unread(src, terms)) else Err(SourceLimit)
  {
    hide Sizes, ByChild, TermsDistinct;
    var table := TerminalTable(terms);
    var sorted := ByChild(terms);
    SortedClaims(terms, table);
    ghost var all := Unread(src, terms);
    var unread: seq<UnreadLog> := [];
    var total := 0;
    NoUnread();
    for n := 0 to |sorted|
      invariant unread == all[..n] && total == Sizes(unread) <= MAX_SCAN
      invariant forall u | u in unread :: u.size.Some? ==> u.size.value <= MAX_LOG
    {
      var child := sorted[n].child;
      var claim := table[child];
      var size := src.unreadSize(child);
      OneMoreUnread(unread, UnreadLog(claim, size));
      unread := unread + [UnreadLog(claim, size)];
      assert unread == all[..n + 1] && all[n] == UnreadLog(claim, size);
      SizesGrow(all, n + 1);
      if size.Some? {
        if size.value > MAX_LOG { return Err(SourceLimit); }
        total := total + size.value;
        if total > MAX_SCAN { return Err(SourceLimit); }
      }
    }
    assert all[..|sorted|] == all;
    return Ok(unread);
  }

  lemma NoUnread()
    ensures ClaimsOf([]) == [] && Sizes([]) == 0
  {
  }

  // ---- the acquisition ------------------------------------------------------------------------

  function ReadSizes(src: Source, skip: set<string>, names: seq<string>): nat {
    if names == [] then 0
    else
      var child := names[|names| - 1];
      ReadSizes(src, skip, names[..|names| - 1]) + (if child in skip then 0 else |src.content(child)|)
  }

  /** All logs that are read are complete logs of an operation. */
  predicate AllReadable(env: Env, src: Source, skip: set<string>, names: seq<string>) {
    forall c | c in names && c !in skip :: Readable(env, src.content(c))
  }

  /** What the loop over the listing has established for the names it has passed. */
  ghost predicate Passed(env: Env, src: Source, terms: seq<FL.TerminationClaim>, names: seq<string>, f: Found,
                         pending: set<Hash>) {
    var skip := TermChildren(terms);
    && FoundWell(env, src, terms, names, f)
    && AllReadable(env, src, skip, names) && WellBound(env, src, terms, names) && LogsFit(env, src, skip, names)
    && ShasOf(f.attempts) == ReadShas(env, src, skip, names)
    && pending == Unfinished(env, src, skip, names)
    && forall k | 0 <= k < |f.attempts| :: f.attempts[k].child in names
  }

  /** A listed child whose operation is terminated is passed over. */
  lemma SkippedPasses(env: Env, src: Source, terms: seq<FL.TerminationClaim>, names: seq<string>, child: string,
                      f: Found, pending: set<Hash>)
    requires Passed(env, src, terms, names, f, pending) && child in TermChildren(terms)
    ensures Passed(env, src, terms, names + [child], f, pending)
    ensures ReadSizes(src, TermChildren(terms), names + [child]) == ReadSizes(src, TermChildren(terms), names)
  {
    hide Project, Readable, FoundWell, TermChildren, LogBound, LogSmall;
    NamesKeepFound(env, src, terms, names, child, f);
    assert (names + [child])[..|names|] == names;
  }

  lemma ReadPasses(env: Env, src: Source, terms: seq<FL.TerminationClaim>, names: seq<string>, child: string, f: Found,
                   g: Found, pending: set<Hash>, whole: LogProjection)
    requires Passed(env, src, terms, names, f, pending) && child !in TermChildren(terms)
    requires whole == Project(env, src.content(child)) && Readable(env, src.content(child))
    requires FoundWell(env, src, terms, names + [child], g)
    requires ShasOf(g.attempts) == ShasOf(f.attempts) + HistoryShas(whole.history)
    requires forall k | 0 <= k < |g.attempts| :: g.attempts[k].child in names + [child]
    requires whole.operationSha.Some?
    requires LogBound(env, src, terms, child) && LogSmall(env, src, child) && |src.content(child)| <= MAX_LOG
    ensures Passed(env, src, terms, names + [child], g,
                   if whole.terminalClaim == None then pending + {whole.operationSha.value} else pending)
    ensures ReadSizes(src, TermChildren(terms), names + [child])
            == ReadSizes(src, TermChildren(terms), names) + |src.content(child)|
  {
    hide Project, Readable, FoundWell, TermChildren, ShasOf, HistoryShas, LogBound, LogSmall;
    assert (names + [child])[..|names|] == names;
  }

  lemma ReadableHasOperation(env: Env, raw: bytes)
    requires Readable(env, raw)
    ensures Project(env, raw).operationSha.Some?
  {
    hide Feed;
    var events, states := AcceptedRun(env, raw);
    RunsKeepInv(env, events, states, |events|);
  }

  /**
   * What a finished acquisition holds: every termination exactly once, every attempt of every other
   * log exactly once, and as query universe the disjoint union of both.
   */
  ghost predicate Complete(env: Env, src: Source, terms: seq<FL.TerminationClaim>, inv: Inventory) {
    var skip := TermChildren(terms);
    var attempts := Found(inv.attempts, (set h | h in ShasOf(inv.attempts)), inv.operationIds);
    && multiset(ClaimsOf(inv.unread)) == multiset(terms)
    && (forall u | u in inv.unread :: u.size == src.unreadSize(u.claim.child))
    && Passed(env, src, terms, src.names, attempts, inv.pending)
    && |inv.operationIds| == |terms| + |inv.attempts|
    && |inv.operationIds| <= MAX_OPERATIONS
    && Sizes(inv.unread) + ReadSizes(src, skip, src.names) <= MAX_SCAN
  }

  /** As many digests as terminations, when none repeats. */
  lemma {:induction false} CountTermIds(terms: seq<FL.TerminationClaim>)
    requires TermsDistinct(terms)
    ensures |TermIds(terms)| == |terms|
  {
    if terms != [] {
      var n := |terms| - 1;
      CountTermIds(terms[..n]);
      assert terms == terms[..n] + [terms[n]];
      assert TermIds(terms) == TermIds(terms[..n]) + {terms[n].operation};
    }
  }

  lemma Completes(env: Env, src: Source, terms: seq<FL.TerminationClaim>, unread: seq<UnreadLog>, f: Found,
                  pending: set<Hash>)
    requires TermsDistinct(terms) && ClaimsOf(unread) == ByChild(terms)
    requires unread == Unread(src, terms)
    requires Passed(env, src, terms, src.names, f, pending)
    requires |f.ids| <= MAX_OPERATIONS && Sizes(unread) + ReadSizes(src, TermChildren(terms), src.names) <= MAX_SCAN
    ensures Complete(env, src, terms, Inventory(f.attempts, unread, f.ids, pending))
  {
    hide AllFound, AllReadable, ReadShas, Unfinished, TermChildren, WellBound, LogsFit, Sizes, ReadSizes, NoRepeats;
    SortByOrders(terms, (t: FL.TerminationClaim) => t.child);
    CountTermIds(terms);
    assert Found(f.attempts, (set h | h in ShasOf(f.attempts)), f.ids) == f;
  }

  lemma NothingPassed(env: Env, src: Source, terms: seq<FL.TerminationClaim>)
    ensures Passed(env, src, terms, [], Found([], {}, TermIds(terms)), {})
  {
  }

  /** Sizes, items and counts keep to every limit of the acquisition: 32 MiB and 256 operations in all. */
  predicate Affordable(env: Env, src: Source, terms: seq<FL.TerminationClaim>) {
    var skip := TermChildren(terms);
    && UnreadFits(Unread(src, terms)) && LogsFit(env, src, skip, src.names)
    && Sizes(Unread(src, terms)) + ReadSizes(src, skip, src.names) <= 33554432
    && |terms| + |ReadShas(env, src, skip, src.names)| <= 256
  }

  /** The digests of all attempts of the logs that are read. */
  function AllShas(env: Env, src: Source, terms: seq<FL.TerminationClaim>): seq<Hash> {
    ReadShas(env, src, TermChildren(terms), src.names)
  }

  lemma {:induction false} PrefixOfAll(env: Env, src: Source, skip: set<string>, names: seq<string>, n: nat)
    requires n <= |names|
    ensures ReadShas(env, src, skip, names[..n]) <= ReadShas(env, src, skip, names)
    ensures ReadSizes(src, skip, names[..n]) <= ReadSizes(src, skip, names)
  {
    hide Project, HistoryShas;
    if n == |names| {
      assert names[..n] == names;
    } else {
      PrefixOfAll(env, src, skip, names[..|names| - 1], n);
      assert names[..|names| - 1][..n] == names[..n];
    }
  }

  /** What one log that is read adds to the ones before it is part of the whole. */
  lemma OneOfAll(env: Env, src: Source, terms: seq<FL.TerminationClaim>, n: nat, f: Found, pending: set<Hash>)
    requires n < |src.names| && src.names[n] !in TermChildren(terms) && TermsDistinct(terms)
    requires Passed(env, src, terms, src.names[..n], f, pending)
    ensures var history, skip := Project(env, src.content(src.names[n])).history, TermChildren(terms);
            && (NoRepeats(AllShas(env, src, terms)) ==> NoRepeats(ShasOf(f.attempts) + HistoryShas(history)))
            && |f.ids| + |history| <= |terms| + |AllShas(env, src, terms)|
            && ReadSizes(src, skip, src.names[..n]) + |src.content(src.names[n])| <= ReadSizes(src, skip, src.names)
  {
    hide Project, AllFound, TermChildren, TermIds, AllReadable, WellBound, LogsFit, Unfinished, TermsDistinct;
    CountIds(terms, f);
    PrefixOfAll(env, src, TermChildren(terms), src.names, n + 1);
    assert src.names[..n + 1][..n] == src.names[..n];
  }

  /** As many ids as terminations and attempts together. */
  lemma CountIds(terms: seq<FL.TerminationClaim>, f: Found)
    requires TermsDistinct(terms) && SeenWell(terms, f)
    ensures |f.ids| == |terms| + |f.attempts| && |ShasOf(f.attempts)| == |f.attempts|
  {
    hide TermIds, TermsDistinct, NoRepeats;
    CountTermIds(terms);
  }

  /**
   * `acquire_logs`, with the directory and the files as inputs: it succeeds exactly if the fault log is
   * intact, every limit is kept, every log that is read is readable and bound as it should, and no digest
   * repeats; and a refusal names a condition that fails.
   */
  method AcquireLogs(env: Env, faultEnv: FL.FaultEnv, faultRaw: bytes, src: Source)
    returns (r: Result<Inventory, Refusal>)
    requires forall i, j | 0 <= i < j < |src.names| :: src.names[i] != src.names[j]
    ensures var faults := FL.ProjectFaults(faultEnv, faultRaw, src.labId);
            var terms := faults.terms;
            && (r == Err(FaultLogUnavailable) <==> faults.status == FL.FaultsCorrupt)
            && (r.Ok? ==> Complete(env, src, terms, r.value))
            && (r.Ok? <==> faults.status != FL.FaultsCorrupt && Affordable(env, src, terms)
                           && AllReadable(env, src, TermChildren(terms), src.names)
                           && WellBound(env, src, terms, src.names) && NoRepeats(AllShas(env, src, terms)))
            && (r == Err(SourceLimit) ==> !Affordable(env, src, terms))
            && (r == Err(LogUnavailable) ==> !AllReadable(env, src, TermChildren(terms), src.names))
            && (r == Err(BindingMismatch) ==> !WellBound(env, src, terms, src.names))
            && (r == Err(DuplicateOperation) ==> !NoRepeats(AllShas(env, src, terms)))
            && (r == Err(DuplicateOperation) ==> Misnamed(env, src) || Collide(env, src))
  {
    hide FL.ProjectFaults, Passed, Complete, FoundWell, AllReadable;
    hide Sizes, ReadSizes, Project, Readable, Misnamed, Collide;
    hide TermChildren, WellBound, LogsFit, Unread, NoRepeats, AllShas, HistoryShas;
    var faults := FL.ProjectFaultLog(faultEnv, faultRaw, src.labId);
    if faults.status == FL.FaultsCorrupt { return Err(FaultLogUnavailable); }
    ProjectedTermsAreDistinct(faultEnv, faultRaw, src.labId);
    var terms := faults.terms;
    CountTermIds(terms);
    var listed := ListUnread(src, terms);
    if listed.Err? { return Err(listed.error); }
    var unread := listed.value;
    var f := Found([], {}, TermIds(terms));
    if |f.ids| > MAX_OPERATIONS { return Err(SourceLimit); }
    var pending: set<Hash> := {};
    var total := Sizes(unread);
    NothingPassed(env, src, terms);
    NothingRead(src, terms);
    for n := 0 to |src.names|
      invariant Passed(env, src, terms, src.names[..n], f, pending)
      invariant total == Sizes(unread) + ReadSizes(src, TermChildren(terms), src.names[..n]) <= MAX_SCAN
      invariant |f.ids| <= MAX_OPERATIONS
    {
      var child := src.names[n];
      assert src.names[..n + 1] == src.names[..n] + [child];
      if child in TermChildren(terms) {
        SkippedPasses(env, src, terms, src.names[..n], child, f, pending);
      } else {
        var error, next, more := ReadOne(env, src, terms, n, f, pending, total);
        OneOfAll(env, src, terms, n, f, pending);
        if error.Some? {
          OneRefuses(env, src, terms, n, |f.ids|, total, error.value);
          return Err(error.value);
        }
        total := total + |src.content(child)|;
        f, pending := next, more;
      }
    }
    assert src.names[..|src.names|] == src.names;
    Completes(env, src, terms, unread, f, pending);
    AllPassed(env, src, terms, unread, f, pending);
    return Ok(Inventory(f.attempts, unread, f.ids, pending));
  }

  /** What refuses one log, in terms of that log. */
  ghost predicate RefusesOne(env: Env, src: Source, terms: seq<FL.TerminationClaim>, child: string, ids: nat,
                             total: nat, error: Refusal)
  {
    var raw := src.content(child);
    match error
    case SourceLimit =>
      |raw| > MAX_LOG || total + |raw| > MAX_SCAN || !LogSmall(env, src, child)
      || ids + |Project(env, raw).history| > MAX_OPERATIONS
    case LogUnavailable => !Readable(env, raw)
    case BindingMismatch => !LogBound(env, src, terms, child)
    case DuplicateOperation => true
    case FaultLogUnavailable => false
  }

  lemma OneRefuses(env: Env, src: Source, terms: seq<FL.TerminationClaim>, n: nat, ids: nat, total: nat, error: Refusal)
    requires n < |src.names| && src.names[n] !in TermChildren(terms)
    requires RefusesOne(env, src, terms, src.names[n], ids, total, error)
    requires ids + |Project(env, src.content(src.names[n])).history| <= |terms| + |AllShas(env, src, terms)|
    requires total + |src.content(src.names[n])|
             <= Sizes(Unread(src, terms)) + ReadSizes(src, TermChildren(terms), src.names)
    ensures error == SourceLimit ==> !Affordable(env, src, terms)
    ensures error == LogUnavailable ==> !AllReadable(env, src, TermChildren(terms), src.names)
    ensures error == BindingMismatch ==> !WellBound(env, src, terms, src.names)
    ensures error != FaultLogUnavailable
  {
    hide Project, TermChildren, LogSmall, LogBound, Readable, Unread, ReadSizes, ReadShas;
  }

  /** A finished loop has met every condition. */
  lemma AllPassed(env: Env, src: Source, terms: seq<FL.TerminationClaim>, unread: seq<UnreadLog>, f: Found,
                  pending: set<Hash>)
    requires Passed(env, src, terms, src.names, f, pending) && TermsDistinct(terms) && |f.ids| <= MAX_OPERATIONS
    requires unread == Unread(src, terms) && UnreadFits(unread)
    requires Sizes(unread) + ReadSizes(src, TermChildren(terms), src.names) <= MAX_SCAN
    ensures Affordable(env, src, terms) && NoRepeats(AllShas(env, src, terms))
    ensures AllReadable(env, src, TermChildren(terms), src.names) && WellBound(env, src, terms, src.names)
  {
    hide TermChildren, AllFound, AllReadable, WellBound, LogsFit;
    hide UnreadFits, Unread, NoRepeats, ReadShas, TermIds, TermsDistinct;
    hide Unfinished, ReadSizes, Sizes;
    CountIds(terms, f);
  }

  lemma NothingRead(src: Source, terms: seq<FL.TerminationClaim>)
    ensures ReadSizes(src, TermChildren(terms), []) == 0
  {
  }

  /** One log of the listing that is read. */
  method ReadOne(env: Env, src: Source, terms: seq<FL.TerminationClaim>, n: nat, f: Found, pending: set<Hash>,
                 total: nat)
    returns (error: Option<Refusal>, g: Found, more: set<Hash>)
    requires n < |src.names| && src.names[n] !in TermChildren(terms) && src.names[n] !in src.names[..n]
    requires Passed(env, src, terms, src.names[..n], f, pending) && total <= MAX_SCAN && |f.ids| <= MAX_OPERATIONS
    ensures error.None? ==> Passed(env, src, terms, src.names[..n + 1], g, more) && |g.ids| <= MAX_OPERATIONS
    ensures error.None? ==> ReadSizes(src, TermChildren(terms), src.names[..n + 1])
                            == ReadSizes(src, TermChildren(terms), src.names[..n]) + |src.content(src.names[n])|
    ensures error.None? ==> total + |src.content(src.names[n])| <= MAX_SCAN
    ensures error.Some? ==> RefusesOne(env, src, terms, src.names[n], |f.ids|, total, error.value)
    ensures error == Some(DuplicateOperation) ==>
              !NoRepeats(ShasOf(f.attempts) + HistoryShas(Project(env, src.content(src.names[n])).history))
    ensures error == Some(DuplicateOperation) ==> Misnamed(env, src) || Collide(env, src)
  {
    hide Project, Readable, FoundWell, Misnamed, Collide, TermChildren;
    hide ReadSizes, ReadShas, Unfinished, ShasOf, HistoryShas, FoundIn;
    hide LogBound, LogSmall, NoRepeats;
    var child := src.names[n];
    ghost var before := src.names[..n];
    g, more := f, pending;
    var raw := src.content(child);
    if |raw| > MAX_LOG || |raw| > MAX_SCAN - total { return Some(SourceLimit), g, more; }
    var whole := ProjectLog(env, raw);
    if !(whole.status.Observed? && whole.status.mode != Empty && whole.status.mode != PreparationIncomplete) {
      assert !Readable(env, raw) by { NotReadable(env, raw, whole); }
      return Some(LogUnavailable), g, more;
    }
    NotReadable(env, raw, whole);
    ReadableHasOperation(env, raw);
    error, g := TakeAttempts(env, src, terms, before, child, whole, f);
    if error.Some? { return; }
    if whole.terminalClaim == None { more := more + {whole.operationSha.value}; }
    ReadPasses(env, src, terms, before, child, f, g, pending, whole);
    assert src.names[..n + 1] == before + [child];
  }

  lemma NotReadable(env: Env, raw: bytes, whole: LogProjection)
    requires whole == Project(env, raw)
    ensures Readable(env, raw)
            <==> whole.status.Observed? && whole.status.mode != Empty && whole.status.mode != PreparationIncomplete
  {
  }
}
