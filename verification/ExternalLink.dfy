/**
 * The terminations of the fault log against the single current ledger batch: each is resolved by a
 * row that repeats its embedded finding, or stays unresolved, and none is lost or counted twice.
 */
module ExternalLink {
  import opened Prelude
  import FL = FaultLog
  import FaultSafety
  import opened LedgerCoverage
  import opened Sorting

  datatype Linkage = Pass | Fail | NotEvaluated

  datatype LinkCode =
    | OperationLogFaulty
    | ExternalTerminationNotEvaluated
    | LegacyOperationUnbound
    | ExternalFindingDivergent

  datatype Binding = Binding(
    claim: FL.TerminationClaim,
    linkage: Linkage,
    classification: Option<bool>,
    row: Row,
    codes: seq<LinkCode>)

  datatype Bindings = Bindings(bindings: seq<Binding>, resolved: seq<Hash>, unresolved: seq<Hash>, coverage: Coverage)

  datatype LinkRefusal = BatchRefused(reason: Refusal) | FaultLogCorrupt | TooMany | NotQueried

  // ---- the entry behind a termination -----------------------------------------------------------

  /** The entries of the log by digest. */
  method EntryTable(env: FL.FaultEnv, lines: seq<bytes>) returns (table: map<Hash, FL.FaultEntry>)
    requires forall i | 0 <= i < |lines| :: env.lex(lines[i]).Some?
    ensures forall h | h in table :: env.digest(table[h]) == h && OnLine(env, lines, table[h])
    ensures forall i | 0 <= i < |lines| :: env.digest(env.lex(lines[i]).value) in table
  {
    table := map[];
    for n := 0 to |lines|
      invariant forall h | h in table :: env.digest(table[h]) == h && OnLine(env, lines, table[h])
      invariant forall i | 0 <= i < n :: env.digest(env.lex(lines[i]).value) in table
    {
      var e := env.lex(lines[n]).value;
      table := table[env.digest(e) := e];
    }
  }

  predicate OnLine(env: FL.FaultEnv, lines: seq<bytes>, e: FL.FaultEntry) {
    exists i | 0 <= i < |lines| :: env.lex(lines[i]) == Some(e)
  }

  /** No two different entries on these lines share a digest. */
  predicate EntriesDiffer(env: FL.FaultEnv, lines: seq<bytes>) {
    forall i, j | 0 <= i < |lines| && 0 <= j < |lines| ::
      env.lex(lines[i]).Some? && env.lex(lines[j]).Some?
      && env.digest(env.lex(lines[i]).value) == env.digest(env.lex(lines[j]).value) ==>
        env.lex(lines[i]) == env.lex(lines[j])
  }

  lemma AnswerIsMade(env: FL.FaultEnv, entries: seq<FL.FaultEntry>, i: int, j: int, t: FL.TerminationClaim)
    requires FaultSafety.AnsweredAt(env, entries, i, j, t)
    ensures 0 <= j < |entries| && FaultSafety.Made(env, entries[j], t)
  {
  }

  lemma ClaimsHaveEntries(env: FL.FaultEnv, raw: bytes, labId: string)
    requires FL.ProjectFaults(env, raw, labId).status != FL.FaultsCorrupt
    ensures var p := FL.ProjectFaults(env, raw, labId);
            && (forall i | 0 <= i < |p.lines| :: env.lex(p.lines[i]).Some?)
            && (forall t | t in p.terms ::
                  exists i :: 0 <= i < |p.lines| && FaultSafety.Made(env, env.lex(p.lines[i]).value, t))
  {
    hide FL.TakeLine, FaultSafety.Made, FaultSafety.AnsweredAt;
    var lines := FL.FaultLines(raw).value;
    var entries, states := FaultSafety.LinesRun(env, labId, FL.NO_FAULTS, lines);
    FaultSafety.TermsAreMade(env, labId, entries, states, |entries|);
    forall t | t in states[|entries|].terms
      ensures exists i :: 0 <= i < |lines| && FaultSafety.Made(env, env.lex(lines[i]).value, t)
    {
      var k, i :| FaultSafety.AnsweredAt(env, entries, k, i, t);
      AnswerIsMade(env, entries, k, i, t);
      assert env.lex(lines[i]) == Some(entries[i]);
    }
  }

  // ---- the linkage ------------------------------------------------------------------------------

  /** Does the current row say what the embedded observation said? */
  predicate Repeats(row: Row, o: FL.Observation) {
    row.status == o.status && row.operationEntries == o.operationEntries && row.entry == o.entry
  }

  function Ids(bindings: seq<Binding>): seq<Hash> {
    seq(|bindings|, i requires 0 <= i < |bindings| => bindings[i].claim.operation)
  }

  /** The operations whose linkage passed, or did not. */
  function Selected(bindings: seq<Binding>, passed: bool): seq<Hash> {
    if bindings == [] then []
    else
      var last := bindings[|bindings| - 1];
      Selected(bindings[..|bindings| - 1], passed)
      + (if (last.linkage == Pass) == passed then [last.claim.operation] else [])
  }

  /** Resolved and unresolved are a partition: together every operation as often as it was bound. */
  lemma {:induction false} SelectedPartition(bindings: seq<Binding>)
    ensures multiset(Selected(bindings, true)) + multiset(Selected(bindings, false)) == multiset(Ids(bindings))
  {
    if bindings != [] {
      hide Selected, Ids;
      var n := |bindings| - 1;
      SelectedPartition(bindings[..n]);
      IdsStep(bindings);
      SelectedStep(bindings, true);
      SelectedStep(bindings, false);
      OneMoreSelected(Selected(bindings[..n], true), Selected(bindings[..n], false), Ids(bindings[..n]),
                      bindings[n].claim.operation);
    }
  }

  lemma IdsStep(bindings: seq<Binding>)
    requires bindings != []
    ensures var n := |bindings| - 1;
            Ids(bindings) == Ids(bindings[..n]) + [bindings[n].claim.operation]
  {
  }

  lemma SelectedStep(bindings: seq<Binding>, passed: bool)
    requires bindings != []
    ensures var n := |bindings| - 1;
            Selected(bindings, passed)
               == if (bindings[n].linkage == Pass) == passed
                  then Selected(bindings[..n], passed) + [bindings[n].claim.operation]
                  else Selected(bindings[..n], passed)
  {
    var last := bindings[|bindings| - 1];
    var before := Selected(bindings[..|bindings| - 1], passed);
    if (last.linkage == Pass) == passed {
    } else {
      assert Selected(bindings, passed) == before + [];
    }
  }

  lemma OneMoreSelected(a: seq<Hash>, b: seq<Hash>, c: seq<Hash>, h: Hash)
    requires multiset(a) + multiset(b) == multiset(c)
    ensures multiset(a + [h]) + multiset(b) == multiset(c + [h])
    ensures multiset(a) + multiset(b + [h]) == multiset(c + [h])
  {
  }

  function OperationsOf(terms: seq<FL.TerminationClaim>): seq<Hash> {
    seq(|terms|, i requires 0 <= i < |terms| => terms[i].operation)
  }

  function ByOperation(terms: seq<FL.TerminationClaim>): seq<FL.TerminationClaim> {
    SortBy(terms, (t: FL.TerminationClaim) => t.operation)
  }

  /** One binding: the claim, its row, and the verdict on the finding of the line that made it. */
  ghost predicate BoundRight(env: FL.FaultEnv, lines: seq<bytes>, rows: map<Hash, Row>, b: Binding) {
    && b.claim.operation in rows && b.row == rows[b.claim.operation]
    && b.classification == (if b.linkage == Pass then Some(b.claim.consumed) else None)
    && exists i :: 0 <= i < |lines| && JudgedBy(env, env.lex(lines[i]), b)
  }

  /** The codes that go with a verdict: every binding stands for a faulty log. */
  predicate CodesFit(b: Binding) {
    match b.linkage
    case Pass => b.codes == [OperationLogFaulty]
    case Fail => b.codes == [ExternalFindingDivergent, OperationLogFaulty]
    case NotEvaluated =>
      b.codes == (if b.claim.embedded then [LegacyOperationUnbound] else [])
                 + [OperationLogFaulty, ExternalTerminationNotEvaluated]
  }

  /**
   * The verdict rests on the observation of the line that made the claim: embedded and not ambiguous,
   * the claim passes exactly if the row repeats it, and fails exactly if the row differs.
   */
  predicate JudgedBy(env: FL.FaultEnv, e: Option<FL.FaultEntry>, b: Binding) {
    && e.Some? && FaultSafety.Made(env, e.value, b.claim) && CodesFit(b)
    && (var o, comparable := e.value.details.finding.observation,
                             b.claim.embedded && b.row.status != FL.LegacyAmbiguity;
        && (comparable ==> o.Some?)
        && (b.linkage == Pass <==> comparable && Repeats(b.row, o.value))
        && (b.linkage == Fail <==> comparable && !Repeats(b.row, o.value)))
  }

  function Claims(bindings: seq<Binding>): seq<FL.TerminationClaim> {
    seq(|bindings|, i requires 0 <= i < |bindings| => bindings[i].claim)
  }

  /** What a finished linkage holds. */
  ghost predicate Linked(env: FL.FaultEnv, p: FL.FaultProjection, rows: map<Hash, Row>, r: Bindings) {
    && Claims(r.bindings) == ByOperation(p.terms)
    && (forall i | 0 <= i < |r.bindings| :: BoundRight(env, p.lines, rows, r.bindings[i]))
    && r.resolved == Selected(r.bindings, true) && r.unresolved == Selected(r.bindings, false)
  }

  /** The table entry with the digest of a claim is the line that made it. */
  lemma TableEntry(env: FL.FaultEnv, lines: seq<bytes>, table: map<Hash, FL.FaultEntry>, t: FL.TerminationClaim)
    returns (i: nat)
    requires EntriesDiffer(env, lines)
    requires forall j | 0 <= j < |lines| :: env.lex(lines[j]).Some?
    requires forall h | h in table :: env.digest(table[h]) == h && OnLine(env, lines, table[h])
    requires forall j | 0 <= j < |lines| :: env.digest(env.lex(lines[j]).value) in table
    requires exists j :: 0 <= j < |lines| && FaultSafety.Made(env, env.lex(lines[j]).value, t)
    ensures i < |lines| && t.entrySha in table && env.lex(lines[i]) == Some(table[t.entrySha])
    ensures FaultSafety.Made(env, table[t.entrySha], t)
  {
    i :| 0 <= i < |lines| && FaultSafety.Made(env, env.lex(lines[i]).value, t);
    var j :| 0 <= j < |lines| && env.lex(lines[j]) == Some(table[t.entrySha]);
  }

  /** The branches on the evidence of one claim. */
  method Bind(env: FL.FaultEnv, claim: FL.TerminationClaim, row: Row, e: FL.FaultEntry) returns (b: Binding)
    requires FaultSafety.Made(env, e, claim)
    ensures b.claim == claim && b.row == row && JudgedBy(env, Some(e), b)
    ensures b.classification == if b.linkage == Pass then Some(claim.consumed) else None
  {
    var linkage, classification := NotEvaluated, None;
    var codes := [OperationLogFaulty, ExternalTerminationNotEvaluated];
    if claim.embedded {
      var historical := e.details.finding.observation.value;
      if row.status == FL.LegacyAmbiguity {
        codes := [LegacyOperationUnbound, OperationLogFaulty, ExternalTerminationNotEvaluated];
      } else if Repeats(row, historical) {
        linkage, classification, codes := Pass, Some(claim.consumed), [OperationLogFaulty];
      } else {
        linkage, codes := Fail, [ExternalFindingDivergent, OperationLogFaulty];
      }
    }
    return Binding(claim, linkage, classification, row, codes);
  }

  /** One turn of the loop over the claims. */
  method BindOne(env: FL.FaultEnv, lines: seq<bytes>, table: map<Hash, FL.FaultEntry>, rows: map<Hash, Row>,
                 claim: FL.TerminationClaim)
    returns (b: Binding)
    requires EntriesDiffer(env, lines) && claim.operation in rows
    requires forall j | 0 <= j < |lines| :: env.lex(lines[j]).Some?
    requires forall h | h in table :: env.digest(table[h]) == h && OnLine(env, lines, table[h])
    requires forall j | 0 <= j < |lines| :: env.digest(env.lex(lines[j]).value) in table
    requires exists j :: 0 <= j < |lines| && FaultSafety.Made(env, env.lex(lines[j]).value, claim)
    ensures b.claim == claim && BoundRight(env, lines, rows, b)
  {
    hide FaultSafety.Made, JudgedBy, EntriesDiffer, OnLine;
    ghost var i := TableEntry(env, lines, table, claim);
    b := Bind(env, claim, rows[claim.operation], table[claim.entrySha]);
    assert JudgedBy(env, env.lex(lines[i]), b);
  }

  /** Every terminated operation was queried. */
  predicate AllQueried(terms: seq<FL.TerminationClaim>, ids: seq<Hash>) {
    forall t | t in terms :: t.operation in ids
  }

  /**
   * `link`: every termination claim, in the order of the operations; it succeeds exactly on an allowed
   * batch and an intact fault log of at most 256 terminations that were all queried, and the first of
   * these conditions to fail is the reason it reports.
   */
  method Link(env: FL.FaultEnv, faultRaw: bytes, labId: string, batch: Batch, ids: seq<Hash>)
    returns (r: Result<Bindings, LinkRefusal>, rows: map<Hash, Row>)
    requires EntriesDiffer(env, FL.ProjectFaults(env, faultRaw, labId).lines)
    ensures r.Ok? ==> BatchAllowed(batch, ids) && Judged(batch, r.value.coverage)
    ensures r.Ok? ==> rows.Keys == IdsOf(ids) && forall i | 0 <= i < |ids| :: rows[ids[i]] == batch.rows[i]
    ensures r.Ok? ==> Linked(env, FL.ProjectFaults(env, faultRaw, labId), rows, r.value)
    ensures var p := FL.ProjectFaults(env, faultRaw, labId);
            && (r.Ok? <==> BatchAllowed(batch, ids) && p.status != FL.FaultsCorrupt && |p.terms| <= MAX_OPERATIONS
                           && AllQueried(p.terms, ids))
            && (r.Err? && r.error.BatchRefused? <==> !BatchAllowed(batch, ids))
            && (r == Err(FaultLogCorrupt) <==> BatchAllowed(batch, ids) && p.status == FL.FaultsCorrupt)
            && (r == Err(TooMany) <==>
                  BatchAllowed(batch, ids) && p.status != FL.FaultsCorrupt && |p.terms| > MAX_OPERATIONS)
  {
    hide FL.ProjectFaults, FaultSafety.Made, BatchAllowed, Judged;
    hide EntriesDiffer, OnLine, BoundRight, Selected, ByOperation, Claims;
    var read;
    read, rows := ReadBatch(batch, ids);
    if read.Err? { return Err(BatchRefused(read.error)), rows; }
    var p := FL.ProjectFaultLog(env, faultRaw, labId);
    if p.status == FL.FaultsCorrupt { return Err(FaultLogCorrupt), rows; }
    if |p.terms| > MAX_OPERATIONS { return Err(TooMany), rows; }
    ClaimsHaveEntries(env, faultRaw, labId);
    var table := EntryTable(env, p.lines);
    var sorted := ByOperation(p.terms);
    SortedTerms(p.terms);
    var bindings: seq<Binding> := [];
    var resolved, unresolved: seq<Hash> := [], [];
    NothingBound();
    for n := 0 to |sorted|
      invariant Claims(bindings) == sorted[..n]
      invariant forall i | 0 <= i < n :: sorted[i].operation in rows
      invariant forall i | 0 <= i < |bindings| :: BoundRight(env, p.lines, rows, bindings[i])
      invariant resolved == Selected(bindings, true) && unresolved == Selected(bindings, false)
    {
      var claim := sorted[n];
      assert claim in p.terms;
      if claim.operation !in rows {
        assert !AllQueried(p.terms, ids);
        return Err(NotQueried), rows;
      }
      var b := BindOne(env, p.lines, table, rows, claim);
      if b.linkage == Pass {
        resolved := resolved + [claim.operation];
      } else {
        unresolved := unresolved + [claim.operation];
      }
      OneMoreBinding(bindings, b);
      bindings := bindings + [b];
    }
    assert AllQueried(p.terms, ids);
    return Ok(Bindings(bindings, resolved, unresolved, read.value)), rows;
  }

  lemma SortedTerms(terms: seq<FL.TerminationClaim>)
    ensures forall n | 0 <= n < |ByOperation(terms)| :: ByOperation(terms)[n] in terms
    ensures forall t | t in terms :: t in ByOperation(terms)
    ensures multiset(ByOperation(terms)) == multiset(terms)
  {
    SortByOrders(terms, (t: FL.TerminationClaim) => t.operation);
    forall t | t in terms ensures t in ByOperation(terms) {
      assert t in multiset(terms);
      assert t in multiset(ByOperation(terms));
    }
    forall n | 0 <= n < |ByOperation(terms)| ensures ByOperation(terms)[n] in terms {
      assert ByOperation(terms)[n] in multiset(ByOperation(terms));
      assert ByOperation(terms)[n] in multiset(terms);
    }
  }

  lemma NothingBound()
    ensures Claims([]) == [] && Selected([], true) == [] && Selected([], false) == []
  {
  }

  lemma OneMoreBinding(bindings: seq<Binding>, b: Binding)
    ensures Claims(bindings + [b]) == Claims(bindings) + [b.claim]
    ensures Selected(bindings + [b], b.linkage == Pass) == Selected(bindings, b.linkage == Pass) + [b.claim.operation]
    ensures Selected(bindings + [b], b.linkage != Pass) == Selected(bindings, b.linkage != Pass)
  {
    assert (bindings + [b])[..|bindings|] == bindings;
  }

  /** Every terminated operation is resolved or unresolved, once, and never both. */
  lemma EveryClaimOnce(env: FL.FaultEnv, raw: bytes, labId: string, rows: map<Hash, Row>, r: Bindings)
    requires Linked(env, FL.ProjectFaults(env, raw, labId), rows, r)
    ensures multiset(r.resolved) + multiset(r.unresolved)
            == multiset(OperationsOf(FL.ProjectFaults(env, raw, labId).terms))
    ensures forall h :: (multiset(r.resolved) + multiset(r.unresolved))[h] <= 1
  {
    hide FL.ProjectFaults, BoundRight;
    var terms := FL.ProjectFaults(env, raw, labId).terms;
    hide ByOperation;
    SelectedPartition(r.bindings);
    SortedTerms(terms);
    SamePermutation(ByOperation(terms), terms);
    assert Ids(r.bindings) == OperationsOf(Claims(r.bindings));
    TermsOnce(env, raw, labId);
  }

  lemma TermsOnce(env: FL.FaultEnv, raw: bytes, labId: string)
    ensures forall h :: multiset(OperationsOf(FL.ProjectFaults(env, raw, labId).terms))[h] <= 1
  {
    var p := FL.ProjectFaults(env, raw, labId);
    if p.status != FL.FaultsCorrupt {
      hide FL.TakeLine;
      var entries, states := FaultSafety.LinesRun(env, labId, FL.NO_FAULTS, FL.FaultLines(raw).value);
      FaultSafety.TerminationsAreLinked(env, labId, entries, states);
      DistinctOnce(p.terms);
    }
  }

  lemma {:induction false} DistinctOnce(terms: seq<FL.TerminationClaim>)
    requires forall i, j | 0 <= i < j < |terms| :: terms[i].operation != terms[j].operation
    ensures forall h :: multiset(OperationsOf(terms))[h] <= 1
  {
    if terms != [] {
      var n := |terms| - 1;
      DistinctOnce(terms[..n]);
      var rest := OperationsOf(terms[..n]);
      assert OperationsOf(terms) == rest + [terms[n].operation];
      assert terms[n].operation !in multiset(rest) by {
        assert forall i | 0 <= i < n :: rest[i] == terms[i].operation;
      }
    }
  }

  /** Equal multisets of claims have equal multisets of operations. */
  lemma {:induction false} SamePermutation(a: seq<FL.TerminationClaim>, b: seq<FL.TerminationClaim>)
    requires multiset(a) == multiset(b)
    ensures multiset(OperationsOf(a)) == multiset(OperationsOf(b))
    decreases |a|
  {
    hide OperationsOf;
    if a == [] {
      assert |b| == |multiset(b)| == 0;
    } else {
      var k := IndexOf(b, a[0]);
      var rest, others := a[..0] + a[1..], b[..k] + b[k + 1..];
      Without(a, 0);
      Without(b, k);
      assert multiset(rest) == multiset(others);
      SamePermutation(rest, others);
    }
  }

  lemma IndexOf(b: seq<FL.TerminationClaim>, t: FL.TerminationClaim) returns (k: nat)
    requires t in multiset(b)
    ensures k < |b| && b[k] == t
  {
    k :| 0 <= k < |b| && b[k] == t;
  }

  /** Taking one claim out of a sequence takes it out of the multisets. */
  lemma Without(b: seq<FL.TerminationClaim>, k: nat)
    requires k < |b|
    ensures multiset(b[..k] + b[k + 1..]) == multiset(b) - multiset{b[k]}
    ensures multiset(OperationsOf(b)) == multiset(OperationsOf(b[..k] + b[k + 1..])) + multiset{b[k].operation}
  {
    var left, right := b[..k], b[k + 1..];
    assert b == left + [b[k]] + right;
    assert OperationsOf(left + right) == OperationsOf(left) + OperationsOf(right);
    assert OperationsOf(b) == OperationsOf(left) + [b[k].operation] + OperationsOf(right);
  }

  // ---- what the verdicts mean ---------------------------------------------------------------------

  /** The ledger holds what the claim found: one line of the operation with this entry, or no line at all. */
  predicate Confirms(ledger: seq<LedgerLine>, t: FL.TerminationClaim, row: Row, entry: Option<FL.LedgerEntry>) {
    if t.consumed then CountOf(ledger, Consumed(t.operation)) == 1 && row.entry == entry
    else CountOf(ledger, Consumed(t.operation)) == 0 && Legacy !in ledger
  }

  /** What a binding says of the ledger, given the line that made its claim. */
  predicate MeansLedger(env: FL.FaultEnv, e: Option<FL.FaultEntry>, ledger: seq<LedgerLine>, b: Binding) {
    && e.Some? && FaultSafety.Made(env, e.value, b.claim)
    && (b.claim.embedded ==> e.value.details.finding.observation.Some?)
    && (var confirmed := b.claim.embedded
                         && Confirms(ledger, b.claim, b.row, e.value.details.finding.observation.value.entry);
        var ambiguous := CountOf(ledger, Consumed(b.claim.operation)) == 0 && Legacy in ledger;
        && (b.linkage == Pass <==> confirmed)
        && (b.linkage == Fail <==> b.claim.embedded && !confirmed && !ambiguous))
  }

  lemma BindingMeansLedger(env: FL.FaultEnv, e: FL.FaultEntry, ledger: seq<LedgerLine>, x: Binding)
    requires JudgedBy(env, Some(e), x)
    requires var row, count := x.row, CountOf(ledger, Consumed(x.claim.operation));
             && row.operationEntries == count
             && (row.status == FL.OperationEntryPresent <==> count == 1)
             && (row.status == FL.NoOperationEntry <==> count == 0 && Legacy !in ledger)
             && (row.status == FL.LegacyAmbiguity <==> count == 0 && Legacy in ledger)
             && (count != 1 ==> row.entry == None)
    ensures MeansLedger(env, Some(e), ledger, x)
  {
    hide CountOf;
  }

  /**
   * On rows that count an actual ledger, a claim passes exactly if its finding is embedded and the ledger
   * still holds what it found, and fails exactly if the ledger holds something else, older lines without
   * an operation aside.
   */
  lemma LinkageMeansLedger(env: FL.FaultEnv, raw: bytes, labId: string, b: Batch, ids: seq<Hash>,
                           ledger: seq<LedgerLine>, rows: map<Hash, Row>, r: Bindings, n: nat)
    returns (i: nat)
    requires Linked(env, FL.ProjectFaults(env, raw, labId), rows, r) && n < |r.bindings|
    requires BatchAllowed(b, ids) && Honest(b, ledger, ids)
    requires rows.Keys == IdsOf(ids) && forall k | 0 <= k < |ids| :: rows[ids[k]] == b.rows[k]
    ensures var lines := FL.ProjectFaults(env, raw, labId).lines;
            i < |lines| && MeansLedger(env, env.lex(lines[i]), ledger, r.bindings[n])
  {
    hide FL.ProjectFaults, JudgedBy, MeansLedger, BatchAllowed, Honest, Confirms, CountOf, ByOperation;
    var x, lines := r.bindings[n], FL.ProjectFaults(env, raw, labId).lines;
    assert BoundRight(env, lines, rows, x);
    i :| 0 <= i < |lines| && JudgedBy(env, env.lex(lines[i]), x);
    var k :| 0 <= k < |ids| && ids[k] == x.claim.operation;
    RowMeansCount(b, ids, ledger, k);
    JudgedSome(env, env.lex(lines[i]), x);
    BindingMeansLedger(env, env.lex(lines[i]).value, ledger, x);
  }

  lemma JudgedSome(env: FL.FaultEnv, e: Option<FL.FaultEntry>, b: Binding)
    requires JudgedBy(env, e, b)
    ensures e.Some?
  {
  }

  lemma {:induction false} SelectedIs(bindings: seq<Binding>, h: Hash) returns (n: nat)
    requires h in Selected(bindings, true)
    ensures n < |bindings| && bindings[n].claim.operation == h && bindings[n].linkage == Pass
  {
    n := |bindings| - 1;
    if h in Selected(bindings[..n], true) { n := SelectedIs(bindings[..n], h); }
  }

  /** A resolved operation was consumed, as its termination says, exactly if the ledger holds a line of it. */
  lemma ResolvedIsConfirmed(env: FL.FaultEnv, raw: bytes, labId: string, b: Batch, ids: seq<Hash>,
                            ledger: seq<LedgerLine>, rows: map<Hash, Row>, r: Bindings, h: Hash)
    returns (n: nat)
    requires Linked(env, FL.ProjectFaults(env, raw, labId), rows, r) && h in r.resolved
    requires BatchAllowed(b, ids) && Honest(b, ledger, ids)
    requires rows.Keys == IdsOf(ids) && forall k | 0 <= k < |ids| :: rows[ids[k]] == b.rows[k]
    ensures n < |r.bindings| && r.bindings[n].claim.operation == h
    ensures r.bindings[n].claim.consumed <==> Consumed(h) in ledger
    ensures r.bindings[n].classification == Some(Consumed(h) in ledger)
  {
    hide FL.ProjectFaults, JudgedBy, BatchAllowed, Honest, CountOf, ByOperation, Selected;
    n := SelectedIs(r.bindings, h);
    var i := LinkageMeansLedger(env, raw, labId, b, ids, ledger, rows, r, n);
    CountAboveOne(ledger, Consumed(h));
    assert BoundRight(env, FL.ProjectFaults(env, raw, labId).lines, rows, r.bindings[n]);
  }
}
