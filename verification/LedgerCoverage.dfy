/**
 * The single ledger batch: one row per queried operation with the number of its ledger lines. The
 * checks on the batch, and what the coverage verdict means for the ledger the counts come from.
 */
module LedgerCoverage {
  import opened Prelude
  import FL = FaultLog
  import opened Sorting

  type Hash = FL.Hash

  datatype Row = Row(
    operation: Hash,
    status: FL.LedgerStatus,
    failures: seq<string>,
    operationEntries: int,
    entry: Option<FL.LedgerEntry>,
    ledgerEntries: int,
    legacyEntries: int,
    ledgerSha: Hash)

  datatype Batch = Batch(ledgerEntries: int, legacyEntries: int, ledgerSha: Hash, rows: seq<Row>)

  datatype CoverageStatus = Match | Unbound | LegacyUnbound

  datatype Code = LegacyLedgerUnbound | LedgerOperationUnbound | LedgerUnavailable

  datatype Coverage = Coverage(
    status: CoverageStatus,
    total: int,
    legacy: int,
    matched: int,
    unbound: int,
    codes: seq<Code>)

  datatype Refusal = OverLimit | Malformed

  /** The status and the failures that a count of ledger lines goes with. */
  function StatusOf(count: int, legacy: int): (FL.LedgerStatus, seq<string>) {
    if count > 1 then (FL.Conflict, ["OPERATION_MULTIPLE_ENTRIES"])
    else if count == 1 then (FL.OperationEntryPresent, [])
    else if legacy != 0 then (FL.LegacyAmbiguity, ["LEGACY_OPERATION_UNBOUND"])
    else (FL.NoOperationEntry, [])
  }

  predicate RowAllowed(row: Row, operation: Hash, b: Batch) {
    && row.operation == operation
    && row.ledgerEntries == b.ledgerEntries && row.legacyEntries == b.legacyEntries && row.ledgerSha == b.ledgerSha
    && 0 <= row.operationEntries <= b.ledgerEntries - b.legacyEntries
    && (row.status, row.failures) == StatusOf(row.operationEntries, b.legacyEntries)
    && (if row.operationEntries == 1 then row.entry.Some? && row.entry.value.operation == operation
        else row.entry == None)
  }

  function Matched(rows: seq<Row>): int {
    if rows == [] then 0 else Matched(rows[..|rows| - 1]) + rows[|rows| - 1].operationEntries
  }

  /** Sorted and without repetition. */
  predicate IsQuery(ids: seq<Hash>) {
    forall i, j | 0 <= i < j < |ids| :: Below(ids[i], ids[j])
  }

  predicate BatchAllowed(b: Batch, ids: seq<Hash>) {
    && IsQuery(ids) && |ids| <= MAX_OPERATIONS
    && 0 <= b.legacyEntries <= b.ledgerEntries <= FL.MAX_LEDGER
    && |b.rows| == |ids|
    && (forall i | 0 <= i < |ids| :: RowAllowed(b.rows[i], ids[i], b))
    && Matched(b.rows) + b.legacyEntries <= b.ledgerEntries
  }

  predicate HasConflict(rows: seq<Row>) { exists i :: 0 <= i < |rows| && rows[i].status == FL.Conflict }

  function IdsOf(ids: seq<Hash>): set<Hash> { set h | h in ids }

  /** What the totals say. */
  ghost predicate Judged(b: Batch, c: Coverage) {
    && c.total == b.ledgerEntries && c.legacy == b.legacyEntries
    && c.matched == Matched(b.rows) && c.unbound == c.total - c.matched
    && (c.status == Match <==> c.legacy == 0 && c.total == c.matched && !HasConflict(b.rows))
    && (c.status == LegacyUnbound <==> c.legacy != 0)
    && (LegacyLedgerUnbound in c.codes <==> c.legacy != 0)
    && (LedgerOperationUnbound in c.codes <==> c.total != c.matched)
    && (LedgerUnavailable in c.codes <==> HasConflict(b.rows))
  }

  /** The loop over the rows: sum, conflicts, and the table by operation. */
  method CountRows(b: Batch, ids: seq<Hash>) returns (ok: bool, matched: int, conflict: bool, rows: map<Hash, Row>)
    requires IsQuery(ids) && |b.rows| == |ids|
    ensures ok <==> forall i | 0 <= i < |ids| :: RowAllowed(b.rows[i], ids[i], b)
    ensures ok ==> matched == Matched(b.rows) && (conflict <==> HasConflict(b.rows))
    ensures ok ==> rows.Keys == IdsOf(ids)
    ensures ok ==> forall i | 0 <= i < |ids| :: rows[ids[i]] == b.rows[i]
  {
    hide RowAllowed, HasConflict, Below, Before, Matched, IsQuery, IdsOf;
    matched, conflict, rows := 0, false, map[];
    NoRows();
    for n := 0 to |ids|
      invariant forall i | 0 <= i < n :: RowAllowed(b.rows[i], ids[i], b)
      invariant matched == Matched(b.rows[..n])
      invariant conflict <==> HasConflict(b.rows[..n])
      invariant rows.Keys == IdsOf(ids[..n])
      invariant forall i | 0 <= i < n :: ids[i] in rows && rows[ids[i]] == b.rows[i]
    {
      var row := b.rows[n];
      if !RowAllowed(row, ids[n], b) { return false, matched, conflict, rows; }
      ConflictStep(b.rows, n);
      MatchedStep(b.rows, n);
      IdStep(ids, n);
      matched := matched + row.operationEntries;
      conflict := conflict || row.status == FL.Conflict;
      rows := rows[ids[n] := row];
    }
    assert b.rows[..|ids|] == b.rows && ids[..|ids|] == ids;
    ok := true;
  }

  lemma NoRows()
    ensures !HasConflict([]) && Matched([]) == 0 && IdsOf([]) == {}
  {
  }

  lemma MatchedStep(rows: seq<Row>, n: nat)
    requires n < |rows|
    ensures Matched(rows[..n + 1]) == Matched(rows[..n]) + rows[n].operationEntries
  {
    assert rows[..n + 1][..n] == rows[..n];
  }

  lemma IdStep(ids: seq<Hash>, n: nat)
    requires IsQuery(ids) && n < |ids|
    ensures IdsOf(ids[..n + 1]) == IdsOf(ids[..n]) + {ids[n]}
    ensures forall i | 0 <= i < n :: ids[i] != ids[n]
  {
    assert ids[..n + 1] == ids[..n] + [ids[n]];
    forall i | 0 <= i < n ensures ids[i] != ids[n] { BelowOrders(ids[i], ids[n], ids[n]); }
  }

  /** `_batch`: check the query and the rows, and judge the coverage. */
  method ReadBatch(b: Batch, ids: seq<Hash>) returns (r: Result<Coverage, Refusal>, rows: map<Hash, Row>)
    ensures r.Ok? <==> BatchAllowed(b, ids)
    ensures r == Err(OverLimit) <==>
              |ids| > 256 || (IsQuery(ids) && 0 <= b.legacyEntries <= b.ledgerEntries <= 16384 && |b.rows| > 256)
    ensures r.Ok? ==> rows.Keys == IdsOf(ids)
    ensures r.Ok? ==> forall i | 0 <= i < |ids| :: rows[ids[i]] == b.rows[i]
    ensures r.Ok? ==> Judged(b, r.value)
  {
    hide RowAllowed, HasConflict, Matched, IsQuery;
    rows := map[];
    if |ids| > MAX_OPERATIONS { return Err(OverLimit), rows; }
    if !IsQuery(ids) { return Err(Malformed), rows; }
    var total, legacy := b.ledgerEntries, b.legacyEntries;
    if !(0 <= legacy <= total <= FL.MAX_LEDGER) { return Err(Malformed), rows; }
    if |b.rows| > MAX_OPERATIONS { return Err(OverLimit), rows; }
    if |b.rows| != |ids| { return Err(Malformed), rows; }
    var ok, matched, conflict;
    ok, matched, conflict, rows := CountRows(b, ids);
    if !ok || matched + legacy > total { return Err(Malformed), rows; }
    var codes: seq<Code> := if legacy != 0 then [LegacyLedgerUnbound] else [];
    codes := codes + (if total != matched then [LedgerOperationUnbound] else []);
    codes := codes + (if conflict then [LedgerUnavailable] else []);
    var status := if legacy != 0 then LegacyUnbound else if total != matched || conflict then Unbound else Match;
    return Ok(Coverage(status, total, legacy, matched, total - matched, codes)), rows;
  }

  lemma ConflictStep(rows: seq<Row>, n: nat)
    requires n < |rows|
    ensures HasConflict(rows[..n + 1]) <==> HasConflict(rows[..n]) || rows[n].status == FL.Conflict
  {
    if HasConflict(rows[..n]) {
      var i :| 0 <= i < n && rows[..n][i].status == FL.Conflict;
      assert rows[..n + 1][i].status == FL.Conflict;
    }
    if rows[n].status == FL.Conflict { assert rows[..n + 1][n].status == FL.Conflict; }
  }

  // ---- what the verdict means -----------------------------------------------------------------

  /** A line of the ledger: older lines carry no operation. */
  datatype LedgerLine = Legacy | Consumed(operation: Hash)

  function CountOf(ledger: seq<LedgerLine>, line: LedgerLine): nat {
    if ledger == [] then 0
    else CountOf(ledger[..|ledger| - 1], line) + (if ledger[|ledger| - 1] == line then 1 else 0)
  }

  /** Lines that belong to one of `ids`. */
  function CountBound(ledger: seq<LedgerLine>, ids: seq<Hash>): nat {
    if ledger == [] then 0
    else
      var line := ledger[|ledger| - 1];
      CountBound(ledger[..|ledger| - 1], ids) + (if line.Consumed? && line.operation in ids then 1 else 0)
  }

  /** Each row counts the lines of its operation. */
  ghost predicate Honest(b: Batch, ledger: seq<LedgerLine>, ids: seq<Hash>) {
    && b.ledgerEntries == |ledger| && b.legacyEntries == CountOf(ledger, Legacy)
    && |b.rows| == |ids|
    && forall i | 0 <= i < |ids| :: b.rows[i].operationEntries == CountOf(ledger, Consumed(ids[i]))
  }

  function CountSum(ledger: seq<LedgerLine>, ids: seq<Hash>): nat {
    if ids == [] then 0 else CountSum(ledger, ids[..|ids| - 1]) + CountOf(ledger, Consumed(ids[|ids| - 1]))
  }

  lemma {:induction false} SumOverOneMoreLine(ledger: seq<LedgerLine>, line: LedgerLine, ids: seq<Hash>)
    requires forall i, j | 0 <= i < j < |ids| :: ids[i] != ids[j]
    ensures CountSum(ledger + [line], ids)
            == CountSum(ledger, ids) + (if line.Consumed? && line.operation in ids then 1 else 0)
  {
    if ids != [] {
      var n := |ids| - 1;
      SumOverOneMoreLine(ledger, line, ids[..n]);
      assert ids == ids[..n] + [ids[n]];
      assert (ledger + [line])[..|ledger|] == ledger;
    }
  }

  /** Counting by operation is counting by line. */
  lemma {:induction false} SumIsBound(ledger: seq<LedgerLine>, ids: seq<Hash>)
    requires forall i, j | 0 <= i < j < |ids| :: ids[i] != ids[j]
    ensures CountSum(ledger, ids) == CountBound(ledger, ids)
  {
    if ledger == [] {
      NoLines(ids);
    } else {
      var n := |ledger| - 1;
      SumIsBound(ledger[..n], ids);
      assert ledger == ledger[..n] + [ledger[n]];
      SumOverOneMoreLine(ledger[..n], ledger[n], ids);
    }
  }

  lemma {:induction false} NoLines(ids: seq<Hash>)
    ensures CountSum([], ids) == 0
  {
    if ids != [] { NoLines(ids[..|ids| - 1]); }
  }

  lemma {:induction false} MatchedIsSum(rows: seq<Row>, ledger: seq<LedgerLine>, ids: seq<Hash>)
    requires |rows| == |ids|
             && forall i | 0 <= i < |ids| :: rows[i].operationEntries == CountOf(ledger, Consumed(ids[i]))
    ensures Matched(rows) == CountSum(ledger, ids)
  {
    if ids != [] {
      MatchedIsSum(rows[..|ids| - 1], ledger, ids[..|ids| - 1]);
    }
  }

  lemma {:induction false} BoundLines(ledger: seq<LedgerLine>, ids: seq<Hash>)
    ensures CountBound(ledger, ids) + CountOf(ledger, Legacy) <= |ledger|
    ensures CountBound(ledger, ids) == |ledger|
            <==> forall i | 0 <= i < |ledger| :: ledger[i].Consumed? && ledger[i].operation in ids
  {
    if ledger != [] {
      var n := |ledger| - 1;
      BoundLines(ledger[..n], ids);
      assert ledger == ledger[..n] + [ledger[n]];
    }
  }

  /** Two lines of one operation are exactly what a count above one means. */
  lemma {:induction false} CountAboveOne(ledger: seq<LedgerLine>, line: LedgerLine)
    ensures CountOf(ledger, line) > 0 <==> line in ledger
    ensures CountOf(ledger, line) > 1
            <==> exists i, j :: 0 <= i < j < |ledger| && ledger[i] == line && ledger[j] == line
  {
    if ledger != [] {
      var n := |ledger| - 1;
      CountAboveOne(ledger[..n], line);
      assert ledger == ledger[..n] + [ledger[n]];
      if CountOf(ledger, line) > 1 {
        if ledger[n] == line {
          var i :| 0 <= i < n && ledger[..n][i] == line;
          assert ledger[i] == line;
        } else {
          var i, j :| 0 <= i < j < n && ledger[..n][i] == line && ledger[..n][j] == line;
          assert ledger[i] == line && ledger[j] == line;
        }
      }
      if i, j :| 0 <= i < j < |ledger| && ledger[i] == line && ledger[j] == line {
        assert ledger[..n][i] == line;
        if j < n { assert ledger[..n][j] == line; }
      }
    }
  }

  /** Every line is bound to a queried operation, and no operation has two. */
  ghost predicate Covered(ledger: seq<LedgerLine>, ids: seq<Hash>) {
    && (forall i | 0 <= i < |ledger| :: ledger[i].Consumed? && ledger[i].operation in ids)
    && (forall i, j | 0 <= i < j < |ledger| :: ledger[i] != ledger[j])
  }

  /** The row of an operation repeats the totals, and says how many lines of the ledger name the operation. */
  predicate RowSays(row: Row, ledger: seq<LedgerLine>, ledgerSha: Hash, operation: Hash) {
    var count, legacy := CountOf(ledger, Consumed(operation)), CountOf(ledger, Legacy);
    && row.operation == operation && row.operationEntries == count
    && row.ledgerEntries == |ledger| && row.legacyEntries == legacy && row.ledgerSha == ledgerSha
    && (row.status == FL.OperationEntryPresent <==> count == 1)
    && (row.status == FL.NoOperationEntry <==> count == 0 && Legacy !in ledger)
    && (row.status == FL.LegacyAmbiguity <==> count == 0 && Legacy in ledger)
    && (row.status == FL.Conflict <==> count > 1)
    && row.failures == (if count > 1 then ["OPERATION_MULTIPLE_ENTRIES"]
                        else if count == 0 && Legacy in ledger then ["LEGACY_OPERATION_UNBOUND"] else [])
    && (row.entry.Some? <==> count == 1)
    && (row.entry.Some? ==> row.entry.value.operation == operation)
  }

  lemma RowIsAllowed(row: Row, b: Batch, ledger: seq<LedgerLine>, operation: Hash)
    requires b.ledgerEntries == |ledger| && b.legacyEntries == CountOf(ledger, Legacy)
    requires row.operationEntries == CountOf(ledger, Consumed(operation))
    ensures RowAllowed(row, operation, b) <==> RowSays(row, ledger, b.ledgerSha, operation)
  {
    CountAboveOne(ledger, Legacy);
    CountsFit(ledger, operation);
  }

  lemma {:induction false} CountsFit(ledger: seq<LedgerLine>, operation: Hash)
    ensures CountOf(ledger, Consumed(operation)) + CountOf(ledger, Legacy) <= |ledger|
  {
    if ledger != [] { CountsFit(ledger[..|ledger| - 1], operation); }
  }

  /** A batch that counts a ledger is accepted exactly if every row says what the ledger holds. */
  lemma BatchSaysLedger(b: Batch, ids: seq<Hash>, ledger: seq<LedgerLine>)
    requires Honest(b, ledger, ids) && IsQuery(ids) && |ids| <= 256
    ensures BatchAllowed(b, ids)
            <==> |ledger| <= 16384
                 && forall k | 0 <= k < |ids| :: RowSays(b.rows[k], ledger, b.ledgerSha, ids[k])
  {
    hide RowAllowed, RowSays, IsQuery, Matched, Below;
    forall k | 0 <= k < |ids|
      ensures RowAllowed(b.rows[k], ids[k], b) <==> RowSays(b.rows[k], ledger, b.ledgerSha, ids[k])
    {
      RowIsAllowed(b.rows[k], b, ledger, ids[k]);
    }
    if forall k | 0 <= k < |ids| :: RowAllowed(b.rows[k], ids[k], b) { MatchMeansCovered(b, ledger, ids); }
    BoundLines(ledger, ids);
    assert b.legacyEntries <= b.ledgerEntries;
  }

  /** An accepted row of such a batch. */
  lemma RowMeansCount(b: Batch, ids: seq<Hash>, ledger: seq<LedgerLine>, k: nat)
    requires BatchAllowed(b, ids) && Honest(b, ledger, ids) && k < |ids|
    ensures RowSays(b.rows[k], ledger, b.ledgerSha, ids[k])
  {
    assert RowAllowed(b.rows[k], ids[k], b);
    RowIsAllowed(b.rows[k], b, ledger, ids[k]);
  }

  /**
   * The verdict MATCH, on rows that count an actual ledger: exactly when every line belongs to one
   * queried operation and no two lines to the same. The batch's sum check never fails then.
   */
  lemma MatchMeansCovered(b: Batch, ledger: seq<LedgerLine>, ids: seq<Hash>)
    requires Honest(b, ledger, ids) && IsQuery(ids)
    requires forall i | 0 <= i < |ids| :: RowAllowed(b.rows[i], ids[i], b)
    ensures Matched(b.rows) + b.legacyEntries <= b.ledgerEntries
    ensures b.legacyEntries == 0 && b.ledgerEntries == Matched(b.rows) && !HasConflict(b.rows) <==> Covered(ledger, ids)
  {
    forall i, j | 0 <= i < j < |ids| ensures ids[i] != ids[j] { BelowOrders(ids[i], ids[j], ids[j]); }
    MatchedIsSum(b.rows, ledger, ids);
    SumIsBound(ledger, ids);
    BoundLines(ledger, ids);
    if HasConflict(b.rows) {
      var i :| 0 <= i < |b.rows| && b.rows[i].status == FL.Conflict;
      CountAboveOne(ledger, Consumed(ids[i]));
    } else if forall i | 0 <= i < |ledger| :: ledger[i].Consumed? && ledger[i].operation in ids {
      CountAboveOne(ledger, Legacy);
      forall i, j | 0 <= i < j < |ledger| ensures ledger[i] != ledger[j] {
        var k :| 0 <= k < |ids| && ids[k] == ledger[i].operation;
        assert b.rows[k].status != FL.Conflict;
        CountAboveOne(ledger, ledger[i]);
      }
    }
  }
}
