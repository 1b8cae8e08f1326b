/**
 * The query universe of one acquisition, from the logs to the ledger: what was acquired is what is
 * queried, so linking never misses a terminated operation, and MATCH speaks of the whole universe.
 */
module Universe {
  import opened Prelude
  import opened LogInventory
  import opened LedgerCoverage
  import opened ExternalLink
  import opened Sorting
  import Oplog
  import FL = FaultLog

  type Hash = Oplog.Hash

  datatype Failure = NotAcquired(refusal: LogInventory.Refusal) | NotLinked(reason: LinkRefusal)

  /** Everything the evidence rests on: the inventory, the query, and the bindings of the terminations. */
  datatype Evidence = Evidence(inventory: Inventory, ids: seq<Hash>, rows: map<Hash, Row>, bindings: Bindings)

  /** Some order of the elements of a set. */
  method Elements(s: set<Hash>) returns (ids: seq<Hash>)
    ensures IdsOf(ids) == s && NoRepeats(ids)
  {
    ids := [];
    var rest := s;
    while rest != {}
      invariant rest <= s && IdsOf(ids) == s - rest && NoRepeats(ids)
      decreases |rest|
    {
      var h :| h in rest;
      assert h !in IdsOf(ids);
      assert IdsOf(ids + [h]) == IdsOf(ids) + {h};
      ids := ids + [h];
      rest := rest - {h};
    }
  }

  lemma CodesTell(a: string, b: string)
    requires Codes(a) == Codes(b)
    ensures a == b
  {
    assert |a| == |Codes(a)| == |Codes(b)| == |b|;
    forall i | 0 <= i < |a| ensures a[i] == b[i] { assert Codes(a)[i] == Codes(b)[i]; }
  }

  /** Sorting distinct digests gives a query. */
  lemma SortedIsQuery(ids: seq<Hash>)
    requires NoRepeats(ids)
    ensures IsQuery(SortBy(ids, (h: Hash) => h)) && IdsOf(SortBy(ids, (h: Hash) => h)) == IdsOf(ids)
  {
    var sorted := SortBy(ids, (h: Hash) => h);
    SortByOrders(ids, (h: Hash) => h);
    forall h ensures h in sorted <==> h in ids { assert h in multiset(sorted) <==> h in multiset(ids); }
    NoRepeatsIsOnce(ids);
    forall i, j | 0 <= i < j < |sorted| ensures Below(sorted[i], sorted[j]) {
      if sorted[i] == sorted[j] { TwiceIsMore(sorted, i, j); }
      BeforeTotal(Codes(sorted[i]), Codes(sorted[j]));
      if Codes(sorted[i]) == Codes(sorted[j]) { CodesTell(sorted[i], sorted[j]); }
    }
  }

  lemma {:induction false} NoRepeatsIsOnce(ids: seq<Hash>)
    requires NoRepeats(ids)
    ensures forall h :: multiset(ids)[h] <= 1
  {
    if ids != [] {
      var n := |ids| - 1;
      NoRepeatsIsOnce(ids[..n]);
      assert ids == ids[..n] + [ids[n]];
      assert ids[n] !in multiset(ids[..n]);
    }
  }

  lemma TwiceIsMore(ids: seq<Hash>, i: nat, j: nat)
    requires i < j < |ids| && ids[i] == ids[j]
    ensures multiset(ids)[ids[i]] >= 2
  {
    assert ids == ids[..j] + [ids[j]] + ids[j + 1..];
    assert ids[i] in multiset(ids[..j]);
  }

  /** Every line of the ledger belongs to one operation of the universe, and no two lines to the same. */
  ghost predicate CoversUniverse(ledger: seq<LedgerLine>, terms: seq<FL.TerminationClaim>,
                                 attempts: seq<FoundAttempt>)
  {
    && (forall i | 0 <= i < |ledger| ::
          && ledger[i].Consumed?
          && (ledger[i].operation in TermIds(terms) || ledger[i].operation in ShasOf(attempts)))
    && (forall i, j | 0 <= i < j < |ledger| :: ledger[i] != ledger[j])
  }

  /** A complete inventory queries every terminated operation and every attempt, and nothing else. */
  lemma UniverseIsQueried(env: Oplog.Env, src: Source, terms: seq<FL.TerminationClaim>, inv: Inventory, ids: seq<Hash>)
    requires Complete(env, src, terms, inv) && IdsOf(ids) == inv.operationIds
    ensures AllQueried(terms, ids) && |terms| <= MAX_OPERATIONS
    ensures forall h :: h in ids <==> h in TermIds(terms) || h in ShasOf(inv.attempts)
  {
    hide AllFound, AllReadable, WellBound, LogsFit, ReadShas, Unfinished, NoRepeats, Sizes, ReadSizes;
    forall t | t in terms ensures t.operation in ids {
      assert t.operation in TermIds(terms);
      assert t.operation in inv.operationIds;
    }
    forall h ensures h in ids <==> h in TermIds(terms) || h in ShasOf(inv.attempts) {
      assert h in ids <==> h in inv.operationIds;
    }
  }

  /**
   * Acquire the logs, query the ledger for the acquired universe, and link: on an acquisition that
   * succeeds, linking succeeds exactly if the batch that answers the query is allowed; and the verdict
   * MATCH on honest rows says that the ledger covers the universe.
   */
  method AcquireAndLink(env: Oplog.Env, faultEnv: FL.FaultEnv, faultRaw: bytes, src: Source,
                        query: seq<Hash> -> Batch, ghost ledger: seq<LedgerLine>)
    returns (r: Result<Evidence, Failure>)
    requires EntriesDiffer(faultEnv, FL.ProjectFaults(faultEnv, faultRaw, src.labId).lines)
    requires forall i, j | 0 <= i < j < |src.names| :: src.names[i] != src.names[j]
    ensures var faults := FL.ProjectFaults(faultEnv, faultRaw, src.labId);
            var terms := faults.terms;
            && (r.Ok? ==>
                  var e := r.value;
                  && Complete(env, src, terms, e.inventory)
                  && IsQuery(e.ids) && IdsOf(e.ids) == e.inventory.operationIds
                  && Linked(faultEnv, faults, e.rows, e.bindings) && e.rows.Keys == e.inventory.operationIds
                  && BatchAllowed(query(e.ids), e.ids) && Judged(query(e.ids), e.bindings.coverage)
                  && (Honest(query(e.ids), ledger, e.ids) ==>
                        (e.bindings.coverage.status == Match <==> CoversUniverse(ledger, terms, e.inventory.attempts))))
            && (r.Err? && r.error.NotLinked? ==>
                  && r.error.reason.BatchRefused?
                  && exists inv, ids :: Complete(env, src, terms, inv) && IsQuery(ids) && IdsOf(ids) == inv.operationIds
                                        && !BatchAllowed(query(ids), ids))
  {
    hide FL.ProjectFaults, Complete, BatchAllowed, Judged, Linked;
    hide EntriesDiffer, Honest, IsQuery, CoversUniverse, IdsOf;
    hide Affordable, AllReadable, WellBound, NoRepeats, AllShas;
    var acquired := AcquireLogs(env, faultEnv, faultRaw, src);
    if acquired.Err? { return Err(NotAcquired(acquired.error)); }
    var inv := acquired.value;
    var elements := Elements(inv.operationIds);
    SortedIsQuery(elements);
    var ids := SortBy(elements, (h: Hash) => h);
    ghost var faults := FL.ProjectFaults(faultEnv, faultRaw, src.labId);
    UniverseIsQueried(env, src, faults.terms, inv, ids);
    var linked, rows := Link(faultEnv, faultRaw, src.labId, query(ids), ids);
    if linked.Err? { return Err(NotLinked(linked.error)); }
    if Honest(query(ids), ledger, ids) {
      MatchCoversUniverse(query(ids), ledger, ids, faults.terms, inv.attempts, linked.value.coverage);
    }
    return Ok(Evidence(inv, ids, rows, linked.value));
  }

  lemma MatchCoversUniverse(b: Batch, ledger: seq<LedgerLine>, ids: seq<Hash>, terms: seq<FL.TerminationClaim>,
                            attempts: seq<FoundAttempt>, c: Coverage)
    requires BatchAllowed(b, ids) && Judged(b, c) && Honest(b, ledger, ids)
    requires forall h :: h in ids <==> h in TermIds(terms) || h in ShasOf(attempts)
    ensures c.status == Match <==> CoversUniverse(ledger, terms, attempts)
  {
    hide TermIds, ShasOf, Honest, RowAllowed, HasConflict, Matched, IsQuery;
    MatchMeansCovered(b, ledger, ids);
  }
}
