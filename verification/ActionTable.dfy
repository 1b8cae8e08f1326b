/**
 * The table of action claims: one place per quarantine of an attempt, one per set-aside, from the
 * readable logs first and from the external fault log after them. On one complete acquisition no
 * claim is ever overwritten.
 */
module ActionTable {
  import opened Prelude
  import Lines
  import Oplog
  import Rescan
  import opened Actions
  import G = OplogGrammar
  import FL = FaultLog
  import FaultSafety
  import LogInventory

  type Hash = string

  /** A directory an action moves a home to: of one attempt, or of the terminal operation. */
  datatype Place = Place(sha: Hash, attempt: Option<int>)

  datatype Action =
    | Quarantine(progress: Progress, incarnation: bool)
    | SetAside(progress: Progress)
    | SetAsideExternally(progress: Progress, child: string)

  /** The claims of one readable attempt. */
  function ClaimsIn(env: Oplog.Env, a: LogInventory.FoundAttempt): Claims {
    ClaimsOf(Rescan.Rescanned(env, Lines.Split(a.prefix, Oplog.NEWLINE), a.sha))
  }

  function PlacesOf(env: Oplog.Env, a: LogInventory.FoundAttempt): map<Place, Action> {
    var c := ClaimsIn(env, a);
    (if c.quarantine == NotClaimed then map[]
     else map[Place(a.sha, Some(a.operation.attempt)) := Quarantine(c.quarantine, c.incarnation)])
    + (if c.setAside == NotClaimed then map[] else map[Place(a.sha, None) := SetAside(c.setAside)])
  }

  function AttemptTable(env: Oplog.Env, attempts: seq<LogInventory.FoundAttempt>): map<Place, Action> {
    if attempts == [] then map[]
    else AttemptTable(env, attempts[..|attempts| - 1]) + PlacesOf(env, attempts[|attempts| - 1])
  }

  /** A set-aside line, with its operation and child. */
  predicate IsSetAside(e: Option<FL.FaultEntry>) {
    && e.Some? && (e.value.event == FL.SetAsideBegin || e.value.event == FL.SetAsideDone)
    && e.value.operation.Some? && e.value.child.Some?
  }

  function ExternalAction(pending: set<Hash>, e: FL.FaultEntry): Action
    requires IsSetAside(Some(e))
  {
    SetAsideExternally(if e.operation.value in pending then Begun else Finished, e.child.value)
  }

  function WithLine(pending: set<Hash>, table: map<Place, Action>, e: Option<FL.FaultEntry>): map<Place, Action>
    requires IsSetAside(e)
  {
    table[Place(e.value.operation.value, None) := ExternalAction(pending, e.value)]
  }

  /** The table with the external set-aside lines of `lines` on top of `table`. */
  function WithExternal(env: FL.FaultEnv, pending: set<Hash>, table: map<Place, Action>,
                        lines: seq<bytes>): map<Place, Action>
  {
    if lines == [] then table
    else
      var rest := WithExternal(env, pending, table, lines[..|lines| - 1]);
      var e := env.lex(lines[|lines| - 1]);
      if IsSetAside(e) then WithLine(pending, rest, e) else rest
  }

  function Table(env: Oplog.Env, faultEnv: FL.FaultEnv, attempts: seq<LogInventory.FoundAttempt>,
                 p: FL.FaultProjection): map<Place, Action>
  {
    WithExternal(faultEnv, p.pendingSetAside, AttemptTable(env, attempts), p.lines)
  }

  /** The claims of one attempt into the table. */
  method AddAttempt(env: Oplog.Env, table: map<Place, Action>, a: LogInventory.FoundAttempt)
    returns (next: map<Place, Action>)
    ensures next == table + PlacesOf(env, a)
  {
    hide ClaimsOf, Rescan.Rescanned, Lines.Split;
    next := table;
    var c := ReadClaims(env, a.prefix, a.sha);
    if c.quarantine != NotClaimed {
      next := next[Place(a.sha, Some(a.operation.attempt)) := Quarantine(c.quarantine, c.incarnation)];
    }
    if c.setAside != NotClaimed {
      next := next[Place(a.sha, None) := SetAside(c.setAside)];
    }
  }

  /** `_claims`: fill the table from the attempts, then from the lines of the fault log. */
  method ReadTable(env: Oplog.Env, faultEnv: FL.FaultEnv, attempts: seq<LogInventory.FoundAttempt>,
                   p: FL.FaultProjection)
    returns (table: map<Place, Action>)
    ensures table == Table(env, faultEnv, attempts, p)
  {
    hide PlacesOf, IsSetAside;
    table := map[];
    for n := 0 to |attempts|
      invariant table == AttemptTable(env, attempts[..n])
    {
      assert attempts[..n + 1][..n] == attempts[..n];
      table := AddAttempt(env, table, attempts[n]);
    }
    assert attempts[..|attempts|] == attempts;
    ghost var internal := table;
    for n := 0 to |p.lines|
      invariant table == WithExternal(faultEnv, p.pendingSetAside, internal, p.lines[..n])
    {
      assert p.lines[..n + 1][..n] == p.lines[..n];
      var e := faultEnv.lex(p.lines[n]);
      if IsSetAside(e) { table := WithLine(p.pendingSetAside, table, e); }
    }
    assert p.lines[..|p.lines|] == p.lines;
  }

  // ---- what a place says --------------------------------------------------------------------------

  /** The entries of one readable attempt, by the digest it was found under. */
  function EntriesIn(env: Oplog.Env, a: LogInventory.FoundAttempt): seq<Oplog.Entry> {
    Rescan.Rescanned(env, Lines.Split(a.prefix, Oplog.NEWLINE), a.sha)
  }

  /**
   * An attempt has a place for its quarantine exactly if an entry names one, under its own number, and a
   * terminal place exactly if an entry names a set-aside; each says what the last such entry says.
   */
  lemma PlacesSay(env: Oplog.Env, a: LogInventory.FoundAttempt)
    ensures var places, entries := PlacesOf(env, a), EntriesIn(env, a);
            var own, terminal := Place(a.sha, Some(a.operation.attempt)), Place(a.sha, None);
            var quarantine := G.Last(entries, |entries|, IsQuarantine, ProgressSaid, NotClaimed);
            var setAside := G.Last(entries, |entries|, Actions.IsSetAside, ProgressSaid, NotClaimed);
            && places.Keys <= {own, terminal}
            && (own in places <==> exists e :: e in entries && IsQuarantine(e))
            && (own in places ==> places[own] == Quarantine(quarantine, ClaimsIn(env, a).incarnation))
            && (terminal in places <==> exists e :: e in entries && Actions.IsSetAside(e))
            && (terminal in places ==> places[terminal] == SetAside(setAside))
  {
    hide ClaimsOf, G.LastOf;
    var entries := EntriesIn(env, a);
    assert entries[..|entries|] == entries;
    ClaimsAreWritten(entries, |entries|);
    Marked(entries, IsQuarantine);
    Marked(entries, Actions.IsSetAside);
  }

  /** The last entry with a property exists exactly if some entry has it, and says something. */
  lemma Marked(entries: seq<Oplog.Entry>, p: Oplog.Entry -> bool)
    ensures G.Last(entries, |entries|, p, ProgressSaid, NotClaimed) != NotClaimed <==> exists e :: e in entries && p(e)
  {
    var i := G.LastOf(entries, |entries|, p);
    if i >= 0 { assert entries[i] in entries; }
    if e :| e in entries && p(e) { var k :| 0 <= k < |entries| && entries[k] == e; }
  }

  // ---- nothing is overwritten -----------------------------------------------------------------------

  /** No digest belongs to two attempts. */
  predicate DistinctShas(attempts: seq<LogInventory.FoundAttempt>) {
    forall i, j | 0 <= i < j < |attempts| :: attempts[i].sha != attempts[j].sha
  }

  function ShaSet(shas: seq<Hash>): set<Hash> { set h | h in shas }

  lemma {:induction false} FullSetIsDistinct(shas: seq<Hash>)
    ensures |ShaSet(shas)| <= |shas|
    ensures |ShaSet(shas)| == |shas| ==> forall i, j | 0 <= i < j < |shas| :: shas[i] != shas[j]
  {
    if shas != [] {
      var n := |shas| - 1;
      FullSetIsDistinct(shas[..n]);
      assert shas == shas[..n] + [shas[n]];
      assert ShaSet(shas) == ShaSet(shas[..n]) + {shas[n]};
    }
  }

  predicate Owns(attempts: seq<LogInventory.FoundAttempt>, sha: Hash) {
    exists i :: 0 <= i < |attempts| && attempts[i].sha == sha
  }

  /** A digest of the attempts before belongs to none of the later ones. */
  lemma LastIsNew(attempts: seq<LogInventory.FoundAttempt>)
    requires attempts != [] && DistinctShas(attempts)
    ensures !Owns(attempts[..|attempts| - 1], attempts[|attempts| - 1].sha)
    ensures forall sha ::
              Owns(attempts, sha) <==> Owns(attempts[..|attempts| - 1], sha) || sha == attempts[|attempts| - 1].sha
  {
    var n := |attempts| - 1;
    var rest := attempts[..n];
    assert forall i | 0 <= i < n :: rest[i] == attempts[i];
    forall sha ensures Owns(attempts, sha) <==> Owns(rest, sha) || sha == attempts[n].sha {
      if Owns(rest, sha) { var i :| 0 <= i < n && rest[i].sha == sha; assert attempts[i].sha == sha; }
    }
  }

  /** At this place a table says what the attempt says. */
  predicate SameAt(env: Oplog.Env, table: map<Place, Action>, a: LogInventory.FoundAttempt, place: Place) {
    var own := PlacesOf(env, a);
    (place in table <==> place in own) && (place in own ==> table[place] == own[place])
  }

  /** The table of the attempts, place by place: each attempt owns the places of its digest. */
  lemma {:induction false} AttemptPlaces(env: Oplog.Env, attempts: seq<LogInventory.FoundAttempt>, place: Place)
    requires DistinctShas(attempts)
    ensures place in AttemptTable(env, attempts) ==> Owns(attempts, place.sha)
    ensures forall i | 0 <= i < |attempts| && attempts[i].sha == place.sha ::
              SameAt(env, AttemptTable(env, attempts), attempts[i], place)
  {
    if attempts != [] {
      hide Owns, PlacesOf;
      var n := |attempts| - 1;
      LastIsNew(attempts);
      AttemptPlaces(env, attempts[..n], place);
      OwnPlaces(env, attempts[n], place);
      forall i | 0 <= i < |attempts| && attempts[i].sha == place.sha
        ensures SameAt(env, AttemptTable(env, attempts), attempts[i], place)
      {
        if i < n { assert SameAt(env, AttemptTable(env, attempts[..n]), attempts[..n][i], place); }
      }
    } else {
      assert AttemptTable(env, attempts) == map[];
    }
  }

  lemma OwnPlaces(env: Oplog.Env, a: LogInventory.FoundAttempt, place: Place)
    ensures place in PlacesOf(env, a) ==> place.sha == a.sha
  {
    hide ClaimsIn;
  }

  /** Is there a set-aside line of this operation among the lines? */
  ghost predicate HasSetAside(env: FL.FaultEnv, lines: seq<bytes>, op: Hash) {
    exists i :: 0 <= i < |lines| && IsSetAside(env.lex(lines[i])) && env.lex(lines[i]).value.operation.value == op
  }

  lemma OneMoreSetAside(env: FL.FaultEnv, lines: seq<bytes>, op: Hash)
    requires lines != []
    ensures var n := |lines| - 1;
            HasSetAside(env, lines, op)
            <==> HasSetAside(env, lines[..n], op)
                 || (IsSetAside(env.lex(lines[n])) && env.lex(lines[n]).value.operation.value == op)
  {
    var n := |lines| - 1;
    var rest := lines[..n];
    assert forall i | 0 <= i < n :: rest[i] == lines[i];
    if HasSetAside(env, rest, op) {
      var i :| 0 <= i < n && IsSetAside(env.lex(rest[i])) && env.lex(rest[i]).value.operation.value == op;
      assert IsSetAside(env.lex(lines[i])) && env.lex(lines[i]).value.operation.value == op;
    }
  }

  /** External lines only touch the terminal places of their own operations. */
  lemma {:induction false} ExternalPlaces(env: FL.FaultEnv, pending: set<Hash>, table: map<Place, Action>,
                                          lines: seq<bytes>, place: Place)
    ensures var t := WithExternal(env, pending, table, lines);
            if place.attempt == None && HasSetAside(env, lines, place.sha) then
              && place in t && t[place].SetAsideExternally?
              && t[place].progress == (if place.sha in pending then Begun else Finished)
            else (place in t <==> place in table) && (place in t ==> t[place] == table[place])
  {
    if lines != [] {
      ExternalPlaces(env, pending, table, lines[..|lines| - 1], place);
      hide HasSetAside;
      OneMoreSetAside(env, lines, place.sha);
    }
  }

  /** An operation that is set aside externally is terminated in the same log. */
  lemma SetAsideIsTerminated(env: FL.FaultEnv, raw: bytes, labId: string, op: Hash)
    requires FL.ProjectFaults(env, raw, labId).status != FL.FaultsCorrupt
    requires HasSetAside(env, FL.ProjectFaults(env, raw, labId).lines, op)
    ensures op in LogInventory.TermIds(FL.ProjectFaults(env, raw, labId).terms)
  {
    hide FL.TakeLine, FaultSafety.Grows;
    var lines := FL.FaultLines(raw).value;
    var entries, states := FaultSafety.LinesRun(env, labId, FL.NO_FAULTS, lines);
    var i :| 0 <= i < |lines| && IsSetAside(env.lex(lines[i])) && env.lex(lines[i]).value.operation.value == op;
    assert FL.TakeLine(env, labId, states[i], entries[i]) == Some(states[i + 1]);
    FaultSafety.RunsStayLinked(env, labId, entries, states, i);
    var t := TerminationOf(env, labId, states[i], entries[i]);
    TermsKept(env, labId, entries, states, i, |entries|, t);
  }

  /** A set-aside line finds the termination of its operation. */
  lemma TerminationOf(env: FL.FaultEnv, labId: string, s: FL.FaultState, e: FL.FaultEntry)
    returns (t: FL.TerminationClaim)
    requires FL.TakeLine(env, labId, s, e).Some? && IsSetAside(Some(e)) && FaultSafety.TermsLinked(s)
    ensures t in s.terms && t.operation == e.operation.value
  {
    t := s.termByOp[e.operation.value].0;
  }

  lemma {:induction false} TermsKept(env: FL.FaultEnv, labId: string, entries: seq<FL.FaultEntry>,
                                     states: seq<FL.FaultState>, i: nat, n: nat, t: FL.TerminationClaim)
    requires FaultSafety.IsFaultRun(env, labId, entries, states) && i <= n <= |entries| && t in states[i].terms
    ensures t in states[n].terms
    decreases n
  {
    if i < n {
      TermsKept(env, labId, entries, states, i, n - 1, t);
      assert FL.TakeLine(env, labId, states[n - 1], entries[n - 1]) == Some(states[n]);
      FaultSafety.ClaimsGrow(env, labId, states[n - 1], entries[n - 1]);
      hide FL.TakeLine;
      var k :| 0 <= k < |states[n - 1].terms| && states[n - 1].terms[k] == t;
      assert states[n].terms[k] == states[n - 1].terms[k];
    }
  }

  /**
   * On a complete acquisition no claim overwrites another: each attempt finds exactly its own claims
   * at the places of its digest, and the terminal place of an operation with external set-aside lines
   * says whether it is still pending.
   */
  lemma NoClaimIsOverwritten(env: Oplog.Env, faultEnv: FL.FaultEnv, faultRaw: bytes, src: LogInventory.Source,
                             inv: LogInventory.Inventory, place: Place)
    requires var p := FL.ProjectFaults(faultEnv, faultRaw, src.labId);
             p.status != FL.FaultsCorrupt && LogInventory.Complete(env, src, p.terms, inv)
    ensures var p := FL.ProjectFaults(faultEnv, faultRaw, src.labId);
            var table := Table(env, faultEnv, inv.attempts, p);
            && (forall a | a in inv.attempts && a.sha == place.sha ::
                  && (place in table <==> place in PlacesOf(env, a))
                  && (place in table ==> table[place] == PlacesOf(env, a)[place]))
            && (HasSetAside(faultEnv, p.lines, place.sha) && place.attempt == None ==>
                  && place in table && table[place].SetAsideExternally?
                  && table[place].progress == (if place.sha in p.pendingSetAside then Begun else Finished))
            && (place in table ==> Owns(inv.attempts, place.sha) || HasSetAside(faultEnv, p.lines, place.sha))
  {
    hide FL.ProjectFaults, PlacesOf, HasSetAside, LogInventory.Complete, AttemptTable, WithExternal, Owns;
    var p := FL.ProjectFaults(faultEnv, faultRaw, src.labId);
    CompleteShas(env, src, p.terms, inv);
    AttemptPlaces(env, inv.attempts, place);
    ExternalPlaces(faultEnv, p.pendingSetAside, AttemptTable(env, inv.attempts), p.lines, place);
    if HasSetAside(faultEnv, p.lines, place.sha) {
      SetAsideIsTerminated(faultEnv, faultRaw, src.labId, place.sha);
    }
  }

  /** What completeness says about digests. */
  lemma CompleteShas(env: Oplog.Env, src: LogInventory.Source, terms: seq<FL.TerminationClaim>,
                     inv: LogInventory.Inventory)
    requires LogInventory.Complete(env, src, terms, inv)
    ensures DistinctShas(inv.attempts)
    ensures forall a | a in inv.attempts :: a.sha !in LogInventory.TermIds(terms)
  {
    hide LogInventory.AllFound, LogInventory.AllReadable;
    hide LogInventory.ReadShas, LogInventory.Unfinished, LogInventory.TermIds;
    var shas := LogInventory.ShasOf(inv.attempts);
    FullSetIsDistinct(shas);
    assert ShaSet(shas) == set h | h in shas;
    forall i, j | 0 <= i < j < |inv.attempts| ensures inv.attempts[i].sha != inv.attempts[j].sha {
      assert shas[i] == inv.attempts[i].sha && shas[j] == inv.attempts[j].sha;
    }
    forall a | a in inv.attempts ensures a.sha in ShaSet(shas) {
      var i :| 0 <= i < |inv.attempts| && inv.attempts[i] == a;
      assert shas[i] == a.sha;
    }
  }
}
