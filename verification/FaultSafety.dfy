/** What every accepted fault log keeps: bindings, linked terminations, and set-asides. */
module FaultSafety {
  import opened Prelude
  import opened Lines
  import Oplog
  import opened FaultLog

  /** Each entry takes the accumulators from one state to the next. */
  ghost predicate IsFaultPath(env: FaultEnv, labId: string, entries: seq<FaultEntry>, states: seq<FaultState>) {
    && |states| == |entries| + 1
    && forall i {:trigger entries[i]} | 0 <= i < |entries| ::
         TakeLine(env, labId, states[i], entries[i]) == Some(states[i + 1])
  }

  /** Accepted entries and the accumulators between them, from the start of a log. */
  ghost predicate IsFaultRun(env: FaultEnv, labId: string, entries: seq<FaultEntry>, states: seq<FaultState>) {
    IsFaultPath(env, labId, entries, states) && states[0] == NO_FAULTS
  }

  lemma FaultPathCons(env: FaultEnv, labId: string, s: FaultState, e: FaultEntry, entries: seq<FaultEntry>,
                      states: seq<FaultState>)
    requires IsFaultPath(env, labId, entries, states) && TakeLine(env, labId, s, e) == Some(states[0])
    ensures IsFaultPath(env, labId, [e] + entries, [s] + states)
  {
    hide TakeLine;
    var es, ss := [e] + entries, [s] + states;
    forall i | 0 <= i < |es| ensures TakeLine(env, labId, ss[i], es[i]) == Some(ss[i + 1]) {
      if i > 0 { assert es[i] == entries[i - 1]; }
    }
  }

  /** The run behind what the reader accepts, one entry a line. */
  lemma {:induction false} LinesRun(env: FaultEnv, labId: string, s: FaultState, lines: seq<bytes>)
    returns (entries: seq<FaultEntry>, states: seq<FaultState>)
    requires ReadLines(env, labId, s, lines).Some?
    ensures IsFaultPath(env, labId, entries, states) && states[0] == s && |entries| == |lines|
    ensures forall i | 0 <= i < |lines| :: env.lex(lines[i]) == Some(entries[i])
    ensures ReadLines(env, labId, s, lines) == Some(states[|entries|])
    decreases |lines|
  {
    hide TakeLine;
    if lines == [] {
      entries, states := [], [s];
    } else {
      var e := env.lex(lines[0]).value;
      var more, next := LinesRun(env, labId, TakeLine(env, labId, s, e).value, lines[1..]);
      FaultPathCons(env, labId, s, e, more, next);
      entries, states := [e] + more, [s] + next;
      assert forall i | 0 < i < |lines| :: lines[i] == lines[1..][i - 1];
    }
  }

  /** Every prefix of complete lines of an accepted fault log is accepted, with a prefix of the claims. */
  lemma {:induction false} PrefixIsRead(env: FaultEnv, labId: string, s: FaultState, lines: seq<bytes>, n: nat)
    requires n <= |lines| && ReadLines(env, labId, s, lines).Some?
    ensures ReadLines(env, labId, s, lines[..n]).Some?
    ensures var p, whole := ReadLines(env, labId, s, lines[..n]).value, ReadLines(env, labId, s, lines).value;
            && s.faults <= p.faults <= whole.faults && s.terms <= p.terms <= whole.terms
            && (forall op | op in p.actions && p.actions[op] != Pending ::
                  op in whole.actions && whole.actions[op] == p.actions[op])
    decreases |lines|
  {
    hide TakeLine;
    if lines != [] {
      var e := env.lex(lines[0]).value;
      var next := TakeLine(env, labId, s, e).value;
      ClaimsGrow(env, labId, s, e);
      if n > 0 {
        assert lines[..n][1..] == lines[1..][..n - 1];
        PrefixIsRead(env, labId, next, lines[1..], n - 1);
      } else {
        PrefixIsRead(env, labId, next, lines[1..], 0);
      }
    }
  }

  /** The lines of a file are read from every file that holds the first of them. */
  lemma PrefixLines(raw: bytes, n: nat)
    requires FaultLines(raw).Some? && n <= |FaultLines(raw).value|
    ensures var prefix := Unlines(FaultLines(raw).value[..n], Oplog.NEWLINE);
            prefix <= raw && FaultLines(prefix) == Some(FaultLines(raw).value[..n])
  {
    hide Split, Unlines;
    var parts := Split(raw, Oplog.NEWLINE);
    var lines := parts[..|parts| - 1];
    var prefix := Unlines(lines[..n], Oplog.NEWLINE);
    var empty: bytes := [];
    UnlinesOfSplit(raw, Oplog.NEWLINE);
    assert Unlines(lines, Oplog.NEWLINE) + empty == Unlines(lines, Oplog.NEWLINE);
    assert lines == lines[..n] + lines[n..];
    UnlinesConcat(lines[..n], lines[n..], Oplog.NEWLINE);
    UnlinesSplits(lines[..n], Oplog.NEWLINE);
    assert (lines[..n] + [empty])[..n] == lines[..n];
  }

  /**
   * Every prefix of an accepted fault log that ends with a line is accepted, with a prefix of the
   * claims, and a set-aside settled there is settled in the whole.
   */
  lemma FilePrefixIsRead(env: FaultEnv, raw: bytes, labId: string, n: nat)
    requires ProjectFaults(env, raw, labId).status != FaultsCorrupt && n <= |ProjectFaults(env, raw, labId).lines|
    ensures var whole := ProjectFaults(env, raw, labId);
            var prefix := Unlines(whole.lines[..n], Oplog.NEWLINE);
            var p := ProjectFaults(env, prefix, labId);
            && prefix <= raw
            && p.status != FaultsCorrupt && p.lines == whole.lines[..n]
            && p.faults <= whole.faults && p.terms <= whole.terms
  {
    hide TakeLine, FaultLines, PendingOf;
    PrefixLines(raw, n);
    PrefixIsRead(env, labId, NO_FAULTS, FaultLines(raw).value, n);
  }

  /** Claims are only appended, bindings stay, and a set-aside that is faulted or done stays so. */
  ghost predicate Grows(s: FaultState, n: FaultState) {
    && s.faults <= n.faults && s.terms <= n.terms
    && (forall op | op in s.actions && s.actions[op] != Pending :: op in n.actions && n.actions[op] == s.actions[op])
    && (forall op | op in s.actions :: op in n.actions)
    && (forall op | op in s.bindings :: op in n.bindings && n.bindings[op] == s.bindings[op])
  }

  lemma BindGrows(s: FaultState, e: FaultEntry)
    requires e.operation.Some? ==> e.child.Some? && e.attempt.Some?
    requires Bind(s, e).Some?
    ensures Grows(s, Bind(s, e).value) && Bind(s, e).value.faults == s.faults && Bind(s, e).value.terms == s.terms
    ensures Bind(s, e).value.actions == s.actions
  {
  }

  lemma FaultGrows(env: FaultEnv, s: FaultState, e: FaultEntry)
    requires e.operation.Some? ==> e.child.Some? && e.attempt.Some?
    requires TakeFault(env, s, e).Some?
    ensures Grows(s, TakeFault(env, s, e).value)
  {
    hide FaultAllowed;
  }

  lemma TerminationGrows(env: FaultEnv, s: FaultState, e: FaultEntry)
    requires TakeTermination(env, s, e).Some?
    ensures Grows(s, TakeTermination(env, s, e).value)
  {
    hide FindingAllowed;
  }

  lemma SetAsideGrows(s: FaultState, e: FaultEntry)
    requires TakeSetAside(s, e).Some?
    ensures Grows(s, TakeSetAside(s, e).value)
  {
    hide DirectoryBlocks;
  }

  lemma GrowsOn(a: FaultState, b: FaultState, c: FaultState)
    requires Grows(a, b) && Grows(b, c)
    ensures Grows(a, c)
  {
  }

  lemma ClaimsGrow(env: FaultEnv, labId: string, s: FaultState, e: FaultEntry)
    requires TakeLine(env, labId, s, e).Some?
    ensures Grows(s, TakeLine(env, labId, s, e).value)
  {
    hide Bind, TakeFault, TakeTermination, TakeSetAside, Grows;
    var bound := Bind(s, e).value;
    BindGrows(s, e);
    if e.event == Fault {
      FaultGrows(env, bound, e);
    } else if e.event == TerminatedExternally {
      TerminationGrows(env, bound, e);
    } else {
      SetAsideGrows(bound, e);
    }
    GrowsOn(s, bound, TakeLine(env, labId, s, e).value);
  }

  // ---- bindings and terminations ----------------------------------------------------------------

  /** A claim agrees with the binding of its operation. */
  predicate Bound(s: FaultState, op: Option<Hash>, child: Option<string>, attempt: Option<int>) {
    op.Some? ==>
      child.Some? && attempt.Some? && op.value in s.bindings && s.bindings[op.value] == (child.value, attempt.value)
  }

  /** A faulty log blames exactly one operation of its child. */
  predicate Blames(s: FaultState, f: FaultClaim) {
    IsLogFault(f) ==>
      f.operation.Some? && f.child.Some? && f.child.value in s.faultyChildren
      && s.faultyChildren[f.child.value] == f.operation.value
  }

  ghost predicate FaultsLinked(s: FaultState) {
    && (forall i | 0 <= i < |s.faults| ::
          Bound(s, s.faults[i].operation, s.faults[i].child, s.faults[i].attempt) && Blames(s, s.faults[i]))
    && (forall h | h in s.faultByHash :: s.faultByHash[h] in s.faults && s.faultByHash[h].entrySha == h)
  }

  /** The fault a termination answers: earlier, of the same operation, and of its log. */
  ghost predicate Answers(faults: seq<FaultClaim>, t: TerminationClaim) {
    exists i :: 0 <= i < |faults| && faults[i].entrySha == t.faultSha && IsLogFault(faults[i])
                && faults[i].operation == Some(t.operation) && faults[i].child == Some(t.child)
                && faults[i].attempt == Some(t.attempt)
  }

  ghost predicate TermsLinked(s: FaultState) {
    && (forall i | 0 <= i < |s.terms| ::
          && Answers(s.faults, s.terms[i])
          && s.terms[i].operation in s.termByOp && s.termByOp[s.terms[i].operation].0 == s.terms[i]
          && s.terms[i].child in s.faultyChildren && s.faultyChildren[s.terms[i].child] == s.terms[i].operation
          && s.terms[i].operation in s.bindings
          && s.bindings[s.terms[i].operation] == (s.terms[i].child, s.terms[i].attempt))
    && (forall op | op in s.termByOp :: s.termByOp[op].0 in s.terms && s.termByOp[op].0.operation == op)
    && (forall i, j | 0 <= i < j < |s.terms| :: s.terms[i].operation != s.terms[j].operation)
  }

  lemma BindKeepsLinks(s: FaultState, e: FaultEntry)
    requires FaultsLinked(s) && TermsLinked(s)
    requires e.operation.Some? ==> e.child.Some? && e.attempt.Some?
    requires Bind(s, e).Some?
    ensures var n := Bind(s, e).value;
            && FaultsLinked(n) && TermsLinked(n) && Bound(n, e.operation, e.child, e.attempt)
            && (e.operation.Some? && e.child.value in n.faultyChildren ==>
                  n.faultyChildren[e.child.value] == e.operation.value)
  {
  }

  lemma FaultKeepsFaults(env: FaultEnv, s: FaultState, e: FaultEntry, labId: string)
    requires FaultsLinked(s) && Shape(e, labId) && Bound(s, e.operation, e.child, e.attempt)
    requires e.operation.Some? && e.child.value in s.faultyChildren ==>
               s.faultyChildren[e.child.value] == e.operation.value
    requires TakeFault(env, s, e).Some?
    ensures FaultsLinked(TakeFault(env, s, e).value)
  {
    var n, claim := TakeFault(env, s, e).value, ClaimOf(env, e);
    assert forall i | 0 <= i < |s.faults| :: n.faults[i] == s.faults[i];
    assert n.faults[|s.faults|] == claim;
    forall h | h in n.faultByHash ensures n.faultByHash[h] in n.faults && n.faultByHash[h].entrySha == h {
      if h != claim.entrySha { assert s.faultByHash[h] in s.faults; }
    }
  }

  lemma FaultKeepsTerms(env: FaultEnv, s: FaultState, e: FaultEntry, labId: string)
    requires TermsLinked(s) && Shape(e, labId)
    requires e.operation.Some? && e.child.value in s.faultyChildren ==>
               s.faultyChildren[e.child.value] == e.operation.value
    requires TakeFault(env, s, e).Some?
    ensures TermsLinked(TakeFault(env, s, e).value)
  {
    hide Answers, FaultAllowed, ClaimOf;
    var n := TakeFault(env, s, e).value;
    var claim := n.faults[|s.faults|];
    assert n.faults == s.faults + [claim];
    forall i | 0 <= i < |s.terms| ensures Answers(n.faults, s.terms[i]) {
      AnswersKept(s.faults, claim, s.terms[i]);
    }
  }

  lemma FaultKeepsLinks(env: FaultEnv, s: FaultState, e: FaultEntry, labId: string)
    requires FaultsLinked(s) && TermsLinked(s) && Shape(e, labId)
    requires Bound(s, e.operation, e.child, e.attempt)
    requires e.operation.Some? && e.child.value in s.faultyChildren ==>
               s.faultyChildren[e.child.value] == e.operation.value
    requires TakeFault(env, s, e).Some?
    ensures FaultsLinked(TakeFault(env, s, e).value) && TermsLinked(TakeFault(env, s, e).value)
  {
    hide FaultsLinked, TermsLinked, TakeFault;
    FaultKeepsFaults(env, s, e, labId);
    FaultKeepsTerms(env, s, e, labId);
  }

  lemma AnswersKept(faults: seq<FaultClaim>, claim: FaultClaim, t: TerminationClaim)
    requires Answers(faults, t)
    ensures Answers(faults + [claim], t)
  {
    var i :| 0 <= i < |faults| && faults[i].entrySha == t.faultSha && IsLogFault(faults[i])
             && faults[i].operation == Some(t.operation) && faults[i].child == Some(t.child)
             && faults[i].attempt == Some(t.attempt);
    assert (faults + [claim])[i] == faults[i];
  }

  /** The claim a termination line appends: it answers a fault, and its operation is new. */
  ghost predicate AppendsTerm(s: FaultState, n: FaultState, claim: TerminationClaim) {
    && n.faults == s.faults && n.bindings == s.bindings && n.faultyChildren == s.faultyChildren
    && n.faultByHash == s.faultByHash
    && n.terms == s.terms + [claim]
    && claim.operation !in s.termByOp
    && claim.operation in n.termByOp && n.termByOp[claim.operation].0 == claim
    && (forall op :: op in n.termByOp <==> op in s.termByOp || op == claim.operation)
    && (forall op | op in s.termByOp :: n.termByOp[op] == s.termByOp[op])
    && Answers(s.faults, claim)
    && claim.child in s.faultyChildren && s.faultyChildren[claim.child] == claim.operation
    && claim.operation in s.bindings && s.bindings[claim.operation] == (claim.child, claim.attempt)
  }

  lemma TerminationAppends(env: FaultEnv, s: FaultState, e: FaultEntry) returns (claim: TerminationClaim)
    requires FaultsLinked(s) && Bound(s, e.operation, e.child, e.attempt) && TakeTermination(env, s, e).Some?
    ensures AppendsTerm(s, TakeTermination(env, s, e).value, claim)
  {
    var n := TakeTermination(env, s, e).value;
    claim := n.terms[|s.terms|];
    hide FindingAllowed;
    var fault := s.faultByHash[e.details.faultSha];
    var f :| 0 <= f < |s.faults| && s.faults[f] == fault;
    assert Blames(s, s.faults[f]);
    assert Answers(n.faults, claim) by { assert n.faults[f].entrySha == claim.faultSha; }
  }

  lemma AppendKeepsTerms(s: FaultState, n: FaultState, claim: TerminationClaim)
    requires TermsLinked(s) && AppendsTerm(s, n, claim)
    ensures TermsLinked(n)
  {
    hide Answers;
    assert n.terms[|s.terms|] == claim;
    assert forall i | 0 <= i < |s.terms| :: n.terms[i] == s.terms[i];
    forall op | op in n.termByOp ensures n.termByOp[op].0 in n.terms && n.termByOp[op].0.operation == op {
      if op != claim.operation { assert s.termByOp[op].0 in s.terms; }
    }
  }

  lemma TerminationKeepsLinks(env: FaultEnv, s: FaultState, e: FaultEntry)
    requires FaultsLinked(s) && TermsLinked(s) && Bound(s, e.operation, e.child, e.attempt)
    requires TakeTermination(env, s, e).Some?
    ensures FaultsLinked(TakeTermination(env, s, e).value) && TermsLinked(TakeTermination(env, s, e).value)
  {
    hide TermsLinked, TakeTermination;
    var claim := TerminationAppends(env, s, e);
    AppendKeepsTerms(s, TakeTermination(env, s, e).value, claim);
  }

  /** Every accepted log keeps its faults and terminations linked. */
  lemma {:induction false} RunsStayLinked(env: FaultEnv, labId: string, entries: seq<FaultEntry>,
                                          states: seq<FaultState>, n: nat)
    requires IsFaultRun(env, labId, entries, states) && n <= |entries|
    ensures FaultsLinked(states[n]) && TermsLinked(states[n])
  {
    if n > 0 {
      var e, s := entries[n - 1], states[n - 1];
      assert TakeLine(env, labId, s, e) == Some(states[n]);
      hide FaultsLinked, TermsLinked, TakeFault, TakeTermination, FaultAllowed, Bind, IsLogFault;
      RunsStayLinked(env, labId, entries, states, n - 1);
      BindKeepsLinks(s, e);
      var bound := Bind(s, e).value;
      if e.event == Fault {
        FaultKeepsLinks(env, bound, e, labId);
      } else if e.event == TerminatedExternally {
        TerminationKeepsLinks(env, bound, e);
      } else {
        SetAsideKeepsLinks(bound, e);
      }
    }
  }

  lemma SetAsideKeepsLinks(s: FaultState, e: FaultEntry)
    requires FaultsLinked(s) && TermsLinked(s) && TakeSetAside(s, e).Some?
    ensures FaultsLinked(TakeSetAside(s, e).value) && TermsLinked(TakeSetAside(s, e).value)
  {
  }

  // ---- the lines behind a termination -----------------------------------------------------------

  /** The line that made a fault claim. */
  predicate MadeFault(env: FaultEnv, e: FaultEntry, f: FaultClaim) {
    e.event == Fault && e.details.FaultDetails? && f == ClaimOf(env, e)
  }

  /** The line that made a termination claim. */
  predicate Made(env: FaultEnv, e: FaultEntry, t: TerminationClaim) {
    && e.event == TerminatedExternally && e.details.TerminationDetails?
    && e.operation == Some(t.operation) && e.child == Some(t.child) && e.attempt == Some(t.attempt)
    && t.entrySha == env.digest(e) && t.embedded == e.embedded && t.faultSha == e.details.faultSha
    && FindingAllowed(env, e)
    && t.consumed == (e.details.finding.operationEntries != 0)
  }

  /** Line `i` is a fault of the log of an operation, line `j` the later termination that answers it. */
  predicate AnsweredAt(env: FaultEnv, entries: seq<FaultEntry>, i: int, j: int, t: TerminationClaim) {
    && 0 <= i < j < |entries|
    && Made(env, entries[j], t)
    && entries[i].event == Fault && entries[i].details.FaultDetails?
    && env.digest(entries[i]) == t.faultSha
    && IsLogFault(ClaimOf(env, entries[i]))
    && entries[i].operation == Some(t.operation) && entries[i].child == Some(t.child)
    && entries[i].attempt == Some(t.attempt)
  }

  lemma FaultMade(env: FaultEnv, labId: string, s: FaultState, e: FaultEntry)
    requires TakeLine(env, labId, s, e).Some?
    ensures var n := TakeLine(env, labId, s, e).value;
            n.faults == s.faults
              || (e.event == Fault && e.details.FaultDetails? && n.faults == s.faults + [ClaimOf(env, e)])
  {
    hide FindingAllowed, DirectoryBlocks;
  }

  /** Every fault of an accepted log comes from one of its FAULT lines. */
  lemma {:induction false} FaultsAreMade(env: FaultEnv, labId: string, entries: seq<FaultEntry>,
                                         states: seq<FaultState>, n: nat)
    requires IsFaultRun(env, labId, entries, states) && n <= |entries|
    ensures forall f | f in states[n].faults :: exists i :: 0 <= i < n && MadeFault(env, entries[i], f)
  {
    if n > 0 {
      assert TakeLine(env, labId, states[n - 1], entries[n - 1]) == Some(states[n]);
      FaultsAreMade(env, labId, entries, states, n - 1);
      FaultMade(env, labId, states[n - 1], entries[n - 1]);
      hide TakeLine, ClaimOf;
      forall f | f in states[n].faults ensures exists i :: 0 <= i < n && MadeFault(env, entries[i], f) {
        if f !in states[n - 1].faults { assert MadeFault(env, entries[n - 1], f); }
      }
    }
  }

  /** A termination line appends one claim, which names a log fault recorded before. */
  lemma TerminationMade(env: FaultEnv, labId: string, s: FaultState, e: FaultEntry)
    requires TakeLine(env, labId, s, e).Some?
    ensures var n := TakeLine(env, labId, s, e).value;
            n.terms != s.terms ==>
              && |n.terms| == |s.terms| + 1 && n.terms[..|s.terms|] == s.terms
              && Made(env, e, n.terms[|s.terms|])
              && e.details.faultSha in s.faultByHash
              && (var f := s.faultByHash[e.details.faultSha];
                  IsLogFault(f) && f.operation == e.operation && f.child == e.child && f.attempt == e.attempt)
  {
  }

  /** Every termination comes from one line, and answers an earlier fault of its own log. */
  lemma {:induction false} TermsAreMade(env: FaultEnv, labId: string, entries: seq<FaultEntry>,
                                        states: seq<FaultState>, n: nat)
    requires IsFaultRun(env, labId, entries, states) && n <= |entries|
    ensures forall t | t in states[n].terms :: exists i, j :: AnsweredAt(env, entries, i, j, t) && j < n
  {
    if n > 0 {
      assert TakeLine(env, labId, states[n - 1], entries[n - 1]) == Some(states[n]);
      TermsAreMade(env, labId, entries, states, n - 1);
      TerminationMade(env, labId, states[n - 1], entries[n - 1]);
      hide TakeLine, Made, AnsweredAt;
      var was := states[n - 1].terms;
      forall t | t in states[n].terms ensures exists i, j :: AnsweredAt(env, entries, i, j, t) && j < n {
        if t in was {
          var i, j :| AnsweredAt(env, entries, i, j, t) && j < n - 1;
        } else {
          assert states[n].terms == was + [states[n].terms[|was|]];
          var i := FaultBefore(env, labId, entries, states, n, t);
        }
      }
    }
  }

  /** The fault that the termination on line `n - 1` answers. */
  lemma FaultBefore(env: FaultEnv, labId: string, entries: seq<FaultEntry>, states: seq<FaultState>, n: nat,
                    t: TerminationClaim)
    returns (i: nat)
    requires IsFaultRun(env, labId, entries, states) && 0 < n <= |entries|
    requires Made(env, entries[n - 1], t) && t.faultSha in states[n - 1].faultByHash
    requires var f := states[n - 1].faultByHash[t.faultSha];
             && IsLogFault(f)
             && f.operation == Some(t.operation) && f.child == Some(t.child) && f.attempt == Some(t.attempt)
    ensures AnsweredAt(env, entries, i, n - 1, t)
  {
    hide TakeLine, Made, IsLogFault;
    RunsStayLinked(env, labId, entries, states, n - 1);
    FaultsAreMade(env, labId, entries, states, n - 1);
    var f := states[n - 1].faultByHash[t.faultSha];
    i :| 0 <= i < n - 1 && MadeFault(env, entries[i], f);
  }

  /**
   * In every accepted fault log each termination is one line that answers an earlier FAULT line of its
   * own operation's log, no operation is terminated twice, and no child has two terminated operations.
   */
  lemma TerminationsAreLinked(env: FaultEnv, labId: string, entries: seq<FaultEntry>, states: seq<FaultState>)
    requires IsFaultRun(env, labId, entries, states)
    ensures var terms := states[|entries|].terms;
            && (forall t | t in terms :: exists i, j :: AnsweredAt(env, entries, i, j, t))
            && (forall i, j | 0 <= i < |terms| && 0 <= j < |terms| && i != j ::
                  terms[i].operation != terms[j].operation && terms[i].child != terms[j].child)
  {
    hide TakeLine, AnsweredAt;
    RunsStayLinked(env, labId, entries, states, |entries|);
    TermsAreMade(env, labId, entries, states, |entries|);
    forall t | t in states[|entries|].terms ensures exists i, j :: AnsweredAt(env, entries, i, j, t) {
      var i, j :| AnsweredAt(env, entries, i, j, t) && j < |entries|;
    }
  }

  lemma LineIsBound(env: FaultEnv, labId: string, s: FaultState, e: FaultEntry)
    requires TakeLine(env, labId, s, e).Some?
    ensures Bound(TakeLine(env, labId, s, e).value, e.operation, e.child, e.attempt)
  {
    hide TakeFault, TakeTermination, TakeSetAside, Grows;
    var bound := Bind(s, e).value;
    if e.event == Fault {
      FaultGrows(env, bound, e);
    } else if e.event == TerminatedExternally {
      TerminationGrows(env, bound, e);
    } else {
      SetAsideGrows(bound, e);
    }
    assert Bound(bound, e.operation, e.child, e.attempt);
    BoundGrows(bound, TakeLine(env, labId, s, e).value, e);
  }

  lemma BoundGrows(s: FaultState, n: FaultState, e: FaultEntry)
    requires Grows(s, n) && Bound(s, e.operation, e.child, e.attempt)
    ensures Bound(n, e.operation, e.child, e.attempt)
  {
  }

  lemma {:induction false} EntryIsBound(env: FaultEnv, labId: string, entries: seq<FaultEntry>,
                                        states: seq<FaultState>, i: nat, n: nat)
    requires IsFaultRun(env, labId, entries, states) && i < n <= |entries|
    ensures Bound(states[n], entries[i].operation, entries[i].child, entries[i].attempt)
    decreases n
  {
    hide TakeLine, Bound, Grows;
    assert TakeLine(env, labId, states[n - 1], entries[n - 1]) == Some(states[n]);
    if i < n - 1 {
      EntryIsBound(env, labId, entries, states, i, n - 1);
      ClaimsGrow(env, labId, states[n - 1], entries[n - 1]);
      BoundGrows(states[n - 1], states[n], entries[i]);
    } else {
      LineIsBound(env, labId, states[n - 1], entries[n - 1]);
    }
  }

  /** Lines that name the same operation name the same child and attempt. */
  lemma OperationsKeepTheirChild(env: FaultEnv, labId: string, entries: seq<FaultEntry>, states: seq<FaultState>,
                                 i: nat, j: nat)
    requires IsFaultRun(env, labId, entries, states) && i < |entries| && j < |entries|
    requires entries[i].operation.Some? && entries[i].operation == entries[j].operation
    ensures entries[i].child == entries[j].child && entries[i].attempt == entries[j].attempt
  {
    hide TakeLine;
    EntryIsBound(env, labId, entries, states, i, |entries|);
    EntryIsBound(env, labId, entries, states, j, |entries|);
  }

  // ---- set-aside ----------------------------------------------------------------------------------

  predicate Names(e: FaultEntry, event: FaultEvent, op: Hash) { e.event == event && e.operation == Some(op) }

  /** A line of one of the kinds, about `op`, among the first `n`. */
  ghost predicate HasLine(entries: seq<FaultEntry>, n: nat, event: FaultEvent, op: Hash)
    requires n <= |entries|
  {
    exists i | 0 <= i < n :: Names(entries[i], event, op)
  }

  /** What one line does to the action of one operation. */
  predicate ActionMoves(s: FaultState, e: FaultEntry, op: Hash, n: FaultState) {
    && (op in n.actions <==> op in s.actions || Names(e, SetAsideBegin, op))
    && (op in n.actions && n.actions[op] == Finished <==>
          (op in s.actions && s.actions[op] == Finished) || Names(e, SetAsideDone, op))
    && (Names(e, SetAsideDone, op) ==> op in s.actions && s.actions[op] == Pending)
    && (Names(e, SetAsideBegin, op) ==> op !in s.actions)
    && (Names(e, Fault, op) && op in n.actions ==> n.actions[op] != Pending)
  }

  lemma FaultMoves(env: FaultEnv, s: FaultState, e: FaultEntry, op: Hash)
    requires e.event == Fault && (e.operation.Some? ==> e.child.Some? && e.attempt.Some?)
    requires TakeFault(env, s, e).Some?
    ensures ActionMoves(s, e, op, TakeFault(env, s, e).value)
  {
    hide FaultAllowed;
  }

  lemma SetAsideMoves(s: FaultState, e: FaultEntry, op: Hash)
    requires (e.event == SetAsideBegin || e.event == SetAsideDone) && TakeSetAside(s, e).Some?
    ensures ActionMoves(s, e, op, TakeSetAside(s, e).value)
  {
    hide DirectoryBlocks;
  }

  lemma TerminationMoves(env: FaultEnv, s: FaultState, e: FaultEntry, op: Hash)
    requires e.event == TerminatedExternally && TakeTermination(env, s, e).Some?
    ensures ActionMoves(s, e, op, TakeTermination(env, s, e).value)
  {
    hide FindingAllowed;
  }

  lemma ActionStep(env: FaultEnv, labId: string, s: FaultState, e: FaultEntry, op: Hash)
    requires TakeLine(env, labId, s, e).Some?
    ensures ActionMoves(s, e, op, TakeLine(env, labId, s, e).value)
  {
    hide Bind, TakeFault, TakeTermination, TakeSetAside;
    var bound := Bind(s, e).value;
    BindGrows(s, e);
    if e.event == Fault {
      FaultMoves(env, bound, e, op);
    } else if e.event == TerminatedExternally {
      TerminationMoves(env, bound, e, op);
    } else {
      SetAsideMoves(bound, e, op);
    }
  }

  /** The action of an operation against the lines about it. */
  ghost predicate ActionsFollow(entries: seq<FaultEntry>, n: nat, s: FaultState, op: Hash)
    requires n <= |entries|
  {
    && (op in s.actions <==> HasLine(entries, n, SetAsideBegin, op))
    && ((op in s.actions && s.actions[op] == Finished) <==> HasLine(entries, n, SetAsideDone, op))
  }

  lemma {:induction false} ActionsFollowLines(env: FaultEnv, labId: string, entries: seq<FaultEntry>,
                                              states: seq<FaultState>, n: nat, op: Hash)
    requires IsFaultRun(env, labId, entries, states) && n <= |entries|
    ensures ActionsFollow(entries, n, states[n], op)
  {
    hide TakeLine, Names;
    if n > 0 {
      ActionsFollowLines(env, labId, entries, states, n - 1, op);
      assert TakeLine(env, labId, states[n - 1], entries[n - 1]) == Some(states[n]);
      ActionStep(env, labId, states[n - 1], entries[n - 1], op);
      OneMoreLine(entries, n, SetAsideBegin, op);
      OneMoreLine(entries, n, SetAsideDone, op);
    }
  }

  /** `pending_set_aside` is exactly the operations with a BEGIN and no DONE. */
  lemma PendingIsBeginWithoutDone(env: FaultEnv, labId: string, entries: seq<FaultEntry>, states: seq<FaultState>,
                                  op: Hash)
    requires IsFaultRun(env, labId, entries, states)
    ensures op in PendingOf(states[|entries|].actions) <==>
              HasLine(entries, |entries|, SetAsideBegin, op) && !HasLine(entries, |entries|, SetAsideDone, op)
  {
    hide TakeLine, HasLine;
    ActionsFollowLines(env, labId, entries, states, |entries|, op);
  }

  lemma OneMoreLine(entries: seq<FaultEntry>, n: nat, event: FaultEvent, op: Hash)
    requires 0 < n <= |entries|
    ensures HasLine(entries, n, event, op) <==> HasLine(entries, n - 1, event, op) || Names(entries[n - 1], event, op)
  {
  }

  /** A set-aside that is no longer pending never becomes pending again. */
  lemma {:induction false} SettledStays(env: FaultEnv, labId: string, entries: seq<FaultEntry>,
                                        states: seq<FaultState>, i: nat, n: nat, op: Hash)
    requires IsFaultRun(env, labId, entries, states) && i <= n <= |entries|
    requires op in states[i].actions && states[i].actions[op] != Pending
    ensures op in states[n].actions && states[n].actions[op] == states[i].actions[op]
    decreases n
  {
    if i < n {
      SettledStays(env, labId, entries, states, i, n - 1, op);
      assert TakeLine(env, labId, states[n - 1], entries[n - 1]) == Some(states[n]);
      ClaimsGrow(env, labId, states[n - 1], entries[n - 1]);
    }
  }

  /** A set-aside that was faulted after it began never becomes DONE. */
  lemma FaultedSetAsideIsNeverDone(env: FaultEnv, labId: string, entries: seq<FaultEntry>, states: seq<FaultState>,
                                   i: nat, j: nat, k: nat, op: Hash)
    requires IsFaultRun(env, labId, entries, states) && i < j < k < |entries|
    requires Names(entries[i], SetAsideBegin, op) && Names(entries[j], Fault, op)
    ensures !Names(entries[k], SetAsideDone, op)
  {
    hide TakeLine;
    ActionsFollowLines(env, labId, entries, states, j, op);
    assert TakeLine(env, labId, states[j], entries[j]) == Some(states[j + 1]);
    ActionStep(env, labId, states[j], entries[j], op);
    SettledStays(env, labId, entries, states, j + 1, k, op);
    assert TakeLine(env, labId, states[k], entries[k]) == Some(states[k + 1]);
    ActionStep(env, labId, states[k], entries[k], op);
  }

  /** A FAULT line leaves its claim in every later state. */
  lemma {:induction false} FaultIsKept(env: FaultEnv, labId: string, entries: seq<FaultEntry>, states: seq<FaultState>,
                                       i: nat, n: nat)
    requires IsFaultRun(env, labId, entries, states) && i < n <= |entries| && entries[i].event == Fault
    ensures entries[i].details.FaultDetails?
    ensures ClaimOf(env, entries[i]) in states[n].faults
    decreases n
  {
    assert TakeLine(env, labId, states[n - 1], entries[n - 1]) == Some(states[n]);
    if i < n - 1 {
      ClaimsGrow(env, labId, states[n - 1], entries[n - 1]);
      hide TakeLine;
      FaultIsKept(env, labId, entries, states, i, n - 1);
      var f :| 0 <= f < |states[n - 1].faults| && states[n - 1].faults[f] == ClaimOf(env, entries[i]);
      assert states[n].faults[f] == states[n - 1].faults[f];
    } else {
      assert states[n].faults[|states[n - 1].faults|] == ClaimOf(env, entries[i]);
    }
  }

  /** A fault of a directory that has to be renamed in to set `child` aside. */
  predicate BlocksLine(e: FaultEntry, child: string) {
    && e.event == Fault && e.details.FaultDetails? && e.details.origin == Controller
    && (e.details.failure == Fsync || e.details.failure == Rename)
    && e.details.target.Some?
    && (var t := e.details.target.value;
        || t.resource == IndividualsDirectory
        || (t.resource == QuarantineDirectory && t.path == "")
        || (t.resource == HomeDirectory && t.path == child))
  }

  /** After a fault of a directory that a set-aside of a child needs, no line sets that child aside. */
  lemma NoSetAsideAfterDirectoryFault(env: FaultEnv, labId: string, entries: seq<FaultEntry>, states: seq<FaultState>,
                                      i: nat, j: nat)
    requires IsFaultRun(env, labId, entries, states) && i < j < |entries|
    requires entries[j].child.Some? && BlocksLine(entries[i], entries[j].child.value)
    ensures entries[j].event != SetAsideBegin && entries[j].event != SetAsideDone
  {
    FaultIsKept(env, labId, entries, states, i, j);
    assert TakeLine(env, labId, states[j], entries[j]) == Some(states[j + 1]);
    var f :| 0 <= f < |states[j].faults| && states[j].faults[f] == ClaimOf(env, entries[i]);
    assert BlocksDirectory(states[j].faults[f], entries[j].child.value);
  }
}
