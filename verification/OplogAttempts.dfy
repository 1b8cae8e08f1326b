/**
 * The attempts of one log: their line ranges, and why re-reading the file up to the end of an
 * attempt gives that attempt back.
 */
module OplogAttempts {
  import opened Prelude
  import opened Lines
  import opened Oplog
  import opened OplogRuns
  import opened OplogSafety

  // ---- history and positions ----------------------------------------------------------------

  /** How an entry moves the summaries. */
  ghost predicate HistoryEffect(rs: RunState, e: Entry, next: RunState) {
    var m, n := rs.machine, next.machine;
    && next.position == rs.position + Width(e)
    && n.last == next.position
    && (if e.event == Prepared then
          && n.history == m.FullHistory() && n.start == next.position && e.data.OperationData?
          && n.bound == Some(Bound(e.data.operation, e.operationSha))
          && (m.bound.Some? ==> e.data.operation.attempt > m.bound.value.op.attempt)
        else n.history == m.history && n.start == m.start && n.bound == m.bound)
  }

  /** Only PREPARED touches operation, history and start. */
  lemma StepFrame(env: Env, m: State, e: Entry)
    requires m.bound.Some? && ValidEntry(env, e) && ApplyStep(env, m, e).Some?
    requires e.event != Prepared && e.event != TornTailAcknowledged
    ensures var n := ApplyStep(env, m, e).value; n.history == m.history && n.start == m.start && n.bound == m.bound
  {
    if e.event == Begin {
    } else if Closes(e.event) {
    } else if Ends(e.event) {
    } else {
    }
  }

  lemma FeedHistory(env: Env, rs: RunState, e: Entry)
    requires Feed(env, rs, e).Some?
    ensures HistoryEffect(rs, e, Feed(env, rs, e).value)
  {
    hide ApplyStep, Reserve;
    if e.event != Prepared && e.event != TornTailAcknowledged { StepFrame(env, rs.machine, e); }
  }

  lemma HistoryStep(env: Env, events: seq<Entry>, states: seq<RunState>, i: nat)
    requires IsRun(env, events, states) && i < |events|
    ensures HistoryEffect(states[i], events[i], states[i + 1])
  {
    assert Feed(env, states[i], events[i]) == Some(states[i + 1]);
    FeedHistory(env, states[i], events[i]);
  }

  /** Summaries whose ranges follow each other and whose attempts increase, up to line `last`. */
  ghost predicate Ranges(h: seq<AttemptSummary>, last: nat) {
    && (forall i | 0 <= i < |h| :: 1 <= h[i].startLine <= h[i].endLine)
    && (forall i | 0 < i < |h| :: h[i].startLine == h[i - 1].endLine + 1 && h[i].attempt > h[i - 1].attempt)
    && (h != [] ==> h[|h| - 1].endLine == last)
  }

  /** In every accepted log the attempts cover adjacent line ranges that end at the last line read. */
  lemma {:induction false} AttemptsAreAdjacent(env: Env, events: seq<Entry>, states: seq<RunState>, n: nat)
    requires IsRun(env, events, states) && n <= |events|
    ensures Ranges(states[n].machine.FullHistory(), states[n].position)
    ensures states[n].machine.last == states[n].position
  {
    if n > 0 {
      hide Feed, Ranges, HistoryEffect;
      AttemptsAreAdjacent(env, events, states, n - 1);
      HistoryStep(env, events, states, n - 1);
      if states[n - 1].machine.bound.None? { BoundHistory(env, events, states, n - 1); }
      RangesKept(states[n - 1], events[n - 1], states[n]);
    }
  }

  lemma RangesKept(rs: RunState, e: Entry, next: RunState)
    requires HistoryEffect(rs, e, next) && Ranges(rs.machine.FullHistory(), rs.position)
    requires rs.machine.bound.None? ==> rs.machine.FullHistory() == []
    requires rs.machine.last == rs.position
    ensures Ranges(next.machine.FullHistory(), next.position) && next.machine.last == next.position
  {
    var m, k := rs.machine, next.machine;
    var h := m.FullHistory();
    if e.event == Prepared {
      RangesAppend(h, rs.position, k.Summary());
    } else if m.bound.Some? {
      RangesStretch(m.history, m.Summary(), k.Summary());
    }
  }

  /** A new attempt starts on the line after the last one. */
  lemma RangesAppend(h: seq<AttemptSummary>, last: nat, s: AttemptSummary)
    requires Ranges(h, last) && s.startLine == s.endLine == last + 1
    requires h != [] ==> s.attempt > h[|h| - 1].attempt
    ensures Ranges(h + [s], s.endLine)
  {
    var g := h + [s];
    forall i | 0 < i < |g| ensures g[i].startLine == g[i - 1].endLine + 1 && g[i].attempt > g[i - 1].attempt {
      if i < |h| { assert g[i] == h[i]; }
    }
  }

  /** The attempt in hand reaches further. */
  lemma RangesStretch(h: seq<AttemptSummary>, was: AttemptSummary, now: AttemptSummary)
    requires Ranges(h + [was], was.endLine)
    requires now.startLine == was.startLine && now.attempt == was.attempt && now.endLine >= was.endLine
    ensures Ranges(h + [now], now.endLine)
  {
    var g, f := h + [now], h + [was];
    assert f[|h|] == was && g[|h|] == now;
    forall i | 0 < i < |g| ensures g[i].startLine == g[i - 1].endLine + 1 && g[i].attempt > g[i - 1].attempt {
      assert f[i].startLine == f[i - 1].endLine + 1 && f[i].attempt > f[i - 1].attempt;
      assert g[i - 1] == f[i - 1];
    }
    forall i | 0 <= i < |g| ensures 1 <= g[i].startLine <= g[i].endLine {
      assert 1 <= f[i].startLine <= f[i].endLine;
    }
  }

  /** Within one log the attempt numbers increase. */
  lemma HistoryIncreases(env: Env, raw: bytes, i: nat, j: nat)
    requires Project(env, raw).status != StatusCorrupt && i < j < |Project(env, raw).history|
    ensures Project(env, raw).history[i].attempt < Project(env, raw).history[j].attempt
  {
    hide Feed, Project, Run;
    var events, states := AcceptedRun(env, raw);
    AttemptsAreAdjacent(env, events, states, |events|);
    RangesIncrease(Project(env, raw).history, states[|events|].position, i, j);
  }

  lemma {:induction false} RangesIncrease(h: seq<AttemptSummary>, last: nat, i: nat, j: nat)
    requires Ranges(h, last) && i < j < |h|
    ensures h[i].attempt < h[j].attempt
  {
    if i + 1 < j { RangesIncrease(h, last, i, j - 1); }
  }

  /** Before the first PREPARED there is no history. */
  lemma BoundHistory(env: Env, events: seq<Entry>, states: seq<RunState>, n: nat)
    requires IsRun(env, events, states) && n <= |events| && states[n].machine.bound.None?
    ensures states[n].machine.FullHistory() == []
  {
    hide Feed;
    RunsKeepInv(env, events, states, n);
  }

  /** The state in which an attempt of the history stood after its last entry. */
  lemma {:induction false} AttemptEnd(env: Env, events: seq<Entry>, states: seq<RunState>, n: nat, i: nat)
    returns (q: nat)
    requires IsRun(env, events, states) && n <= |events| && i < |states[n].machine.FullHistory()|
    ensures q <= n && states[q].machine.bound.Some?
    ensures states[q].machine.Summary() == states[n].machine.FullHistory()[i]
    ensures states[q].machine.FullHistory() == states[n].machine.FullHistory()[..i + 1]
    ensures states[q].position == states[q].machine.Summary().endLine
  {
    hide Feed;
    var h := states[n].machine.FullHistory();
    if states[n].machine.bound.None? {
      BoundHistory(env, events, states, n);
      assert false;
    } else if i == |h| - 1 {
      q := n;
      AttemptsAreAdjacent(env, events, states, n);
      assert h[..i + 1] == h;
    } else {
      assert n > 0;
      HistoryStep(env, events, states, n - 1);
      var before := states[n - 1].machine.FullHistory();
      if states[n - 1].machine.bound.None? { BoundHistory(env, events, states, n - 1); }
      assert before[..i + 1] == h[..i + 1] && before[i] == h[i];
      q := AttemptEnd(env, events, states, n - 1, i);
    }
  }

  /** The line an attempt starts on carries its PREPARED. */
  lemma {:induction false} StartLine(env: Env, events: seq<Entry>, states: seq<RunState>, n: nat)
    requires IsRun(env, events, states) && n <= |events| && states[n].machine.bound.Some?
    ensures var a := AttemptStart(events, n);
            0 <= a < n && states[n].machine.start == states[a + 1].position == states[a].position + 1
  {
    hide Feed;
    RunsKeepTrace(env, events, states, n);
    HistoryStep(env, events, states, n - 1);
    if events[n - 1].event != Prepared {
      StartLine(env, events, states, n - 1);
    }
  }

  // ---- lines --------------------------------------------------------------------------------

  /** The lines up to a state carry the entries before it. */
  lemma {:induction false} EventsOnPrefix(env: Env, lines: seq<bytes>, events: seq<Entry>, states: seq<RunState>,
                                          n: nat)
    requires Events(env, lines) == Some(events) && IsPath(env, events, states) && n <= |events|
    ensures states[0].position <= states[n].position <= states[0].position + |lines|
    ensures Events(env, lines[..states[n].position - states[0].position]) == Some(events[..n])
    decreases |lines|
  {
    hide Feed, Next;
    if n == 0 {
    } else {
      var e := FirstEntry(env, lines);
      var w := Width(e);
      PathTail(env, events, states);
      FirstPosition(env, states[0], events[0], states[1]);
      EventsOnPrefix(env, lines[w..], events[1..], states[1..], n - 1);
      var k := states[n].position - states[0].position;
      assert lines[..k][w..] == lines[w..][..k - w];
      assert events[..n] == [e] + events[1..][..n - 1];
      FirstOfPrefix(env, lines, e, k);
    }
  }

  lemma FirstPosition(env: Env, rs: RunState, e: Entry, next: RunState)
    requires Feed(env, rs, e) == Some(next)
    ensures next.position == rs.position + Width(e)
  {
  }

  lemma FirstEntry(env: Env, lines: seq<bytes>) returns (e: Entry)
    requires lines != [] && Events(env, lines).Some?
    ensures Width(e) <= |lines| && Events(env, lines) == Prepend(e, Events(env, lines[Width(e)..]))
    ensures env.lex(lines[Width(e) - 1]) == Value(e)
  {
    e := if env.lex(lines[0]).Value? then env.lex(lines[0]).entry else env.lex(lines[1]).entry;
  }

  lemma FirstOfPrefix(env: Env, lines: seq<bytes>, e: Entry, k: nat)
    requires lines != [] && Width(e) <= k <= |lines| && Events(env, lines).Some?
    requires Events(env, lines) == Prepend(e, Events(env, lines[Width(e)..]))
    ensures Events(env, lines[..k]) == Prepend(e, Events(env, lines[..k][Width(e)..]))
  {
    var p := lines[..k];
    assert Events(env, lines).value[0] == e;
    assert p[0] == lines[0];
    if k > 1 { assert p[1] == lines[1]; }
  }

  /** The last line of an entry is the entry. */
  lemma {:induction false} EntryLine(env: Env, lines: seq<bytes>, events: seq<Entry>, states: seq<RunState>, i: nat)
    requires Events(env, lines) == Some(events) && IsPath(env, events, states) && i < |events|
    ensures 0 <= states[i + 1].position - states[0].position - 1 < |lines|
    ensures env.lex(lines[states[i + 1].position - states[0].position - 1]) == Value(events[i])
    decreases |lines|
  {
    hide Feed, Next;
    var e := FirstEntry(env, lines);
    PathTail(env, events, states);
    FirstPosition(env, states[0], events[0], states[1]);
    if i > 0 {
      assert events[1..] == Events(env, lines[Width(e)..]).value;
      EntryLine(env, lines[Width(e)..], events[1..], states[1..], i - 1);
    }
  }

  // ---- the prefix of an attempt ----------------------------------------------------------------

  /** The file up to and including line `end`. */
  function PrefixTo(raw: bytes, end: nat): bytes
    requires end <= |Split(raw, NEWLINE)|
  {
    Join(Split(raw, NEWLINE)[..end], NEWLINE) + [NEWLINE]
  }

  lemma PrefixLines(raw: bytes, end: nat)
    requires 1 <= end < |Split(raw, NEWLINE)|
    ensures var prefix := PrefixTo(raw, end);
            && CompleteLines(prefix) == Split(raw, NEWLINE)[..end] == PhysicalLines(prefix)
            && !IsTorn(prefix) && |prefix| <= |raw|
  {
    hide Split, Join;
    var parts := Split(raw, NEWLINE);
    var prefix := PrefixTo(raw, end);
    var lines := parts[..end];
    TrailingNewline(lines);
    SplitJoin(lines + [[]], NEWLINE);
    assert (lines + [[]])[..end] == lines;
    JoinSplit(raw, NEWLINE);
    assert parts == lines + parts[end..];
    JoinConcat(lines, parts[end..], NEWLINE);
  }

  lemma TrailingNewline(lines: seq<bytes>)
    requires lines != []
    ensures Join(lines + [[]], NEWLINE) == Join(lines, NEWLINE) + [NEWLINE]
  {
    var empty: bytes := [];
    assert Join([empty], NEWLINE) == empty;
    JoinConcat(lines, [empty], NEWLINE);
    assert Join(lines, NEWLINE) + [NEWLINE] + empty == Join(lines, NEWLINE) + [NEWLINE];
  }

  /** An accepted, complete file that holds an operation. */
  predicate Readable(env: Env, raw: bytes) {
    var p := Project(env, raw);
    p.status.Observed? && p.status.mode != Empty && p.status.mode != PreparationIncomplete
  }

  /** What a reader of attempt `i` relies on: its own digest, attempt, claim and operation. */
  predicate Reparsed(env: Env, raw: bytes, i: nat)
    requires i < |Project(env, raw).history|
  {
    var s := Project(env, raw).history[i];
    var lines := Split(raw, NEWLINE);
    && 1 <= s.startLine <= s.endLine < |lines|
    && Readable(env, PrefixTo(raw, s.endLine))
    && (var p := Project(env, PrefixTo(raw, s.endLine));
        && p.operationSha == Some(s.operationSha)
        && p.attempt == Some(s.attempt)
        && p.terminalClaim == s.terminal
        && p.history == Project(env, raw).history[..i + 1]
        && p.physicalLines == s.endLine)
    && (var start := env.lex(lines[s.startLine - 1]);
        && start.Value? && start.entry.event == Prepared && start.entry.data.OperationData?
        && env.Digest(start.entry.data.operation) == s.operationSha
        && start.entry.data.operation.attempt == s.attempt)
  }

  lemma ReparsedEnd(env: Env, raw: bytes, events: seq<Entry>, states: seq<RunState>, q: nat)
    requires Project(env, raw).status != StatusCorrupt && Events(env, CompleteLines(raw)) == Some(events)
    requires IsRun(env, events, states) && 0 < q <= |events| && states[q].machine.bound.Some?
    ensures 1 <= states[q].position < |Split(raw, NEWLINE)|
    ensures Project(env, PrefixTo(raw, states[q].position)) == Shown(states[q].machine, states[q].position, false)
  {
    hide Feed, ValidEntry, Ranges, Run, Events, IsRun, IsPath, AttemptStart;
    PathOfRun(env, events, states);
    var end := states[q].position;
    EventsOnPrefix(env, CompleteLines(raw), events, states, q);
    RangeOf(env, events, states, q);
    PrefixLines(raw, end);
    assert CompleteLines(raw)[..end] == Split(raw, NEWLINE)[..end];
    RunPrefix(env, events, states, q);
    PathOfRun(env, events[..q], states[..q + 1]);
    RunsAreRead(env, CompleteLines(raw)[..end], events[..q], states[..q + 1]);
    PrefixWithinLimits(raw, end);
  }

  lemma PathOfRun(env: Env, events: seq<Entry>, states: seq<RunState>)
    requires IsRun(env, events, states)
    ensures IsPath(env, events, states) && |states| == |events| + 1 && states[0] == START
  {
  }

  lemma PrefixWithinLimits(raw: bytes, end: nat)
    requires 1 <= end < |Split(raw, NEWLINE)| && WithinLimits(raw)
    ensures WithinLimits(PrefixTo(raw, end))
  {
    PrefixLines(raw, end);
    assert forall i | 0 <= i < end :: Split(raw, NEWLINE)[i] == PhysicalLines(raw)[i];
  }

  /**
   * Reading the file up to the end of any attempt succeeds, with that attempt's digest, number
   * and claim, and the line the attempt starts on holds its operation.
   */
  lemma PrefixReparse(env: Env, raw: bytes, i: nat)
    requires Project(env, raw).status.Observed? && i < |Project(env, raw).history|
    ensures Reparsed(env, raw, i)
  {
    hide Feed, Run, ValidEntry, Inv, Ranges, Trace, Project, Shown;
    var events, states := AcceptedRun(env, raw);
    ShownFacts(states[|events|].machine, |PhysicalLines(raw)|, IsTorn(raw));
    var q := AttemptEnd(env, events, states, |events|, i);
    RangeOf(env, events, states, q);
    ReparsedEnd(env, raw, events, states, q);
    ShownFacts(states[q].machine, states[q].position, false);
    StartDigest(env, events, states, q);
    StartEntry(env, CompleteLines(raw), events, states, q);
    var start := states[q].machine.start;
    assert CompleteLines(raw)[start - 1] == Split(raw, NEWLINE)[start - 1];
  }

  lemma ShownFacts(m: State, count: nat, torn: bool)
    ensures Shown(m, count, torn).history == m.FullHistory() && Shown(m, count, torn).physicalLines == count
    ensures m.bound.Some? && !torn ==>
              var p, s := Shown(m, count, torn), m.Summary();
              && p.status == Observed(ShownMode(m.mode)) && p.operationSha == Some(s.operationSha)
              && p.attempt == Some(s.attempt) && p.terminalClaim == s.terminal
  {
  }

  lemma RangeOf(env: Env, events: seq<Entry>, states: seq<RunState>, q: nat)
    requires IsRun(env, events, states) && q <= |events| && states[q].machine.bound.Some?
    ensures 0 < q && 1 <= states[q].machine.start <= states[q].machine.last == states[q].position
  {
    hide Feed;
    StartLine(env, events, states, q);
    AttemptsAreAdjacent(env, events, states, q);
    var h := states[q].machine.FullHistory();
    assert h[|h| - 1].startLine <= h[|h| - 1].endLine;
  }

  /** The line an attempt starts on is its PREPARED, with the operation the machine carries. */
  lemma StartEntry(env: Env, lines: seq<bytes>, events: seq<Entry>, states: seq<RunState>, q: nat)
    requires Events(env, lines) == Some(events) && IsRun(env, events, states)
    requires q <= |events| && states[q].machine.bound.Some?
    ensures 1 <= states[q].machine.start <= |lines|
    ensures var start := env.lex(lines[states[q].machine.start - 1]);
            && start.Value? && start.entry.event == Prepared
            && start.entry.data == OperationData(states[q].machine.bound.value.op)
  {
    hide Feed, Events;
    StartLine(env, events, states, q);
    EntryLine(env, lines, events, states, AttemptStart(events, q));
    RunsKeepTrace(env, events, states, q);
  }

  /** The digest the machine carries is the digest of the prepared operation, and a mode is set. */
  lemma StartDigest(env: Env, events: seq<Entry>, states: seq<RunState>, n: nat)
    requires IsRun(env, events, states) && n <= |events| && states[n].machine.bound.Some?
    ensures var b := states[n].machine.bound.value; env.Digest(b.op) == b.sha
    ensures ShownMode(states[n].machine.mode) != Empty && ShownMode(states[n].machine.mode) != PreparationIncomplete
  {
    hide Feed;
    RunsKeepTrace(env, events, states, n);
    RunsKeepInv(env, events, states, n);
    StepFacts(env, events, states, AttemptStart(events, n));
  }

  // ---- the loop over the attempts ---------------------------------------------------------------

  datatype ReadAttempt = ReadAttempt(prefix: bytes, projection: LogProjection, operation: Operation)

  /** An attempt read from the file up to its end, with the operation on its first line. */
  predicate IsRead(env: Env, raw: bytes, i: nat, a: ReadAttempt)
    requires i < |Project(env, raw).history|
  {
    var s := Project(env, raw).history[i];
    && Reparsed(env, raw, i)
    && a.prefix == PrefixTo(raw, s.endLine)
    && a.projection == Project(env, a.prefix)
    && env.lex(Split(raw, NEWLINE)[s.startLine - 1]).entry.data == OperationData(a.operation)
  }

  /** `_attempts`: re-project each prefix and check it; `blocked` is the guard that raises. */
  method Attempts(env: Env, raw: bytes, whole: LogProjection) returns (blocked: bool, attempts: seq<ReadAttempt>)
    requires whole == Project(env, raw) && Readable(env, raw)
    ensures !blocked && |attempts| == |whole.history|
    ensures forall i | 0 <= i < |attempts| :: IsRead(env, raw, i, attempts[i])
  {
    hide Project, Reparsed;
    var lines := Split(raw, NEWLINE);
    attempts := [];
    for n := 0 to |whole.history|
      invariant |attempts| == n
      invariant forall i | 0 <= i < n :: IsRead(env, raw, i, attempts[i])
    {
      var summary := whole.history[n];
      ReparsedFacts(env, raw, n);
      var prefix := Join(lines[..summary.endLine], NEWLINE) + [NEWLINE];
      var projected := ProjectLog(env, prefix);
      if !(projected.operationSha == Some(summary.operationSha)
           && projected.status.Observed? && projected.status.mode != Empty
           && projected.status.mode != PreparationIncomplete) {
        return true, attempts;
      }
      match env.lex(lines[summary.startLine - 1]) {
        case Value(e) => attempts := attempts + [ReadAttempt(prefix, projected, e.data.operation)];
      }
    }
    blocked := false;
  }

  lemma ReparsedFacts(env: Env, raw: bytes, i: nat)
    requires Project(env, raw).status.Observed? && i < |Project(env, raw).history|
    ensures Reparsed(env, raw, i)
    ensures var s := Project(env, raw).history[i];
            && 1 <= s.startLine <= s.endLine < |Split(raw, NEWLINE)|
            && Readable(env, PrefixTo(raw, s.endLine))
            && Project(env, PrefixTo(raw, s.endLine)).operationSha == Some(s.operationSha)
            && env.lex(Split(raw, NEWLINE)[s.startLine - 1]).Value?
            && env.lex(Split(raw, NEWLINE)[s.startLine - 1]).entry.data.OperationData?
  {
    hide Project, Split, PrefixTo;
    PrefixReparse(env, raw, i);
  }
}
