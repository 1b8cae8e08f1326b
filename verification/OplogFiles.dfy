/**
 * Runs as files of bytes: lines that carry a run are an accepted file, so an unfinished file can be
 * closed by appending lines, and some file has all 64 of them.
 */
module OplogFiles {
  import opened Prelude
  import opened Lines
  import opened Oplog
  import opened OplogRuns
  import opened OplogSafety
  import opened OplogReserve

  /** Bytes that may stand on a line of their own. */
  predicate FitsOnLine(line: bytes) { NEWLINE !in line && |line| + 1 <= MAX_LINE }

  predicate FitOnLines(lines: seq<bytes>) { forall i | 0 <= i < |lines| :: FitsOnLine(lines[i]) }

  lemma UnlinesIsComplete(lines: seq<bytes>)
    requires forall i | 0 <= i < |lines| :: NEWLINE !in lines[i]
    ensures var raw := Unlines(lines, NEWLINE);
            CompleteLines(raw) == lines && PhysicalLines(raw) == lines && !IsTorn(raw)
  {
    hide Split, Unlines;
    UnlinesSplits(lines, NEWLINE);
    var empty: bytes := [];
    var parts := Split(Unlines(lines, NEWLINE), NEWLINE);
    assert parts == lines + [empty];
    assert parts[..|parts| - 1] == lines;
  }

  lemma CompleteIsUnlines(raw: bytes)
    requires !IsTorn(raw)
    ensures raw == Unlines(CompleteLines(raw), NEWLINE)
    ensures forall i | 0 <= i < |CompleteLines(raw)| :: NEWLINE !in CompleteLines(raw)[i]
    ensures CompleteLines(raw) == PhysicalLines(raw)
  {
    hide Split, Unlines;
    UnlinesOfSplit(raw, NEWLINE);
    var empty: bytes := [];
    assert Unlines(CompleteLines(raw), NEWLINE) + empty == Unlines(CompleteLines(raw), NEWLINE);
  }

  /** Appending complete lines to a complete file adds exactly these. */
  lemma AppendLines(raw: bytes, more: seq<bytes>)
    requires !IsTorn(raw) && forall i | 0 <= i < |more| :: NEWLINE !in more[i]
    ensures raw + Unlines(more, NEWLINE) == Unlines(CompleteLines(raw) + more, NEWLINE)
    ensures CompleteLines(raw + Unlines(more, NEWLINE)) == CompleteLines(raw) + more
    ensures !IsTorn(raw + Unlines(more, NEWLINE))
  {
    hide CompleteLines, IsTorn, Unlines;
    CompleteIsUnlines(raw);
    UnlinesConcat(CompleteLines(raw), more, NEWLINE);
    UnlinesIsComplete(CompleteLines(raw) + more);
  }

  lemma PrependConcat(e: Entry, a: seq<Entry>, b: seq<Entry>)
    ensures Prepend(e, Some(a + b)) == Some(Prepend(e, Some(a)).value + b)
  {
    assert [e] + (a + b) == [e] + a + b;
  }

  lemma {:induction false} EventsConcat(env: Env, a: seq<bytes>, b: seq<bytes>)
    requires Events(env, a).Some? && Events(env, b).Some?
    ensures Events(env, a + b) == Some(Events(env, a).value + Events(env, b).value)
    decreases |a|
  {
    if a == [] {
      assert a + b == b;
      assert [] + Events(env, b).value == Events(env, b).value;
    } else if env.lex(a[0]).Value? {
      EventsConcat(env, a[1..], b);
      assert (a + b)[1..] == a[1..] + b;
      PrependConcat(env.lex(a[0]).entry, Events(env, a[1..]).value, Events(env, b).value);
    } else {
      EventsConcat(env, a[2..], b);
      assert (a + b)[2..] == a[2..] + b && (a + b)[1] == a[1];
      PrependConcat(env.lex(a[1]).entry, Events(env, a[2..]).value, Events(env, b).value);
    }
  }

  /** A run over the entries on fitting lines is an accepted file, and has as many lines as its last position says. */
  lemma RunIsAFile(env: Env, lines: seq<bytes>, events: seq<Entry>, states: seq<RunState>)
    requires FitOnLines(lines) && Events(env, lines) == Some(events) && IsRun(env, events, states)
    ensures |lines| == states[|events|].position <= MAX_LINES
    ensures Project(env, Unlines(lines, NEWLINE)) == Shown(states[|events|].machine, |lines|, false)
  {
    hide Events, Run, Feed, CompleteLines, PhysicalLines, IsTorn, Unlines, Shown;
    RunsAreRead(env, lines, events, states);
    RunCountsLines(env, START, lines);
    RunsFitInSixtyFourLines(env, events, states, |events|);
    UnlinesIsComplete(lines);
    UnlinesLength(lines, NEWLINE, MAX_LINE);
    assert |lines| * MAX_LINE <= MAX_LOG;
  }

  /** A line with a well-formed entry of the operator for the attempt that `p` projects. */
  predicate OperatorLine(env: Env, p: LogProjection, line: bytes, event: Event) {
    && FitsOnLine(line) && env.lex(line).Value?
    && var e := env.lex(line).entry;
       && ValidEntry(env, e) && e.event == event
       && Some(e.operationSha) == p.operationSha && Some(e.attempt) == p.attempt
       && (event == Terminated || event == FailedConsumed ==> e.code == OperatorTerminated)
  }

  /** The lines that close an unfinished attempt. */
  function ClosingLines(p: LogProjection, terminate: bytes, fail: bytes): seq<bytes> {
    if p.status == Observed(Terminating) then [fail] else [terminate, fail]
  }

  /** An unfinished file: complete, with an operation in hand and no terminal claim. */
  predicate Unfinished(p: LogProjection) {
    p.status.Observed? && p.operationSha.Some? && p.terminalClaim == None
  }

  lemma LineEvents(env: Env, p: LogProjection, line: bytes, event: Event)
    requires OperatorLine(env, p, line, event) && event != TornTailAcknowledged
    ensures Events(env, [line]) == Some([env.lex(line).entry])
  {
    assert [line][1..] == [];
    assert [env.lex(line).entry] + [] == [env.lex(line).entry];
  }

  lemma TwoLineEvents(env: Env, p: LogProjection, first: bytes, a: Event, second: bytes, b: Event)
    requires OperatorLine(env, p, first, a) && a != TornTailAcknowledged
    requires OperatorLine(env, p, second, b) && b != TornTailAcknowledged
    ensures Events(env, [first, second]) == Some([env.lex(first).entry, env.lex(second).entry])
  {
    hide Events;
    LineEvents(env, p, first, a);
    LineEvents(env, p, second, b);
    EventsConcat(env, [first], [second]);
    assert [first] + [second] == [first, second];
    var e, f := env.lex(first).entry, env.lex(second).entry;
    assert [e] + [f] == [e, f];
  }

  /** Lines of the operator are entries of the operator. */
  lemma LineIsOperatorEntry(env: Env, m: State, count: nat, line: bytes, event: Event)
    requires m.bound.Some? && OperatorLine(env, Shown(m, count, false), line, event)
    ensures IsOperatorEntry(env, m.bound.value, env.lex(line).entry, event)
  {
  }

  /** What an unfinished file shows of its last state. */
  lemma UnfinishedState(m: State, count: nat, torn: bool)
    requires Unfinished(Shown(m, count, torn))
    ensures !torn && m.bound.Some? && m.terminal == None && Shown(m, count, torn).d3Started == m.d3
    ensures Shown(m, count, torn).status.Observed?
    ensures Shown(m, count, torn).status == Observed(Terminating) <==> m.mode == Terminating
  {
  }

  /** A file shown with a mode is complete, and its lines fit. */
  lemma ObservedIsComplete(env: Env, raw: bytes)
    requires Project(env, raw).status.Observed?
    ensures !IsTorn(raw) && FitOnLines(CompleteLines(raw))
  {
    CompleteIsUnlines(raw);
  }

  /** The claim a closed file shows. */
  predicate ShowsClaim(p: LogProjection, operationSha: Option<Hash>) {
    && p.status == Observed(TerminalClaim) && p.terminalClaim == Some(FailedConsumed)
    && p.operationSha == operationSha && p.physicalLines <= MAX_LINES
  }

  /** The appended lines carry the entries of the operator, and fit. */
  lemma OperatorLinesCarry(env: Env, m: State, count: nat, terminate: bytes, fail: bytes, begin: bytes, done: bytes)
    returns (t: Entry, f: Entry, b: Entry, d: Entry)
    requires m.bound.Some?
    requires OperatorLine(env, Shown(m, count, false), terminate, Terminated)
    requires OperatorLine(env, Shown(m, count, false), fail, FailedConsumed)
    requires OperatorLine(env, Shown(m, count, false), begin, SetAsideBegin)
    requires OperatorLine(env, Shown(m, count, false), done, SetAsideDone)
    ensures OperatorEntries(env, m.bound.value, t, f, b, d)
    ensures Events(env, ClosingLines(Shown(m, count, false), terminate, fail)) == Some(Closing(m, t, f))
    ensures Events(env, [begin, done]) == Some([b, d])
    ensures FitOnLines(ClosingLines(Shown(m, count, false), terminate, fail)) && FitOnLines([begin, done])
  {
    var p := Shown(m, count, false);
    LineIsOperatorEntry(env, m, count, terminate, Terminated);
    LineIsOperatorEntry(env, m, count, fail, FailedConsumed);
    LineIsOperatorEntry(env, m, count, begin, SetAsideBegin);
    LineIsOperatorEntry(env, m, count, done, SetAsideDone);
    t, f := env.lex(terminate).entry, env.lex(fail).entry;
    b, d := env.lex(begin).entry, env.lex(done).entry;
    hide Events, IsOperatorEntry;
    LineEvents(env, p, fail, FailedConsumed);
    TwoLineEvents(env, p, terminate, Terminated, fail, FailedConsumed);
    TwoLineEvents(env, p, begin, SetAsideBegin, done, SetAsideDone);
  }

  lemma ClaimShown(m: State, count: nat, n: State, position: nat)
    requires n.bound == m.bound && n.terminal == Some(FailedConsumed) && position <= MAX_LINES
    requires n.mode == TerminalClaim || n.mode == ClearedTerminal
    ensures ShowsClaim(Shown(n, position, false), Shown(m, count, false).operationSha)
  {
  }

  lemma ShownIsObserved(m: State, count: nat)
    ensures Shown(m, count, false).status.Observed?
  {
  }

  /** Lines of further entries of a run, appended to an accepted complete file, are accepted. */
  lemma AppendedRun(env: Env, raw: bytes, events: seq<Entry>, lines: seq<bytes>, more: seq<Entry>,
                    states: seq<RunState>)
    requires Project(env, raw).status.Observed? && Events(env, CompleteLines(raw)) == Some(events)
    requires FitOnLines(lines) && Events(env, lines) == Some(more) && IsRun(env, events + more, states)
    ensures var file, last := raw + Unlines(lines, NEWLINE), states[|events| + |more|];
            && Events(env, CompleteLines(file)) == Some(events + more)
            && Project(env, file) == Shown(last.machine, last.position, false)
            && Run(env, START, CompleteLines(file)) == Ok(last)
  {
    hide Events, Run, Feed, CompleteLines, PhysicalLines, Unlines, Shown;
    ObservedIsComplete(env, raw);
    AppendLines(raw, lines);
    EventsConcat(env, CompleteLines(raw), lines);
    RunIsAFile(env, CompleteLines(raw) + lines, events + more, states);
    RunsAreRead(env, CompleteLines(raw) + lines, events + more, states);
  }

  /**
   * An unfinished file is never stuck: whatever well-formed lines of the operator are appended to it,
   * the file is accepted, within 64 lines, and claims the failed operation; and two set-aside lines
   * after these are accepted too, if D3 ever began, and clear it.
   */
  lemma NoFileIsStuck(env: Env, raw: bytes, terminate: bytes, fail: bytes, begin: bytes, done: bytes)
    requires Unfinished(Project(env, raw))
    requires OperatorLine(env, Project(env, raw), terminate, Terminated)
    requires OperatorLine(env, Project(env, raw), fail, FailedConsumed)
    requires OperatorLine(env, Project(env, raw), begin, SetAsideBegin)
    requires OperatorLine(env, Project(env, raw), done, SetAsideDone)
    ensures var p := Project(env, raw);
            var closed := raw + Unlines(ClosingLines(p, terminate, fail), NEWLINE);
            var cleared := closed + Unlines([begin, done], NEWLINE);
            && ShowsClaim(Project(env, closed), p.operationSha)
            && (p.d3Started ==>
                  && ShowsClaim(Project(env, cleared), p.operationSha)
                  && Run(env, START, CompleteLines(cleared)).Ok?
                  && Run(env, START, CompleteLines(cleared)).value.machine.mode == ClearedTerminal)
  {
    hide Project, Events, Run, Feed, CompleteLines, PhysicalLines, Unlines, OperatorLine, Shown;
    hide ShowsClaim, OperatorEntries, FitOnLines, ClosingLines, Closing;
    var p := Project(env, raw);
    var events, states := AcceptedRun(env, raw);
    var m, count := states[|events|].machine, |PhysicalLines(raw)|;
    UnfinishedState(m, count, IsTorn(raw));
    var t, f, b, d := OperatorLinesCarry(env, m, count, terminate, fail, begin, done);
    var closed, cleared := NoOperationIsStuck(env, events, states, t, f, b, d);
    var lines, more := ClosingLines(p, terminate, fail), Closing(m, t, f);
    AppendedRun(env, raw, events, lines, more, closed);
    var last := closed[|events| + |more|];
    ClaimShown(m, count, last.machine, last.position);
    if m.d3 {
      var file := raw + Unlines(lines, NEWLINE);
      ShownIsObserved(last.machine, last.position);
      AppendedRun(env, file, events + more, [begin, done], [b, d], cleared);
      ClaimShown(m, count, cleared[|events + more| + 2].machine, cleared[|events + more| + 2].position);
    }
  }

  // ---- a file of 64 lines -------------------------------------------------------------------

  /** The lines of a log: each entry as `write` writes it, an acknowledgement after its torn fragment. */
  function Written(write: Entry -> bytes, fragment: bytes, events: seq<Entry>): seq<bytes> {
    if events == [] then []
    else
      var e := events[0];
      (if e.event == TornTailAcknowledged then [fragment, write(e)] else [write(e)])
      + Written(write, fragment, events[1..])
  }

  /** The writer puts every entry `Carries` describes on a line the reader understands. */
  ghost predicate WritesAttempt(env: Env, op: Operation, write: Entry -> bytes, fragmentSha: Hash) {
    forall e: Entry | Carries(env, op, fragmentSha, e) :: FitsOnLine(write(e)) && env.lex(write(e)) == Value(e)
  }

  lemma {:induction false} WrittenEvents(env: Env, op: Operation, write: Entry -> bytes, fragment: bytes,
                                         events: seq<Entry>)
    requires WritesAttempt(env, op, write, env.sha(fragment)) && FitsOnLine(fragment) && env.lex(fragment) == Malformed
    requires forall e | e in events :: Carries(env, op, env.sha(fragment), e)
    ensures FitOnLines(Written(write, fragment, events))
    ensures Events(env, Written(write, fragment, events)) == Some(events)
  {
    if events != [] {
      var e := events[0];
      var more := Written(write, fragment, events[1..]);
      WrittenEvents(env, op, write, fragment, events[1..]);
      assert Carries(env, op, env.sha(fragment), e) && [e] + events[1..] == events;
      if e.event == TornTailAcknowledged {
        assert ([fragment, write(e)] + more)[2..] == more;
      } else {
        assert ([write(e)] + more)[1..] == more;
      }
    }
  }

  /**
   * The bound is reached by a file: for every operation that can be prepared, every writer of its
   * entries and every fragment that is no canonical line, some accepted file has exactly 64 lines.
   */
  lemma SixtyFourLineFile(env: Env, op: Operation, write: Entry -> bytes, fragment: bytes)
    returns (raw: bytes)
    requires Preparable(op) && WritesAttempt(env, op, write, env.sha(fragment))
    requires FitsOnLine(fragment) && env.lex(fragment) == Malformed
    ensures Project(env, raw).status.Observed? && Project(env, raw).physicalLines == MAX_LINES
    ensures Project(env, raw).operationSha == Some(env.Digest(op))
  {
    hide Carries, Events, Feed, Project, Written, Unlines;
    var events, states := SixtyFourLinesAreReached(env, op, env.sha(fragment));
    WrittenEvents(env, op, write, fragment, events);
    RunIsAFile(env, Written(write, fragment, events), events, states);
    raw := Unlines(Written(write, fragment, events), NEWLINE);
  }
}
