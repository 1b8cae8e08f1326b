/**
 * Torn tails: a file that ends in an unfinished fragment, continued by a newline and the
 * acknowledgement of that fragment. The reserve decides whether the file is accepted, so a third
 * fragment in the last eight lines is never acknowledged and the file stays corrupt.
 */
module TornTails {
  import opened Prelude
  import opened Lines
  import opened Oplog
  import opened OplogRuns
  import opened OplogSafety
  import opened OplogReserve
  import opened OplogFiles

  /** The bytes behind the last newline. */
  function Fragment(raw: bytes): bytes {
    var parts := Split(raw, NEWLINE);
    parts[|parts| - 1]
  }

  /** The reserve, as the complete lines of the file left it, still takes a fragment and its acknowledgement. */
  predicate HasRoom(rs: RunState) {
    rs.position + 2 <= RESERVE_AFTER || Count(rs.counts, TornTailAcknowledged) < 2
  }

  /** A line that acknowledges the fragment at the end of `raw`, for the attempt in hand if there is one. */
  predicate AcknowledgingLine(env: Env, raw: bytes, line: bytes) {
    var p := Project(env, raw);
    && FitsOnLine(line) && env.lex(line).Value?
    && Acknowledges(env, env.lex(line).entry, Fragment(raw))
    && (p.operationSha.Some? ==>
          Some(env.lex(line).entry.operationSha) == p.operationSha && Some(env.lex(line).entry.attempt) == p.attempt)
  }

  /** The file with its fragment ended by a newline, and one more line. */
  function Continued(raw: bytes, line: bytes): bytes { raw + [NEWLINE] + line + [NEWLINE] }

  lemma ContinuedLines(raw: bytes, line: bytes)
    requires NEWLINE !in line
    ensures Continued(raw, line) == Unlines(CompleteLines(raw) + [Fragment(raw), line], NEWLINE)
    ensures CompleteLines(Continued(raw, line)) == CompleteLines(raw) + [Fragment(raw), line]
    ensures !IsTorn(Continued(raw, line)) && NEWLINE !in Fragment(raw)
  {
    hide Split, Unlines;
    var lines, fragment := CompleteLines(raw), Fragment(raw);
    UnlinesOfSplit(raw, NEWLINE);
    UnlinesConcat([fragment], [line], NEWLINE);
    UnlinesOne(fragment, NEWLINE);
    UnlinesOne(line, NEWLINE);
    assert [fragment] + [line] == [fragment, line];
    UnlinesConcat(lines, [fragment, line], NEWLINE);
    var head := Unlines(lines, NEWLINE);
    assert head + ((fragment + [NEWLINE]) + (line + [NEWLINE])) == head + fragment + [NEWLINE] + line + [NEWLINE];
    UnlinesIsComplete(lines + [fragment, line]);
  }

  /** Whatever follows the newline, the fragment has become a complete line. */
  lemma {:induction false} SplitAfter(lines: seq<bytes>, more: bytes)
    requires forall i | 0 <= i < |lines| :: NEWLINE !in lines[i]
    ensures Split(Unlines(lines, NEWLINE) + more, NEWLINE) == lines + Split(more, NEWLINE)
  {
    if lines == [] {
      assert [] + more == more && [] + Split(more, NEWLINE) == Split(more, NEWLINE);
    } else {
      hide Split;
      SplitAfter(lines[1..], more);
      SplitCons(lines[0], Unlines(lines[1..], NEWLINE) + more, NEWLINE);
      Associate(lines[0] + [NEWLINE], Unlines(lines[1..], NEWLINE), more);
      Associate([lines[0]], lines[1..], Split(more, NEWLINE));
      assert [lines[0]] + lines[1..] == lines;
    }
  }

  lemma EndedLines(raw: bytes, more: bytes)
    ensures CompleteLines(raw + [NEWLINE] + more) == CompleteLines(raw) + [Fragment(raw)] + CompleteLines(more)
  {
    hide Split, Unlines;
    var lines, fragment := CompleteLines(raw), Fragment(raw);
    UnlinesOfSplit(raw, NEWLINE);
    UnlinesOne(fragment, NEWLINE);
    UnlinesConcat(lines, [fragment], NEWLINE);
    assert Unlines(lines, NEWLINE) + (fragment + [NEWLINE]) == raw + [NEWLINE];
    SplitAfter(lines + [fragment], more);
    var parts, tail := Split(raw + [NEWLINE] + more, NEWLINE), Split(more, NEWLINE);
    assert parts == lines + [fragment] + tail;
    assert parts[..|parts| - 1] == lines + [fragment] + tail[..|tail| - 1];
  }

  /** The reader goes on where the lines before left it. */
  lemma {:induction false} RunConcat(env: Env, rs: RunState, a: seq<bytes>, b: seq<bytes>)
    requires Run(env, rs, a).Ok?
    ensures Run(env, rs, a + b) == Run(env, Run(env, rs, a).value, b)
    decreases |a|
  {
    if a == [] {
      assert a + b == b;
    } else {
      hide Next;
      NextIgnoresRest(env, rs, a, b);
      var r := Next(env, rs, a);
      DropConcat(a, b, r.width);
      RunConcat(env, r.state, a[r.width..], b);
    }
  }

  lemma DropConcat(a: seq<bytes>, b: seq<bytes>, n: nat)
    requires n <= |a|
    ensures (a + b)[n..] == a[n..] + b
  {
  }

  lemma NextIgnoresRest(env: Env, rs: RunState, a: seq<bytes>, b: seq<bytes>)
    requires a != [] && Next(env, rs, a).Read?
    ensures Next(env, rs, a + b) == Next(env, rs, a)
  {
    assert (a + b)[0] == a[0];
    if |a| > 1 { assert (a + b)[1] == a[1]; }
  }

  // ---- one acknowledgement ------------------------------------------------------------------

  /** Reserve and machine take an acknowledgement of the attempt in hand exactly if there is room. */
  lemma AcknowledgementIsTaken(env: Env, rs: RunState, e: Entry)
    requires ValidEntry(env, e) && e.event == TornTailAcknowledged
    requires rs.machine.bound == None || rs.machine.Names(e)
    ensures Feed(env, rs, e).Some? <==> HasRoom(rs)
    ensures HasRoom(rs) ==>
              var n := Feed(env, rs, e).value;
              && n.position == rs.position + 2
              && n.machine == rs.machine.(last := n.position, mode := ModeAfter(rs.machine))
  {
  }

  /** A preamble is marked as an incomplete preparation; an attempt in hand keeps its mode. */
  function ModeAfter(m: State): Mode { if m.bound == None then PreparationIncomplete else m.mode }

  /** No acknowledgement at all is taken once two are counted in the reserve. */
  lemma NoRoomRefuses(env: Env, rs: RunState, e: Entry)
    requires ValidEntry(env, e) && e.event == TornTailAcknowledged && !HasRoom(rs)
    ensures Take(env, rs, e, 2, true).None?
  {
  }

  /** An acknowledgement is no entry of its own. */
  lemma LoneAcknowledgement(env: Env, rs: RunState, lines: seq<bytes>)
    requires lines != [] && env.lex(lines[0]).Value? && env.lex(lines[0]).entry.event == TornTailAcknowledged
    ensures !Next(env, rs, lines).Read?
  {
  }

  /** What the reader makes of the fragment and the line after it. */
  lemma FragmentIsRead(env: Env, rs: RunState, fragment: bytes, line: bytes)
    requires env.lex(line).Value? && Acknowledges(env, env.lex(line).entry, fragment)
    requires rs.machine.bound == None || rs.machine.Names(env.lex(line).entry)
    ensures var r := Run(env, rs, [fragment, line]);
            && (r.Ok? <==> env.lex(fragment) == Malformed && HasRoom(rs))
            && (r.Ok? ==> Feed(env, rs, env.lex(line).entry) == Some(r.value))
  {
    hide Feed, Take, ValidEntry;
    var e := env.lex(line).entry;
    var lines := [fragment, line];
    if env.lex(fragment) == Malformed {
      assert lines[2..] == [];
      AcknowledgedNext(env, rs, lines);
      AckFacts(env, rs, e);
    } else if Next(env, rs, lines).Read? {
      OneLineNext(env, rs, lines);
      assert lines[1..] == [line];
      LoneAcknowledgement(env, Next(env, rs, lines).state, [line]);
    }
  }

  lemma AckFacts(env: Env, rs: RunState, e: Entry)
    requires ValidEntry(env, e) && e.event == TornTailAcknowledged
    requires rs.machine.bound == None || rs.machine.Names(e)
    ensures Feed(env, rs, e) == Take(env, rs, e, 2, true)
    ensures Feed(env, rs, e).Some? <==> HasRoom(rs)
  {
    AcknowledgementIsTaken(env, rs, e);
  }

  lemma AcknowledgedNext(env: Env, rs: RunState, lines: seq<bytes>)
    requires |lines| == 2 && env.lex(lines[0]) == Malformed && env.lex(lines[1]).Value?
    requires Acknowledges(env, env.lex(lines[1]).entry, lines[0])
    ensures Next(env, rs, lines) == TakeOrRefuse(env, rs, env.lex(lines[1]).entry, 2, true)
  {
  }

  lemma OneLineNext(env: Env, rs: RunState, lines: seq<bytes>)
    requires lines != [] && env.lex(lines[0]) != Malformed && Next(env, rs, lines).Read?
    ensures Next(env, rs, lines).width == 1
  {
  }

  // ---- whole files --------------------------------------------------------------------------

  /** What a torn file shows: its complete lines are read, and the fragment is no line yet. */
  lemma TornFacts(env: Env, raw: bytes) returns (rs: RunState)
    requires Project(env, raw).status == StatusTornTail
    ensures Run(env, START, CompleteLines(raw)) == Ok(rs)
    ensures FitOnLines(CompleteLines(raw)) && FitsOnLine(Fragment(raw)) && Fragment(raw) != []
    ensures Project(env, raw) == Shown(rs.machine, |CompleteLines(raw)| + 1, true)
    ensures rs.position == |CompleteLines(raw)|
  {
    hide Run, Split;
    rs := Run(env, START, CompleteLines(raw)).value;
    RunCountsLines(env, START, CompleteLines(raw));
    var parts := Split(raw, NEWLINE);
    assert PhysicalLines(raw) == parts;
    assert forall i | 0 <= i < |parts| :: FitsOnLine(parts[i]);
  }

  /** An accepted file of complete lines shows the state the reader ends in. */
  lemma CompleteFile(env: Env, lines: seq<bytes>)
    requires FitOnLines(lines)
    ensures var p, r := Project(env, Unlines(lines, NEWLINE)), Run(env, START, lines);
            && (r.Ok? ==> p == Shown(r.value.machine, |lines|, false) && |lines| <= MAX_LINES)
            && (r.Err? ==> p.status == StatusCorrupt)
  {
    hide Split, Unlines, Shown, Run;
    UnlinesIsComplete(lines);
    if Run(env, START, lines).Ok? {
      LineLimitIsImplied(env, lines);
      UnlinesLength(lines, NEWLINE, MAX_LINE);
      assert |lines| * MAX_LINE <= MAX_LOG;
    }
  }

  /**
   * Whatever its complete lines hold, a torn file that is continued by a newline and an acknowledgement
   * of its fragment is accepted exactly if the fragment does not lex and the reserve has room; it then
   * shows the same attempt, with nothing but the end of its lines moved.
   */
  lemma TornTailIsAcknowledged(env: Env, raw: bytes, line: bytes)
    requires Project(env, raw).status == StatusTornTail && AcknowledgingLine(env, raw, line)
    ensures Run(env, START, CompleteLines(raw)).Ok?
    ensures var rs, p := Run(env, START, CompleteLines(raw)).value, Project(env, Continued(raw, line));
            var end := |CompleteLines(raw)| + 2;
            if env.lex(Fragment(raw)) == Malformed && HasRoom(rs) then
              p == Shown(rs.machine.(last := end, mode := ModeAfter(rs.machine)), end, false)
            else p.status == StatusCorrupt
  {
    hide Project, Run, CompleteLines, Fragment, Unlines, Feed, Continued;
    var rs := TornFacts(env, raw);
    var lines, fragment, e := CompleteLines(raw), Fragment(raw), env.lex(line).entry;
    ContinuedLines(raw, line);
    RunConcat(env, START, lines, [fragment, line]);
    FragmentIsRead(env, rs, fragment, line);
    AcknowledgementIsTaken(env, rs, e);
    CompleteFile(env, lines + [fragment, line]);
  }

  /** A fragment that does not lex, behind lines that leave no room, keeps the file corrupt whatever is appended. */
  lemma CorruptForGood(env: Env, raw: bytes, more: bytes)
    requires Project(env, raw).status == StatusTornTail && env.lex(Fragment(raw)) == Malformed
    requires !HasRoom(Run(env, START, CompleteLines(raw)).value)
    ensures Project(env, raw + [NEWLINE] + more).status == StatusCorrupt
  {
    hide Project, CompleteLines, Fragment, Shown, Next;
    var rs := TornFacts(env, raw);
    var lines, rest := CompleteLines(raw), [Fragment(raw)] + CompleteLines(more);
    EndedLines(raw, more);
    Associate(lines, [Fragment(raw)], CompleteLines(more));
    RunConcat(env, START, lines, rest);
    NoNext(env, rs, rest);
    UnreadIsCorrupt(env, raw + [NEWLINE] + more);
  }

  lemma UnreadIsCorrupt(env: Env, raw: bytes)
    requires Run(env, START, CompleteLines(raw)).Err?
    ensures Project(env, raw).status == StatusCorrupt
  {
    hide Run, CompleteLines, PhysicalLines;
  }

  lemma NoNext(env: Env, rs: RunState, lines: seq<bytes>)
    requires lines != [] && env.lex(lines[0]) == Malformed && !HasRoom(rs)
    ensures !Next(env, rs, lines).Read?
  {
    hide Take;
    if |lines| > 1 && env.lex(lines[1]).Value? && Acknowledges(env, env.lex(lines[1]).entry, lines[0]) {
      NoRoomRefuses(env, rs, env.lex(lines[1]).entry);
    }
  }

  // ---- what follows an acknowledgement ------------------------------------------------------

  /** Lines of the operator for the torn file are lines of the operator for the continued one. */
  lemma SameOperator(env: Env, m: State, n: State, count: nat, end: nat, line: bytes, event: Event)
    requires n.bound == m.bound && OperatorLine(env, Shown(m, count, true), line, event)
    ensures OperatorLine(env, Shown(n, end, false), line, event)
  {
  }

  lemma AcknowledgedIsUnfinished(m: State, end: nat)
    requires m.bound.Some? && m.terminal == None
    ensures var n := m.(last := end, mode := ModeAfter(m)); n.bound == m.bound && Unfinished(Shown(n, end, false))
  {
  }

  /**
   * In the accepted case an unfinished attempt is not stuck: the closing lines of the operator still
   * fit behind the acknowledgement, and the set-aside lines behind these.
   */
  lemma AcknowledgedFileIsNotStuck(env: Env, raw: bytes, line: bytes,
                                   terminate: bytes, fail: bytes, begin: bytes, done: bytes)
    requires Project(env, raw).status == StatusTornTail && AcknowledgingLine(env, raw, line)
    requires env.lex(Fragment(raw)) == Malformed && Run(env, START, CompleteLines(raw)).Ok?
    requires var rs := Run(env, START, CompleteLines(raw)).value;
             HasRoom(rs) && rs.machine.bound.Some? && rs.machine.terminal == None
    requires OperatorLine(env, Project(env, raw), terminate, Terminated)
    requires OperatorLine(env, Project(env, raw), fail, FailedConsumed)
    requires OperatorLine(env, Project(env, raw), begin, SetAsideBegin)
    requires OperatorLine(env, Project(env, raw), done, SetAsideDone)
    ensures var p := Project(env, Continued(raw, line));
            var closed := Continued(raw, line) + Unlines(ClosingLines(p, terminate, fail), NEWLINE);
            var cleared := closed + Unlines([begin, done], NEWLINE);
            && Unfinished(p) && p.operationSha == Project(env, raw).operationSha
            && p.d3Started == Project(env, raw).d3Started
            && ShowsClaim(Project(env, closed), p.operationSha)
            && (p.d3Started ==>
                  && ShowsClaim(Project(env, cleared), p.operationSha)
                  && Run(env, START, CompleteLines(cleared)).Ok?
                  && Run(env, START, CompleteLines(cleared)).value.machine.mode == ClearedTerminal)
  {
    hide Project, Run, CompleteLines, Fragment, Unlines, Continued, OperatorLine, Unfinished, ShowsClaim, Acknowledges;
    hide ClosingLines, HasRoom;
    var rs := TornFacts(env, raw);
    var m, count, end := rs.machine, |CompleteLines(raw)| + 1, |CompleteLines(raw)| + 2;
    var n := m.(last := end, mode := ModeAfter(m));
    TornTailIsAcknowledged(env, raw, line);
    AcknowledgedIsUnfinished(m, end);
    SameOperator(env, m, n, count, end, terminate, Terminated);
    SameOperator(env, m, n, count, end, fail, FailedConsumed);
    SameOperator(env, m, n, count, end, begin, SetAsideBegin);
    SameOperator(env, m, n, count, end, done, SetAsideDone);
    NoFileIsStuck(env, Continued(raw, line), terminate, fail, begin, done);
  }

  // ---- the third fragment -------------------------------------------------------------------

  /** Complete lines the reader accepts, with bytes behind the last newline, are a torn file. */
  lemma TornFile(env: Env, lines: seq<bytes>, fragment: bytes, rs: RunState)
    requires FitOnLines(lines) && FitsOnLine(fragment) && fragment != [] && |lines| < MAX_LINES
    requires Run(env, START, lines) == Ok(rs)
    ensures var raw := Unlines(lines, NEWLINE) + fragment;
            && CompleteLines(raw) == lines && Fragment(raw) == fragment
            && Project(env, raw) == Shown(rs.machine, |lines| + 1, true)
  {
    hide Split, Unlines, Shown, Run;
    var raw := Unlines(lines, NEWLINE) + fragment;
    SplitAfter(lines, fragment);
    SplitWhole(fragment, NEWLINE);
    assert Split(raw, NEWLINE) == lines + [fragment];
    assert CompleteLines(raw) == lines && PhysicalLines(raw) == lines + [fragment];
    UnlinesLength(lines, NEWLINE, MAX_LINE);
    assert |lines| * MAX_LINE + MAX_LINE <= MAX_LOG;
  }

  /**
   * The reserve does run out: for every operation that can be prepared, every writer of its entries and
   * every fragment that does not lex, some torn file leaves D3 begun and no claim made, and is corrupt
   * for good once its fragment, the third in the reserve, is ended.
   */
  lemma ThirdFragmentIsFatal(env: Env, op: Operation, write: Entry -> bytes, fragment: bytes)
    returns (raw: bytes)
    requires Preparable(op) && WritesAttempt(env, op, write, env.sha(fragment))
    requires FitsOnLine(fragment) && fragment != [] && env.lex(fragment) == Malformed
    ensures Project(env, raw).status == StatusTornTail && Fragment(raw) == fragment
    ensures Project(env, raw).operationSha == Some(env.Digest(op)) && Project(env, raw).d3Started
    ensures Run(env, START, CompleteLines(raw)).Ok?
    ensures Run(env, START, CompleteLines(raw)).value.machine.terminal == None
    ensures forall more: bytes :: Project(env, raw + [NEWLINE] + more).status == StatusCorrupt
  {
    hide Carries, Events, Run, Feed, Written, Unlines, CompleteLines, Fragment, Project;
    var events, states := SixtyLines(env, op, env.sha(fragment));
    var lines, rs := Written(write, fragment, events), states[|events|];
    WrittenEvents(env, op, write, fragment, events);
    RunsAreRead(env, lines, events, states);
    RunCountsLines(env, START, lines);
    raw := Unlines(lines, NEWLINE) + fragment;
    TornFile(env, lines, fragment, rs);
    forall more: bytes ensures Project(env, raw + [NEWLINE] + more).status == StatusCorrupt {
      CorruptForGood(env, raw, more);
    }
  }

  /** 56 ordinary lines that wait on D3, and two acknowledged fragments behind them. */
  lemma SixtyLines(env: Env, op: Operation, fragmentSha: Hash) returns (events: seq<Entry>, states: seq<RunState>)
    requires Preparable(op)
    ensures IsRun(env, events, states) && states[|events|].position == 60 && !HasRoom(states[|events|])
    ensures states[|events|].machine.bound == Some(Bound(op, env.Digest(op)))
    ensures states[|events|].machine.d3 && states[|events|].machine.terminal == None
    ensures forall e | e in events :: Carries(env, op, fragmentSha, e)
  {
    hide Feed, Carries, OperatorEntries;
    var ack := ReserveEntries(env, op, fragmentSha)[4];
    ReserveEntriesCarry(env, op, fragmentSha);
    var ordinary;
    ordinary, states := FiftySixLines(env, op, fragmentSha);
    states := TwoAcknowledgements(env, op, fragmentSha, ordinary, states, ack);
    events := ordinary + [ack, ack];
  }
}
