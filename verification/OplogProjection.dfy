/**
 * What a projection of a file says, from the entries on its lines: which files are read at all, each
 * field of the projection, and the claim of every attempt.
 */
module OplogProjection {
  import opened Prelude
  import opened Lines
  import opened Oplog
  import opened OplogRuns
  import opened OplogSafety
  import opened OplogReserve
  import opened OplogAttempts
  import opened Rescan
  import opened OplogGrammar
  import opened TornTails

  /** The entries on lines, in their order. */
  function EntriesOn(env: Env, lines: seq<bytes>): seq<Entry> {
    if lines == [] then []
    else (if env.lex(lines[0]).Value? then [env.lex(lines[0]).entry] else []) + EntriesOn(env, lines[1..])
  }

  /**
   * A line is an entry or a fragment. A fragment is followed by an acknowledgement, and an
   * acknowledgement names the digest of the fragment it follows.
   */
  predicate LineFits(env: Env, lines: seq<bytes>, i: nat)
    requires i < |lines|
  {
    match env.lex(lines[i])
    case Value(e) =>
      && IsEntry(env, e)
      && (e.event == TornTailAcknowledged ==>
            i > 0 && env.lex(lines[i - 1]) == Malformed && e.data == DigestData(env.sha(lines[i - 1])))
    case Malformed =>
      && i + 1 < |lines| && env.lex(lines[i + 1]).Value?
      && env.lex(lines[i + 1]).entry.event == TornTailAcknowledged
    case _ => false
  }

  predicate LinesFit(env: Env, lines: seq<bytes>) {
    forall i | 0 <= i < |lines| :: LineFits(env, lines, i)
  }

  lemma FitsBehind(env: Env, lines: seq<bytes>, w: nat, i: nat)
    requires 1 <= w <= |lines| && i < |lines| - w && env.lex(lines[w - 1]) != Malformed
    ensures LineFits(env, lines[w..], i) <==> LineFits(env, lines, i + w)
  {
    hide IsEntry;
    assert lines[w..][i] == lines[i + w];
    if i > 0 { assert lines[w..][i - 1] == lines[i + w - 1]; }
    if i + 1 < |lines| - w { assert lines[w..][i + 1] == lines[i + w + 1]; }
  }

  /** The lines of a log carry its entries exactly if every line fits. */
  lemma {:induction false} EventsAreOnLines(env: Env, lines: seq<bytes>)
    ensures Events(env, lines) == if LinesFit(env, lines) then Some(EntriesOn(env, lines)) else None
    decreases |lines|
  {
    hide IsEntry, ValidEntry;
    if lines != [] && env.lex(lines[0]).Value? {
      var e := env.lex(lines[0]).entry;
      ValidIsEntry(env, e);
      EventsAreOnLines(env, lines[1..]);
      FitFrom(env, lines, 1);
      assert LineFits(env, lines, 0) <==> IsEntry(env, e) && e.event != TornTailAcknowledged;
    } else if |lines| > 1 && env.lex(lines[0]) == Malformed && env.lex(lines[1]).Value? {
      var e := env.lex(lines[1]).entry;
      ValidIsEntry(env, e);
      EventsAreOnLines(env, lines[2..]);
      FragmentEntries(env, lines);
      if e.event == TornTailAcknowledged {
        FitFrom(env, lines, 2);
        AcknowledgesMeans(env, lines);
      } else {
        assert !LineFits(env, lines, 0);
      }
    } else if lines != [] {
      assert !LineFits(env, lines, 0);
    }
  }

  lemma FragmentEntries(env: Env, lines: seq<bytes>)
    requires |lines| > 1 && env.lex(lines[0]) == Malformed && env.lex(lines[1]).Value?
    ensures EntriesOn(env, lines) == [env.lex(lines[1]).entry] + EntriesOn(env, lines[2..])
  {
    assert lines[1..][1..] == lines[2..] && lines[1..][0] == lines[1];
    assert EntriesOn(env, lines) == EntriesOn(env, lines[1..]);
  }

  lemma AcknowledgesMeans(env: Env, lines: seq<bytes>)
    requires |lines| > 1 && env.lex(lines[0]) == Malformed && env.lex(lines[1]).Value?
    ensures Acknowledges(env, env.lex(lines[1]).entry, lines[0])
            <==> LineFits(env, lines, 0) && LineFits(env, lines, 1)
  {
  }

  lemma FitFrom(env: Env, lines: seq<bytes>, w: nat)
    requires 1 <= w <= |lines| && env.lex(lines[w - 1]) != Malformed
    ensures LinesFit(env, lines) <==> LinesFit(env, lines[w..]) && forall i | 0 <= i < w :: LineFits(env, lines, i)
  {
    hide LineFits;
    forall i | 0 <= i < |lines| - w ensures LineFits(env, lines[w..], i) <==> LineFits(env, lines, i + w) {
      FitsBehind(env, lines, w, i);
    }
    if LinesFit(env, lines[w..]) && forall i | 0 <= i < w :: LineFits(env, lines, i) {
      forall i | 0 <= i < |lines| ensures LineFits(env, lines, i) {
        if i >= w { assert LineFits(env, lines[w..], i - w); }
      }
    }
  }

  /** The file is these lines, each ended by a newline, and a fragment without one; all of them keep to the limits. */
  predicate IsFile(raw: bytes, lines: seq<bytes>, fragment: bytes) {
    && raw == Unlines(lines, 10) + fragment && 10 !in fragment && |fragment| + 1 <= 262144
    && (forall i | 0 <= i < |lines| :: 10 !in lines[i] && |lines[i]| + 1 <= 262144)
    && |lines| + (if fragment == [] then 0 else 1) <= 64
  }

  lemma FileParts(raw: bytes, lines: seq<bytes>, fragment: bytes)
    ensures IsFile(raw, lines, fragment)
            <==> |raw| <= MAX_LOG && WithinLimits(raw) && Split(raw, NEWLINE) == lines + [fragment]
  {
    hide Unlines, Split;
    var parts := Split(raw, NEWLINE);
    UnlinesOfSplit(raw, NEWLINE);
    if parts == lines + [fragment] {
      assert parts[..|parts| - 1] == lines && fragment in parts;
      if WithinLimits(raw) { LimitsOfParts(raw, lines, fragment); }
    }
    if IsFile(raw, lines, fragment) {
      SplitAfter(lines, fragment);
      SplitWhole(fragment, NEWLINE);
      UnlinesLength(lines, NEWLINE, MAX_LINE);
      PartsOfLimits(raw, lines, fragment);
    }
  }

  lemma LimitsOfParts(raw: bytes, lines: seq<bytes>, fragment: bytes)
    requires WithinLimits(raw) && Split(raw, NEWLINE) == lines + [fragment]
    ensures |fragment| + 1 <= 262144 && forall i | 0 <= i < |lines| :: |lines[i]| + 1 <= 262144
    ensures |lines| + (if fragment == [] then 0 else 1) <= 64
  {
    hide Split;
    var all := PhysicalLines(raw);
    assert all == if fragment == [] then lines else lines + [fragment];
    if fragment != [] { assert all[|lines|] == fragment; }
    forall i | 0 <= i < |lines| ensures |lines[i]| + 1 <= 262144 { assert all[i] == lines[i]; }
  }

  lemma PartsOfLimits(raw: bytes, lines: seq<bytes>, fragment: bytes)
    requires IsFile(raw, lines, fragment) && Split(raw, NEWLINE) == lines + [fragment]
    ensures WithinLimits(raw)
  {
    hide Split, Unlines;
    assert PhysicalLines(raw) == if fragment == [] then lines else lines + [fragment];
  }

  /** The parts of a file: its complete lines and its fragment. */
  lemma PartsOf(raw: bytes)
    ensures var parts := Split(raw, NEWLINE);
            var fragment := parts[|parts| - 1];
            && parts == CompleteLines(raw) + [fragment] && (IsTorn(raw) <==> fragment != [])
            && forall lines, f :: parts == lines + [f] ==> lines == CompleteLines(raw) && f == fragment
  {
    hide Split;
    var parts := Split(raw, NEWLINE);
    forall lines: seq<bytes>, f | parts == lines + [f] ensures lines == CompleteLines(raw) && f == parts[|parts| - 1] {
      assert parts[..|parts| - 1] == lines;
    }
  }

  /**
   * A file is read exactly if it is lines and a fragment within the limits, every line fits, and the
   * entries on them are a log of the grammar.
   */
  lemma FilesAreLogs(env: Env, raw: bytes)
    ensures Project(env, raw).status != StatusCorrupt
            <==> exists lines, fragment ::
                   IsFile(raw, lines, fragment) && LinesFit(env, lines) && IsLog(env, EntriesOn(env, lines))
  {
    hide CompleteLines, WithinLimits, Run, Events, IsLog, Feed, Shown, LinesFit, IsFile, Project, Split;
    PartsOf(raw);
    LogsAreRead(env, raw);
    forall lines, fragment
      ensures IsFile(raw, lines, fragment)
              <==> |raw| <= MAX_LOG && WithinLimits(raw) && Split(raw, NEWLINE) == lines + [fragment]
    {
      FileParts(raw, lines, fragment);
    }
    if Project(env, raw).status != StatusCorrupt {
      var fragment := Split(raw, NEWLINE)[|Split(raw, NEWLINE)| - 1];
      assert IsFile(raw, CompleteLines(raw), fragment);
    }
  }

  lemma LogsAreRead(env: Env, raw: bytes)
    ensures Project(env, raw).status != StatusCorrupt
            <==> && |raw| <= MAX_LOG && WithinLimits(raw)
                 && LinesFit(env, CompleteLines(raw)) && IsLog(env, EntriesOn(env, CompleteLines(raw)))
  {
    hide CompleteLines, WithinLimits, Run, Events, IsLog, Feed, Shown, LinesFit;
    EventsAreOnLines(env, CompleteLines(raw));
    if Project(env, raw).status != StatusCorrupt {
      NotCorrupt(env, raw);
      var events, states := AcceptedRun(env, raw);
      RunsAreLogs(env, events, states);
    } else if |raw| <= MAX_LOG && WithinLimits(raw) && Events(env, CompleteLines(raw)).Some?
              && IsLog(env, Events(env, CompleteLines(raw)).value) {
      var events := Events(env, CompleteLines(raw)).value;
      var states := LogsRun(env, events);
      RunsAreRead(env, CompleteLines(raw), events, states);
      ShownIsNotCorrupt(states[|events|].machine, |PhysicalLines(raw)|, IsTorn(raw));
    }
  }

  lemma NotCorrupt(env: Env, raw: bytes)
    requires Project(env, raw).status != StatusCorrupt
    ensures |raw| <= MAX_LOG && WithinLimits(raw)
  {
    hide WithinLimits, Run;
  }

  lemma ShownIsNotCorrupt(m: State, count: nat, torn: bool)
    ensures Shown(m, count, torn).status != StatusCorrupt
  {
  }

  function ShaSaid(e: Entry): Option<Hash> { Some(e.operationSha) }

  function AttemptSaid(e: Entry): Option<int> { Some(e.attempt) }

  /** The mode that is shown behind an action. */
  function ShownSaid(e: Entry): Mode {
    match e.event
    case Prepared | Done | BeginCancelled | QuarantineDone => Open
    case Begin => Interrupted
    case InterruptedRecovered => Recovered
    case Terminated => Terminating
    case DurabilityFault => BlockedDurability
    case QuarantineBegin => Quarantining
    case SetAsideBegin => SettingAside
    case Refused | Abandoned | FailedConsumed | Committed | SetAsideDone => TerminalClaim
    case TornTailAcknowledged => PreparationIncomplete
  }

  /** Every field of the projection but the history, from the entries. */
  predicate ShowsEntries(events: seq<Entry>, torn: bool, p: LogProjection) {
    var n := |events|;
    && p.status == (if torn then StatusTornTail
                    else Observed(Last(events, n, IsAction, ShownSaid, if n == 0 then Empty
                        else PreparationIncomplete)))
    && p.operationSha == Last(events, n, IsPrepared, ShaSaid, None)
    && p.attempt == Last(events, n, IsPrepared, AttemptSaid, None)
    && p.lastCompletedStep
       == (if LastOf(events, n, IsPrepared) < 0 then None else Some(Last(events, n, MarksLevel, LevelSaid, 0)))
    && p.pendingStep == Last(events, n, MarksPending, PendingSaid, None)
    && p.d3Started == Last(events, n, MarksD3, IsBegin, false)
    && p.terminalClaim == (if torn then None else Last(events, n, MarksClaim, ClaimSaid, None))
    && p.physicalLines == LinesOf(events, n) + (if torn then 1 else 0)
    && p.code == (if torn then TornTail else Last(events, n, IsAction, CodeSaid, LogObserved))
    && p.recovery == Last(events, n, MarksRecovery, RecoverySaid, None)
    && p.lastCompletedSource == Last(events, n, MarksLevel, SourceSaid, None)
  }

  lemma ShownMatches(events: seq<Entry>, n: nat)
    requires n <= |events|
    ensures ShownMode(ModeAt(events, n))
            == Last(events, n, IsAction, ShownSaid, if n == 0 then Empty else PreparationIncomplete)
  {
    hide LastOf;
  }

  lemma BoundMatches(env: Env, events: seq<Entry>, states: seq<RunState>)
    requires IsRun(env, events, states)
    ensures var n, m := |events|, states[|events|].machine;
            && (m.bound.Some? <==> LastOf(events, n, IsPrepared) >= 0)
            && Last(events, n, IsPrepared, ShaSaid, None) == (if m.bound.Some? then Some(m.bound.value.sha) else None)
            && Last(events, n, IsPrepared, AttemptSaid, None)
               == (if m.bound.Some? then Some(m.bound.value.op.attempt) else None)
  {
    hide LastOf, Behind, ValidEntry, IsRun;
    RunLength(env, events, states);
    AttemptSays(env, events, states);
  }

  /** Every file that is read shows what its entries say; with a fragment behind them it is torn. */
  lemma ProjectionSays(env: Env, raw: bytes) returns (lines: seq<bytes>, fragment: bytes)
    requires Project(env, raw).status != StatusCorrupt
    ensures IsFile(raw, lines, fragment) && LinesFit(env, lines) && IsLog(env, EntriesOn(env, lines))
    ensures ShowsEntries(EntriesOn(env, lines), fragment != [], Project(env, raw))
  {
    hide Project, CompleteLines, IsLog, LinesFit, IsFile, ShowsEntries, Split, Events;
    lines, fragment := CompleteLines(raw), Split(raw, NEWLINE)[|Split(raw, NEWLINE)| - 1];
    PartsOf(raw);
    LogsAreRead(env, raw);
    FileParts(raw, lines, fragment);
    EventsAreOnLines(env, lines);
    LinesSay(env, raw);
  }

  lemma LinesSay(env: Env, raw: bytes)
    requires Project(env, raw).status != StatusCorrupt
    ensures Events(env, CompleteLines(raw)).Some?
    ensures ShowsEntries(Events(env, CompleteLines(raw)).value, IsTorn(raw), Project(env, raw))
  {
    hide Project, CompleteLines, Run, Events, Feed, ShowsEntries, Says;
    var events, states := AcceptedRun(env, raw);
    var n, m := |events|, states[|events|].machine;
    StatesSayTheirEntries(env, events, states, n);
    BoundMatches(env, events, states);
    CountsAreUsed(env, events, states, n);
    CountOfLines(env, raw, events, states);
    ShowsState(events, m, |PhysicalLines(raw)|, IsTorn(raw));
  }

  lemma CountOfLines(env: Env, raw: bytes, events: seq<Entry>, states: seq<RunState>)
    requires Events(env, CompleteLines(raw)) == Some(events) && IsRun(env, events, states)
    ensures |PhysicalLines(raw)| == states[|events|].position + (if IsTorn(raw) then 1 else 0)
  {
    hide Events, Run, Feed, Split;
    RunsAreRead(env, CompleteLines(raw), events, states);
    RunCountsLines(env, START, CompleteLines(raw));
  }

  lemma ShowsState(events: seq<Entry>, m: State, count: nat, torn: bool)
    requires Says(events, |events|, m) && count == LinesOf(events, |events|) + (if torn then 1 else 0)
    requires m.bound.Some? <==> LastOf(events, |events|, IsPrepared) >= 0
    requires Last(events, |events|, IsPrepared, ShaSaid, None)
             == if m.bound.Some? then Some(m.bound.value.sha) else None
    requires Last(events, |events|, IsPrepared, AttemptSaid, None)
             == if m.bound.Some? then Some(m.bound.value.op.attempt) else None
    ensures ShowsEntries(events, torn, Shown(m, count, torn))
  {
    ShownMatches(events, |events|);
    hide LastOf, Last, ShownMode, ModeAt, LinesOf;
  }

  // ---- the claim of every attempt -----------------------------------------------------------------

  /** What the entries of an attempt claim: there is at most one claim among them, and it is this one. */
  predicate ClaimOf(own: seq<Entry>, claim: Option<Event>) {
    && (forall i, j | 0 <= i < |own| && 0 <= j < |own| && IsClaim(own[i]) && IsClaim(own[j]) :: i == j)
    && (claim == None <==> forall e | e in own :: !IsClaim(e))
    && (claim.Some? ==> exists e :: e in own && IsClaim(e) && Some(e.event) == claim)
  }

  /** A claim is only accepted where none was made. */
  lemma ClaimsOnce(env: Env, rs: RunState, e: Entry)
    requires Inv(rs.machine) && Feed(env, rs, e).Some? && IsClaim(e)
    ensures rs.machine.terminal == None
  {
  }

  /** The last claim among the entries of an attempt. */
  lemma LastClaim(events: seq<Entry>, n: nat) returns (k: nat)
    requires n <= |events| && AttemptStart(events, n) >= 0
    ensures AttemptStart(events, n) <= k < n && Last(events, n, MarksClaim, ClaimSaid, None) == ClaimSaid(events[k])
    ensures IsClaim(events[k]) || k == AttemptStart(events, n)
    ensures forall i | k < i < n :: !IsClaim(events[i])
  {
    hide IsClaim;
    var a := AttemptStart(events, n);
    assert MarksClaim(events[a]);
    k := LastOf(events, n, MarksClaim);
    forall i | k < i < n ensures !IsClaim(events[i]) { assert !MarksClaim(events[i]); }
  }

  /** No entry of the attempt before a claim is a claim. */
  lemma NoClaimBefore(env: Env, events: seq<Entry>, states: seq<RunState>, j: nat)
    requires IsRun(env, events, states) && j < |events| && IsClaim(events[j])
    ensures AttemptStart(events, j) >= 0
    ensures forall i | AttemptStart(events, j) <= i < j :: !IsClaim(events[i])
  {
    hide Feed, Inv, IsClaim, LastOf, Last;
    RunsKeepInv(env, events, states, j);
    assert Feed(env, states[j], events[j]) == Some(states[j + 1]);
    ClaimsOnce(env, states[j], events[j]);
    StatesSayTheirEntries(env, events, states, j);
    StepFacts(env, events, states, j);
    ClaimNames(events[j]);
    RunsKeepTrace(env, events, states, j);
    var k := LastClaim(events, j);
  }

  lemma ClaimNames(e: Entry)
    requires IsClaim(e)
    ensures e.event != Prepared && e.event != TornTailAcknowledged
  {
  }

  /** The entries of the attempt in hand claim what the machine carries. */
  lemma StateClaims(env: Env, events: seq<Entry>, states: seq<RunState>, n: nat)
    requires IsRun(env, events, states) && n <= |events| && states[n].machine.bound.Some?
    ensures ClaimOf(AttemptEvents(events, n), states[n].machine.terminal)
  {
    hide Feed, IsClaim, LastOf, Last, IsPath, Says;
    PathOfRun(env, events, states);
    StatesSayTheirEntries(env, events, states, n);
    SaysClaim(events, n, states[n].machine);
    StartLine(env, events, states, n);
    var a := AttemptStart(events, n);
    var k := LastClaim(events, n);
    forall j | a <= j < n && IsClaim(events[j]) ensures forall i | a <= i < j :: !IsClaim(events[i]) {
      NoClaimBefore(env, events, states, j);
      ClaimNames(events[j]);
      SameStart(events, j, n);
    }
    ClaimOfAttempt(events, a, k, n);
  }

  lemma SaysClaim(events: seq<Entry>, n: nat, m: State)
    requires n <= |events| && Says(events, n, m)
    ensures m.terminal == Last(events, n, MarksClaim, ClaimSaid, None)
  {
  }

  lemma {:induction false} SameStart(events: seq<Entry>, j: nat, n: nat)
    requires n <= |events| && AttemptStart(events, n) <= j < n && events[j].event != Prepared
    ensures AttemptStart(events, j) == AttemptStart(events, n)
  {
    if j + 1 < n { SameStart(events, j, n - 1); }
  }

  lemma ClaimOfAttempt(events: seq<Entry>, a: nat, k: nat, n: nat)
    requires a <= k < n <= |events| && events[a].event == Prepared
    requires IsClaim(events[k]) || k == a
    requires forall i | k < i < n :: !IsClaim(events[i])
    requires forall i, j | a <= i < j < n && IsClaim(events[j]) :: !IsClaim(events[i])
    ensures ClaimOf(events[a..n], ClaimSaid(events[k]))
  {
    hide IsClaim;
    var own := events[a..n];
    assert own[k - a] == events[k] && own[k - a] in own;
    if k == a { ClaimNot(events[a]); }
    forall i, j | 0 <= i < |own| && 0 <= j < |own| && IsClaim(own[i]) && IsClaim(own[j]) ensures i == j {
      assert own[i] == events[a + i] && own[j] == events[a + j];
    }
  }

  lemma ClaimNot(e: Entry)
    requires e.event == Prepared
    ensures !IsClaim(e)
  {
  }

  /** The lines of an attempt carry its entries. */
  lemma AttemptLines(env: Env, lines: seq<bytes>, events: seq<Entry>, states: seq<RunState>, q: nat)
    requires Events(env, lines) == Some(events) && IsRun(env, events, states)
    requires q <= |events| && states[q].machine.bound.Some?
    ensures var s := states[q].machine.Summary();
            && 1 <= s.startLine <= states[q].position <= |lines|
            && Events(env, lines[s.startLine - 1..states[q].position]) == Some(AttemptEvents(events, q))
  {
    hide Feed, Events, IsPath;
    PathOfRun(env, events, states);
    RangeOf(env, events, states, q);
    EventsOnPrefix(env, lines, events, states, q);
    var end := states[q].position;
    RunPrefix(env, events, states, q);
    var start := AttemptStart(events, q);
    StartLine(env, events, states, q);
    PathOfRun(env, events[..q], states[..q + 1]);
    EventsOnSuffix(env, lines[..end], events[..q], states[..q + 1], start);
    assert lines[..end][states[start].position..] == lines[states[start].position..end];
    assert events[..q][start..] == events[start..q];
  }

  /**
   * For every attempt of a file that is read, torn or not: its claim is the one terminal claim among
   * the entries on its own lines, and it has none exactly if there is none among them.
   */
  lemma ClaimsAreWritten(env: Env, raw: bytes, i: nat) returns (own: seq<Entry>)
    requires Project(env, raw).status != StatusCorrupt && i < |Project(env, raw).history|
    ensures var s := Project(env, raw).history[i];
            && 1 <= s.startLine <= s.endLine <= |CompleteLines(raw)|
            && Events(env, CompleteLines(raw)[s.startLine - 1..s.endLine]) == Some(own)
            && ClaimOf(own, s.terminal)
            && own != [] && own[0].event == Prepared
            && own[0].operationSha == s.operationSha && own[0].attempt == s.attempt
  {
    hide Project, CompleteLines, Run, Events, Feed, ClaimOf, IsPath;
    var events, states := AcceptedRun(env, raw);
    PathOfRun(env, events, states);
    var q := AttemptEnd(env, events, states, |events|, i);
    AttemptLines(env, CompleteLines(raw), events, states, q);
    StateClaims(env, events, states, q);
    FirstOfAttempt(env, events, states, q);
    own := AttemptEvents(events, q);
  }

  /** The claim of a complete file is that of its last attempt, and it has as many attempts as PREPARED entries. */
  lemma LastAttemptShown(env: Env, raw: bytes)
    requires Project(env, raw).status != StatusCorrupt
    ensures Events(env, CompleteLines(raw)).Some?
    ensures var p, events := Project(env, raw), Events(env, CompleteLines(raw)).value;
            && |p.history| == Openings(events, |events|)
            && (p.history != [] && !IsTorn(raw) ==> p.terminalClaim == p.history[|p.history| - 1].terminal)
  {
    hide Project, CompleteLines, Run, Events, Feed, IsPath;
    var events, states := AcceptedRun(env, raw);
    PathOfRun(env, events, states);
    OneSummaryEach(env, events, states, |events|);
    if states[|events|].machine.bound.None? { BoundHistory(env, events, states, |events|); }
  }

  lemma FirstOfAttempt(env: Env, events: seq<Entry>, states: seq<RunState>, q: nat)
    requires IsRun(env, events, states) && q <= |events| && states[q].machine.bound.Some?
    ensures var own, s := AttemptEvents(events, q), states[q].machine.Summary();
            && own != [] && own[0].event == Prepared
            && own[0].operationSha == s.operationSha && own[0].attempt == s.attempt
  {
    hide Feed;
    StartLine(env, events, states, q);
    RunsKeepTrace(env, events, states, q);
    StepFacts(env, events, states, AttemptStart(events, q));
  }

  /** How many of the first `n` entries open an attempt. */
  function Openings(events: seq<Entry>, n: nat): nat
    requires n <= |events|
  {
    if n == 0 then 0 else Openings(events, n - 1) + if events[n - 1].event == Prepared then 1 else 0
  }

  /** As many attempts as PREPARED entries. */
  lemma {:induction false} OneSummaryEach(env: Env, events: seq<Entry>, states: seq<RunState>, n: nat)
    requires IsRun(env, events, states) && n <= |events|
    ensures |states[n].machine.FullHistory()| == Openings(events, n)
  {
    hide Feed;
    if n > 0 {
      OneSummaryEach(env, events, states, n - 1);
      HistoryStep(env, events, states, n - 1);
      if states[n - 1].machine.bound.None? { BoundHistory(env, events, states, n - 1); }
      StepFacts(env, events, states, n - 1);
    }
  }

  // ---- why a file is refused ----------------------------------------------------------------------

  /** The code of a refusal: a limit if the line that has to be loaded is beyond one. */
  function RefusalAt(env: Env, rest: seq<bytes>): Code
    requires rest != []
  {
    if env.lex(rest[0]) == TooLarge || (env.lex(rest[0]) == Malformed && |rest| > 1 && env.lex(rest[1]) == TooLarge)
    then LimitReached else LogCorrupt
  }

  lemma RefusedNext(env: Env, rs: RunState, lines: seq<bytes>)
    requires lines != [] && Next(env, rs, lines).Refuse?
    ensures Next(env, rs, lines).code == RefusalAt(env, lines)
  {
    hide Take;
  }

  /** What is refused is refused behind the last lines that can be read, with the code of what follows. */
  lemma {:induction false} RefusedBehind(env: Env, rs: RunState, lines: seq<bytes>) returns (k: nat)
    requires Run(env, rs, lines).Err?
    ensures k < |lines| && Run(env, rs, lines[..k]).Ok? && Run(env, rs, lines).error == RefusalAt(env, lines[k..])
    ensures Next(env, Run(env, rs, lines[..k]).value, lines[k..]).Refuse?
    decreases |lines|
  {
    hide Next;
    var r := Next(env, rs, lines);
    if r.Refuse? {
      RefusedNext(env, rs, lines);
      k := 0;
      assert lines[..0] == [] && lines[0..] == lines;
    } else {
      var w := r.width;
      k := RefusedBehind(env, r.state, lines[w..]);
      assert lines[..k + w] == lines[..w] + lines[w..][..k] && lines[w..][k..] == lines[k + w..];
      WholeEntry(env, rs, lines, w);
      RunConcat(env, rs, lines[..w], lines[w..][..k]);
      k := k + w;
    }
  }

  /** The first entry of the lines is read from its own lines alone. */
  lemma WholeEntry(env: Env, rs: RunState, lines: seq<bytes>, w: nat)
    requires lines != [] && Next(env, rs, lines).Read? && w == Next(env, rs, lines).width
    ensures Run(env, rs, lines[..w]) == Ok(Next(env, rs, lines).state)
  {
    hide Take;
    assert lines[..w][0] == lines[0] && lines[..w][w..] == [];
    if w > 1 { assert lines[..w][1] == lines[1]; }
  }

  /** Every corrupt file: beyond the limits of a log, or refused behind its last readable line. */
  lemma CorruptSays(env: Env, raw: bytes) returns (k: nat)
    requires Project(env, raw).status == StatusCorrupt
    ensures var p, lines := Project(env, raw), CompleteLines(raw);
            if |raw| > MAX_LOG || !WithinLimits(raw) then p.code == LogFull
            else k < |lines| && Run(env, START, lines[..k]).Ok? && p.code == RefusalAt(env, lines[k..])
                 && Next(env, Run(env, START, lines[..k]).value, lines[k..]).Refuse?
    ensures Project(env, raw) == Corrupt(if |raw| > 16777216 then 0 else |PhysicalLines(raw)|, Project(env, raw).code)
  {
    hide CompleteLines, WithinLimits, PhysicalLines, Run, Next, RefusalAt;
    k := 0;
    if |raw| <= MAX_LOG && WithinLimits(raw) { k := RefusedBehind(env, START, CompleteLines(raw)); }
  }
}
