/**
 * Independent re-scans of a log: later stages read the bytes again, keep the lines that lex and
 * carry one operation's digest, and fold those. Here the entries they see are shown to be exactly
 * the ones the machine applied in that attempt, up to acknowledged fragments before the first
 * operation of the file.
 */
module Rescan {
  import opened Prelude
  import opened Lines
  import opened Oplog
  import opened OplogRuns
  import opened OplogSafety
  import opened OplogAttempts

  /** The lines that lex to an entry of the operation; a line that does not lex is skipped. */
  function Rescanned(env: Env, lines: seq<bytes>, sha: Hash): seq<Entry> {
    if lines == [] then []
    else
      var rest := Rescanned(env, lines[1..], sha);
      match env.lex(lines[0])
      case Value(e) => if e.operationSha == sha then [e] + rest else rest
      case _ => rest
  }

  /** No line holds JSON that is no entry: the pass can neither fail on one nor take one for an entry. */
  predicate OnlyEntries(env: Env, lines: seq<bytes>) { forall i | 0 <= i < |lines| :: env.lex(lines[i]) != NotEntry }

  /** `_events`: one pass over the lines, the empty part after the last newline included. */
  method EventsOf(env: Env, raw: bytes, sha: Hash) returns (events: seq<Entry>, exact: bool)
    ensures events == Rescanned(env, Split(raw, NEWLINE), sha)
    ensures exact <==> OnlyEntries(env, Split(raw, NEWLINE))
  {
    var lines := Split(raw, NEWLINE);
    events, exact := [], true;
    for i := 0 to |lines|
      invariant events + Rescanned(env, lines[i..], sha) == Rescanned(env, lines, sha)
      invariant exact <==> forall k | 0 <= k < i :: env.lex(lines[k]) != NotEntry
    {
      assert lines[i..][1..] == lines[i + 1..];
      match env.lex(lines[i]) {
        case Value(e) => if e.operationSha == sha { events := events + [e]; }
        case NotEntry => exact := false;
        case _ =>
      }
    }
  }

  lemma {:induction false} EventLines(env: Env, lines: seq<bytes>)
    requires Events(env, lines).Some?
    ensures OnlyEntries(env, lines)
    decreases |lines|
  {
    if lines != [] {
      var width := if env.lex(lines[0]).Value? then 1 else 2;
      EventLines(env, lines[width..]);
      forall i | 0 <= i < |lines| ensures env.lex(lines[i]) != NotEntry {
        if i >= width { assert lines[i] == lines[width..][i - width]; }
      }
    }
  }

  /** On an accepted complete file the pass is exact. */
  lemma AcceptedFilesAreExact(env: Env, raw: bytes)
    requires Project(env, raw).status.Observed? && env.lex([]) != NotEntry
    ensures OnlyEntries(env, Split(raw, NEWLINE))
  {
    hide Split, Run, Feed, Events;
    var events, states := AcceptedRun(env, raw);
    EventLines(env, CompleteLines(raw));
    var parts := Split(raw, NEWLINE);
    forall i | 0 <= i < |parts| ensures env.lex(parts[i]) != NotEntry {
      if i < |parts| - 1 { assert parts[i] == CompleteLines(raw)[i]; }
    }
  }

  function Select(events: seq<Entry>, sha: Hash): seq<Entry> {
    if events == [] then []
    else (if events[0].operationSha == sha then [events[0]] else []) + Select(events[1..], sha)
  }

  lemma {:induction false} SelectConcat(a: seq<Entry>, b: seq<Entry>, sha: Hash)
    ensures Select(a + b, sha) == Select(a, sha) + Select(b, sha)
  {
    if a == [] {
      assert a + b == b;
    } else {
      SelectConcat(a[1..], b, sha);
      assert (a + b)[1..] == a[1..] + b;
      var first := if a[0].operationSha == sha then [a[0]] else [];
      Associate(first, Select(a[1..], sha), Select(b, sha));
    }
  }

  lemma {:induction false} SelectAll(events: seq<Entry>, sha: Hash)
    requires forall i | 0 <= i < |events| :: events[i].operationSha == sha
    ensures Select(events, sha) == events
  {
    if events != [] {
      SelectAll(events[1..], sha);
    }
  }

  /** Selected entries that can only be acknowledgements. */
  lemma {:induction false} SelectAcks(events: seq<Entry>, sha: Hash)
    requires forall i | 0 <= i < |events| :: events[i].operationSha == sha ==> events[i].event == TornTailAcknowledged
    ensures forall e | e in Select(events, sha) :: e.event == TornTailAcknowledged
  {
    if events != [] {
      SelectAcks(events[1..], sha);
    }
  }

  lemma {:induction false} SelectKeeps(events: seq<Entry>, sha: Hash, i: nat)
    requires i < |events| && events[i].operationSha == sha
    ensures events[i] in Select(events, sha)
  {
    if i > 0 { SelectKeeps(events[1..], sha, i - 1); }
  }

  /** On the lines of an accepted log the re-scan sees the entries, and the torn fragments not at all. */
  lemma {:induction false} RescanSelects(env: Env, lines: seq<bytes>, events: seq<Entry>, sha: Hash)
    requires Events(env, lines) == Some(events)
    ensures Rescanned(env, lines, sha) == Select(events, sha)
    decreases |lines|
  {
    if lines != [] {
      var e := FirstEntry(env, lines);
      var w := Width(e);
      RescanSelects(env, lines[w..], events[1..], sha);
      if w == 2 {
        assert lines[1..][1..] == lines[2..] && lines[1..][0] == lines[1];
      }
    }
  }

  lemma {:induction false} RescanIgnoresTail(env: Env, lines: seq<bytes>, tail: bytes, sha: Hash)
    requires !env.lex(tail).Value?
    ensures Rescanned(env, lines + [tail], sha) == Rescanned(env, lines, sha)
  {
    if lines == [] {
    } else {
      assert (lines + [tail])[1..] == lines[1..] + [tail];
      RescanIgnoresTail(env, lines[1..], tail, sha);
    }
  }

  // ---- which digest an entry carries ------------------------------------------------------

  lemma FeedNames(env: Env, rs: RunState, e: Entry)
    requires Feed(env, rs, e).Some?
    ensures var n := Feed(env, rs, e).value.machine;
            if rs.machine.bound.Some? || e.event != TornTailAcknowledged then
              n.bound.Some? && n.bound.value.sha == e.operationSha
            else n.bound.None?
  {
    FeedHistory(env, rs, e);
  }

  lemma NamesStep(env: Env, events: seq<Entry>, states: seq<RunState>, i: nat)
    requires IsRun(env, events, states) && i < |events|
    ensures var n := states[i + 1].machine;
            if states[i].machine.bound.Some? || events[i].event != TornTailAcknowledged then
              n.bound.Some? && n.bound.value.sha == events[i].operationSha
            else n.bound.None?
  {
    assert Feed(env, states[i], events[i]) == Some(states[i + 1]);
    FeedNames(env, states[i], events[i]);
  }

  /** The summaries written so far keep their digests, and only a PREPARED adds one. */
  lemma {:induction false} HistoryGrows(env: Env, events: seq<Entry>, states: seq<RunState>, i: nat, n: nat)
    requires IsRun(env, events, states) && i <= n <= |events| && states[i].machine.bound.Some?
    ensures states[n].machine.bound.Some?
    ensures var h, g := states[i].machine.FullHistory(), states[n].machine.FullHistory();
            && |h| <= |g| && (|h| == |g| <==> AttemptStart(events, n) < i)
            && forall k | 0 <= k < |h| :: g[k].operationSha == h[k].operationSha
  {
    hide Feed;
    if i < n {
      HistoryGrows(env, events, states, i, n - 1);
      HistoryStep(env, events, states, n - 1);
    }
  }

  /** No earlier attempt of the log has the digest of attempt `i`. */
  predicate OwnDigest(h: seq<AttemptSummary>, i: nat)
    requires i < |h|
  {
    forall k | 0 <= k < i :: h[k].operationSha != h[i].operationSha
  }

  predicate LastHasOwnDigest(h: seq<AttemptSummary>) { h != [] ==> OwnDigest(h, |h| - 1) }

  /**
   * Every entry of the attempt in hand carries its digest; an earlier one only if it is an
   * acknowledgement or an earlier attempt has that digest.
   */
  lemma DigestTellsAttempts(env: Env, events: seq<Entry>, states: seq<RunState>, n: nat, i: nat)
    requires IsRun(env, events, states) && i < n <= |events| && states[n].machine.bound.Some?
    ensures var m := states[n].machine;
            if i >= AttemptStart(events, n) then events[i].operationSha == m.bound.value.sha
            else events[i].operationSha == m.bound.value.sha && events[i].event != TornTailAcknowledged ==>
                   !LastHasOwnDigest(m.FullHistory())
  {
    hide Feed, LastHasOwnDigest, State.FullHistory;
    NamesStep(env, events, states, i);
    if i >= AttemptStart(events, n) {
      PreparedDigest(env, events, states, n);
      var a := AttemptStart(events, n);
      HistoryGrows(env, events, states, a + 1, i + 1);
      SameBound(env, events, states, i + 1, n);
    } else if states[i + 1].machine.bound.Some? {
      EarlierDigest(env, events, states, i + 1, n);
    }
  }

  /** The PREPARED of the attempt in hand carries its digest. */
  lemma PreparedDigest(env: Env, events: seq<Entry>, states: seq<RunState>, n: nat)
    requires IsRun(env, events, states) && n <= |events| && states[n].machine.bound.Some?
    ensures var a := AttemptStart(events, n);
            && a >= 0 && states[a + 1].machine.bound.Some?
            && events[a].operationSha == states[n].machine.bound.value.sha
  {
    hide Feed;
    StartLine(env, events, states, n);
    var a := AttemptStart(events, n);
    NamesStep(env, events, states, a);
    SameBound(env, events, states, a + 1, n);
  }

  /** A digest that was bound before the attempt in hand is the digest of an earlier attempt. */
  lemma EarlierDigest(env: Env, events: seq<Entry>, states: seq<RunState>, i: nat, n: nat)
    requires IsRun(env, events, states) && i <= n <= |events|
    requires states[i].machine.bound.Some? && i <= AttemptStart(events, n)
    ensures states[n].machine.bound.Some?
    ensures states[i].machine.bound.value.sha == states[n].machine.bound.value.sha ==>
              !LastHasOwnDigest(states[n].machine.FullHistory())
  {
    hide Feed;
    HistoryGrows(env, events, states, i, n);
    var h, g := states[i].machine.FullHistory(), states[n].machine.FullHistory();
    assert g[|h| - 1].operationSha == h[|h| - 1].operationSha;
  }

  lemma SameBound(env: Env, events: seq<Entry>, states: seq<RunState>, i: nat, n: nat)
    requires IsRun(env, events, states) && i <= n <= |events|
    requires states[i].machine.bound.Some? && AttemptStart(events, n) < i
    ensures states[n].machine.bound.Some? && states[n].machine.bound.value.sha == states[i].machine.bound.value.sha
  {
    hide Feed;
    HistoryGrows(env, events, states, i, n);
    var h, g := states[i].machine.FullHistory(), states[n].machine.FullHistory();
    assert g[|h| - 1].operationSha == h[|h| - 1].operationSha;
  }

  /** An earlier attempt with the digest of the attempt in hand: its PREPARED carries it too. */
  lemma SharedDigest(env: Env, events: seq<Entry>, states: seq<RunState>, n: nat) returns (i: nat)
    requires IsRun(env, events, states) && n <= |events| && states[n].machine.bound.Some?
    requires !LastHasOwnDigest(states[n].machine.FullHistory())
    ensures i < AttemptStart(events, n) && events[i].event == Prepared
    ensures events[i].operationSha == states[n].machine.bound.value.sha
  {
    hide Feed;
    var h := states[n].machine.FullHistory();
    var k :| 0 <= k < |h| - 1 && h[k].operationSha == h[|h| - 1].operationSha;
    var q := AttemptEnd(env, events, states, n, k);
    PreparedDigest(env, events, states, q);
    i := AttemptStart(events, q);
    HistoryGrows(env, events, states, q, n);
  }

  /** The entries of the attempt in hand after `n` entries. */
  function AttemptEvents(events: seq<Entry>, n: nat): seq<Entry>
    requires n <= |events|
  {
    if AttemptStart(events, n) < 0 then [] else events[AttemptStart(events, n)..n]
  }

  lemma SelectSplit(events: seq<Entry>, a: nat, sha: Hash)
    requires a <= |events| && forall i | a <= i < |events| :: events[i].operationSha == sha
    ensures Select(events, sha) == Select(events[..a], sha) + events[a..]
  {
    hide Select;
    assert events == events[..a] + events[a..];
    SelectConcat(events[..a], events[a..], sha);
    SelectAll(events[a..], sha);
  }

  /** Selecting by the digest of the attempt in hand gives its entries, and what comes before them. */
  lemma SelectAttempt(env: Env, events: seq<Entry>, states: seq<RunState>)
    returns (before: seq<Entry>)
    requires IsRun(env, events, states) && states[|events|].machine.bound.Some?
    ensures Select(events, states[|events|].machine.bound.value.sha) == before + AttemptEvents(events, |events|)
    ensures OnlyAcknowledgements(before) <==> LastHasOwnDigest(states[|events|].machine.FullHistory())
  {
    hide Feed, Select, IsPath, LastHasOwnDigest, State.FullHistory;
    PathOfRun(env, events, states);
    var m := states[|events|].machine;
    var sha := m.bound.value.sha;
    StartLine(env, events, states, |events|);
    var a := AttemptStart(events, |events|);
    forall i | 0 <= i < |events|
      ensures if i >= a then events[i].operationSha == sha
              else events[i].operationSha == sha && events[i].event != TornTailAcknowledged ==>
                     !LastHasOwnDigest(m.FullHistory())
    {
      DigestTellsAttempts(env, events, states, |events|, i);
    }
    SelectSplit(events, a, sha);
    before := Select(events[..a], sha);
    if LastHasOwnDigest(m.FullHistory()) {
      SelectAcks(events[..a], sha);
    } else {
      var i := SharedDigest(env, events, states, |events|);
      SelectKeeps(events[..a], sha, i);
    }
  }

  predicate OnlyAcknowledgements(events: seq<Entry>) { forall e | e in events :: e.event == TornTailAcknowledged }

  /**
   * Selecting the entries of an accepted file by the digest of its last operation gives the entries
   * of its last attempt, after nothing but acknowledgements exactly if no earlier attempt of the file
   * has that digest.
   */
  lemma RescanSeesTheAttempt(env: Env, raw: bytes)
    returns (events: seq<Entry>, states: seq<RunState>, before: seq<Entry>)
    requires !env.lex([]).Value?
    requires Project(env, raw).status.Observed? && Project(env, raw).operationSha.Some?
    ensures Events(env, CompleteLines(raw)) == Some(events) && IsRun(env, events, states)
    ensures Project(env, raw) == Shown(states[|events|].machine, |PhysicalLines(raw)|, false)
    ensures Rescanned(env, Split(raw, NEWLINE), Project(env, raw).operationSha.value)
            == before + AttemptEvents(events, |events|)
    ensures OnlyAcknowledgements(before) <==> LastHasOwnDigest(Project(env, raw).history)
  {
    hide Feed, Project, Run, Events, Rescanned, IsRun, Select, AttemptEvents, CompleteLines, OnlyAcknowledgements;
    hide LastHasOwnDigest;
    events, states := AcceptedRun(env, raw);
    PathOfRun(env, events, states);
    before := SelectAttempt(env, events, states);
    var sha := Project(env, raw).operationSha.value;
    RescanOfFile(env, raw, sha);
    RescanSelects(env, CompleteLines(raw), events, sha);
  }

  lemma RescanOfFile(env: Env, raw: bytes, sha: Hash)
    requires !env.lex([]).Value? && !IsTorn(raw)
    ensures Rescanned(env, Split(raw, NEWLINE), sha) == Rescanned(env, CompleteLines(raw), sha)
  {
    hide Rescanned;
    var parts := Split(raw, NEWLINE);
    assert parts == CompleteLines(raw) + [parts[|parts| - 1]];
    RescanIgnoresTail(env, CompleteLines(raw), parts[|parts| - 1], sha);
  }

  lemma LinesOfEvents(env: Env, lines: seq<bytes>, events: seq<Entry>)
    requires Events(env, lines) == Some(events) && events != []
    ensures lines != []
  {
  }

  /** The lines between two states carry the entries between them. */
  lemma {:induction false} EventsOnSuffix(env: Env, lines: seq<bytes>, events: seq<Entry>, states: seq<RunState>,
                                          n: nat)
    requires Events(env, lines) == Some(events) && IsPath(env, events, states) && n <= |events|
    ensures states[0].position <= states[n].position <= states[0].position + |lines|
    ensures Events(env, lines[states[n].position - states[0].position..]) == Some(events[n..])
    decreases |lines|
  {
    hide Feed, Next, Events;
    if events != [] { LinesOfEvents(env, lines, events); }
    if n == 0 {
      assert lines[0..] == lines && events[0..] == events;
    } else {
      var e := FirstEntry(env, lines);
      var w := Width(e);
      PathTail(env, events, states);
      FirstPosition(env, states[0], events[0], states[1]);
      EventsOnSuffix(env, lines[w..], events[1..], states[1..], n - 1);
      var k := states[n].position - states[0].position;
      assert lines[w..][k - w..] == lines[k..];
      assert events[1..][n - 1..] == events[n..];
    }
  }

  /** The lines from the start of the last attempt on carry its entries. */
  lemma OwnLines(env: Env, lines: seq<bytes>, events: seq<Entry>, states: seq<RunState>)
    requires Events(env, lines) == Some(events) && IsRun(env, events, states)
    requires states[|events|].machine.bound.Some?
    ensures 1 <= states[|events|].machine.start <= |lines| && AttemptEvents(events, |events|) != []
    ensures AttemptEvents(events, |events|)[0].event == Prepared
    ensures Events(env, lines[states[|events|].machine.start - 1..]) == Some(AttemptEvents(events, |events|))
  {
    hide Feed, Events, IsPath;
    var n := |events|;
    PathOfRun(env, events, states);
    StartLine(env, events, states, n);
    var a := AttemptStart(events, n);
    EventsOnSuffix(env, lines, events, states, a);
    EventsOnSuffix(env, lines, events, states, a + 1);
    assert AttemptEvents(events, n) == events[a..];
  }

  /** The last attempt of an accepted file: the re-scan gives the entries on its own lines. */
  lemma LastAttemptIsRescanned(env: Env, raw: bytes) returns (before: seq<Entry>, own: seq<Entry>)
    requires !env.lex([]).Value?
    requires Project(env, raw).status.Observed? && Project(env, raw).operationSha.Some?
    ensures var h := Project(env, raw).history;
            && h != [] && 1 <= h[|h| - 1].startLine <= |CompleteLines(raw)|
            && Events(env, CompleteLines(raw)[h[|h| - 1].startLine - 1..]) == Some(own)
            && (OnlyAcknowledgements(before) <==> LastHasOwnDigest(h))
    ensures Rescanned(env, Split(raw, NEWLINE), Project(env, raw).operationSha.value) == before + own
    ensures own != [] && own[0].event == Prepared
  {
    hide Feed, Project, Run, ValidEntry, Events, Rescanned, AttemptEvents, AttemptStart, OnlyAcknowledgements;
    hide LastHasOwnDigest;
    var events, states, found := RescanSeesTheAttempt(env, raw);
    OwnLines(env, CompleteLines(raw), events, states);
    var h := Project(env, raw).history;
    assert h[|h| - 1] == states[|events|].machine.Summary();
    before, own := found, AttemptEvents(events, |events|);
  }

  /**
   * For every attempt of an accepted file: selecting by its digest in the file up to its end gives
   * the entries on its own lines, after nothing but acknowledgements exactly if no earlier attempt
   * has its digest.
   */
  lemma AttemptsAreRescanned(env: Env, raw: bytes, i: nat) returns (before: seq<Entry>, own: seq<Entry>)
    requires !env.lex([]).Value?
    requires Project(env, raw).status.Observed? && i < |Project(env, raw).history|
    ensures Reparsed(env, raw, i)
    ensures var s := Project(env, raw).history[i];
            && Events(env, Split(raw, NEWLINE)[s.startLine - 1..s.endLine]) == Some(own)
            && Rescanned(env, Split(PrefixTo(raw, s.endLine), NEWLINE), s.operationSha) == before + own
    ensures own != [] && own[0].event == Prepared
    ensures OnlyAcknowledgements(before) <==> OwnDigest(Project(env, raw).history, i)
  {
    hide Project, ValidEntry, Events, Rescanned, OnlyAcknowledgements, OwnDigest;
    PrefixReparse(env, raw, i);
    var s := Project(env, raw).history[i];
    var prefix := PrefixTo(raw, s.endLine);
    before, own := LastAttemptIsRescanned(env, prefix);
    PrefixLines(raw, s.endLine);
    var h := Project(env, prefix).history;
    assert h[|h| - 1] == s;
    PrefixOwnDigest(Project(env, raw).history, i);
    assert Split(raw, NEWLINE)[..s.endLine][s.startLine - 1..] == Split(raw, NEWLINE)[s.startLine - 1..s.endLine];
  }

  lemma PrefixOwnDigest(h: seq<AttemptSummary>, i: nat)
    requires i < |h|
    ensures LastHasOwnDigest(h[..i + 1]) <==> OwnDigest(h, i)
  {
    var g := h[..i + 1];
    assert forall k | 0 <= k <= i :: g[k] == h[k];
  }

  /**
   * Only a collision of the hash can spoil a re-scan: two attempts of one accepted file that share a
   * digest hold different operations on their first lines.
   */
  lemma SharedDigestIsCollision(env: Env, raw: bytes, k: nat, i: nat) returns (a: Operation, b: Operation)
    requires Project(env, raw).status.Observed? && k < i < |Project(env, raw).history|
    requires Project(env, raw).history[k].operationSha == Project(env, raw).history[i].operationSha
    ensures a != b && env.Digest(a) == env.Digest(b)
    ensures var h, lines := Project(env, raw).history, Split(raw, NEWLINE);
            && 1 <= h[k].startLine <= |lines| && 1 <= h[i].startLine <= |lines|
            && env.lex(lines[h[k].startLine - 1]).Value? && env.lex(lines[h[i].startLine - 1]).Value?
            && env.lex(lines[h[k].startLine - 1]).entry.data == OperationData(a)
            && env.lex(lines[h[i].startLine - 1]).entry.data == OperationData(b)
  {
    hide Project, Split, PrefixTo;
    PrefixReparse(env, raw, k);
    PrefixReparse(env, raw, i);
    HistoryIncreases(env, raw, k, i);
    var h, lines := Project(env, raw).history, Split(raw, NEWLINE);
    a := env.lex(lines[h[k].startLine - 1]).entry.data.operation;
    b := env.lex(lines[h[i].startLine - 1]).entry.data.operation;
  }
}
