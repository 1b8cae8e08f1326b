/**
 * Runs: an accepted log is a sequence of entries together with the states between them. The
 * entries on the lines do not depend on the machine, so a property of every accepted log is an
 * induction over the index of a state.
 */
module OplogRuns {
  import opened Prelude
  import opened Oplog

  /** Physical lines of an entry: an acknowledgement comes with its torn fragment. */
  function Width(e: Entry): nat { if e.event == TornTailAcknowledged then 2 else 1 }

  /** One more entry at the end of a log. */
  function Feed(env: Env, rs: RunState, e: Entry): Option<RunState> {
    if ValidEntry(env, e) then Take(env, rs, e, Width(e), e.event == TornTailAcknowledged) else None
  }

  /** Each entry takes the reader from one state to the next. */
  ghost predicate IsPath(env: Env, events: seq<Entry>, states: seq<RunState>) {
    && |states| == |events| + 1
    && forall i {:trigger events[i]} | 0 <= i < |events| :: Feed(env, states[i], events[i]) == Some(states[i + 1])
  }

  /** A path from the start of a log: the entries were accepted, `states[n]` follows the first `n`. */
  ghost predicate IsRun(env: Env, events: seq<Entry>, states: seq<RunState>) {
    IsPath(env, events, states) && states[0] == START
  }

  /** The entries on complete lines, None when a line is neither an entry nor an acknowledged fragment. */
  function Events(env: Env, lines: seq<bytes>): Option<seq<Entry>>
    decreases |lines|
  {
    if lines == [] then Some([])
    else
      match env.lex(lines[0])
      case Value(e) =>
        if !ValidEntry(env, e) || e.event == TornTailAcknowledged then None else Prepend(e, Events(env, lines[1..]))
      case Malformed =>
        if |lines| == 1 || !env.lex(lines[1]).Value? || !Acknowledges(env, env.lex(lines[1]).entry, lines[0]) then None
        else Prepend(env.lex(lines[1]).entry, Events(env, lines[2..]))
      case _ => None
  }

  function Prepend(e: Entry, rest: Option<seq<Entry>>): Option<seq<Entry>> {
    if rest.Some? then Some([e] + rest.value) else None
  }

  lemma PathCons(env: Env, rs: RunState, e: Entry, events: seq<Entry>, states: seq<RunState>)
    requires IsPath(env, events, states) && Feed(env, rs, e) == Some(states[0])
    ensures IsPath(env, [e] + events, [rs] + states)
  {
    var es, ss := [e] + events, [rs] + states;
    forall i | 0 <= i < |es| ensures Feed(env, ss[i], es[i]) == Some(ss[i + 1]) {
      if i > 0 { assert es[i] == events[i - 1]; }
    }
  }

  lemma PathTail(env: Env, events: seq<Entry>, states: seq<RunState>)
    requires IsPath(env, events, states) && events != []
    ensures IsPath(env, events[1..], states[1..])
    ensures Feed(env, states[0], events[0]) == Some(states[1])
  {
    forall i | 0 <= i < |events[1..]| ensures Feed(env, states[1..][i], events[1..][i]) == Some(states[1..][i + 1]) {
      assert events[1..][i] == events[i + 1];
    }
  }

  lemma RunPrefix(env: Env, events: seq<Entry>, states: seq<RunState>, n: nat)
    requires IsRun(env, events, states) && n <= |events|
    ensures IsRun(env, events[..n], states[..n + 1])
  {
    forall i | 0 <= i < n ensures Feed(env, states[..n + 1][i], events[..n][i]) == Some(states[..n + 1][i + 1]) {
      assert events[..n][i] == events[i];
    }
  }

  /** The first entry of `lines`, when the lines carry entries or the reader takes one. */
  lemma NextFeeds(env: Env, rs: RunState, lines: seq<bytes>) returns (e: Entry)
    requires lines != [] && (Events(env, lines).Some? || Next(env, rs, lines).Read?)
    ensures Width(e) <= |lines| && Events(env, lines) == Prepend(e, Events(env, lines[Width(e)..]))
    ensures var r := Next(env, rs, lines);
            if r.Read? then Feed(env, rs, e) == Some(r.state) && r.width == Width(e) else Feed(env, rs, e) == None
  {
    if env.lex(lines[0]).Value? {
      e := env.lex(lines[0]).entry;
    } else {
      e := env.lex(lines[1]).entry;
    }
  }

  /** What the reader accepts, the entries on its lines explain. */
  lemma {:induction false} ReaderRuns(env: Env, rs: RunState, lines: seq<bytes>)
    returns (events: seq<Entry>, states: seq<RunState>)
    requires Run(env, rs, lines).Ok?
    ensures Events(env, lines) == Some(events)
    ensures IsPath(env, events, states) && states[0] == rs && Run(env, rs, lines) == Ok(states[|events|])
    decreases |lines|
  {
    if lines == [] {
      events, states := [], [rs];
    } else {
      hide Feed, Next;
      var e := NextFeeds(env, rs, lines);
      var more, next := ReaderRuns(env, Next(env, rs, lines).state, lines[Width(e)..]);
      PathCons(env, rs, e, more, next);
      events, states := [e] + more, [rs] + next;
    }
  }

  /** Entries on lines that the runs accept, the reader accepts, and ends in the same state. */
  lemma {:induction false} RunsAreRead(env: Env, lines: seq<bytes>, events: seq<Entry>, states: seq<RunState>)
    requires Events(env, lines) == Some(events) && IsPath(env, events, states)
    ensures Run(env, states[0], lines) == Ok(states[|events|])
    decreases |lines|
  {
    if lines != [] {
      hide Feed, Next;
      var e := NextFeeds(env, states[0], lines);
      PathTail(env, events, states);
      assert events[1..] == Events(env, lines[Width(e)..]).value && events[0] == e;
      RunsAreRead(env, lines[Width(e)..], events[1..], states[1..]);
    }
  }

  /** The run of an accepted file. */
  lemma AcceptedRun(env: Env, raw: bytes) returns (events: seq<Entry>, states: seq<RunState>)
    requires Project(env, raw).status != StatusCorrupt
    ensures Events(env, CompleteLines(raw)) == Some(events)
    ensures IsRun(env, events, states)
    ensures Project(env, raw) == Shown(states[|events|].machine, |PhysicalLines(raw)|, IsTorn(raw))
  {
    events, states := ReaderRuns(env, START, CompleteLines(raw));
  }
}
