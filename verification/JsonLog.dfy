/** The strict loader as the lexical reader of operation logs. */
module JsonLog {
  import opened Prelude
  import opened Lines
  import J = Json
  import Formats
  import JsonShortest
  import opened Oplog
  import opened OplogRuns
  import opened OplogFiles
  import opened Rescan

  /** Load a line and look for the shape of an entry; a limit and a corrupt line are told apart. */
  function Lex(shape: J.Json -> Option<Entry>, raw: bytes): Lexed {
    match Formats.Loads(raw)
    case Ok(v) => (match shape(v) case Some(e) => Value(e) case None => NotEntry)
    case Err(Limit) => TooLarge
    case Err(Corrupt) => Malformed
  }

  function JsonEnv(shape: J.Json -> Option<Entry>, sha: bytes -> Hash, encode: Operation -> bytes): Env {
    Env(raw => Lex(shape, raw), sha, encode)
  }

  /** The empty part after the last newline is no entry, so re-scans of JSON logs skip it. */
  lemma EmptyLineIsMalformed(shape: J.Json -> Option<Entry>)
    ensures Lex(shape, []) == Malformed
  {
  }

  /**
   * An entry on a line of a JSON log has one spelling: the bytes of the line are the canonical
   * encoding of a normal value of that shape.
   */
  lemma EntriesAreCanonical(shape: J.Json -> Option<Entry>, raw: bytes, e: Entry) returns (v: J.Json)
    requires Lex(shape, raw) == Value(e)
    ensures shape(v) == Some(e) && Formats.Normal(v) && Formats.Canonical(v) == Some(raw)
    ensures |raw| + 1 <= MAX_LINE
  {
    v := Formats.Loads(raw).value;
    Formats.LoadsExactly(raw, v);
  }

  /** For JSON logs the re-scan needs no assumption on the reader. */
  lemma JsonLogsAreRescanned(shape: J.Json -> Option<Entry>, sha: bytes -> Hash, encode: Operation -> bytes,
                             raw: bytes, i: nat)
    returns (before: seq<Entry>, own: seq<Entry>)
    requires var env := JsonEnv(shape, sha, encode);
             Project(env, raw).status.Observed? && i < |Project(env, raw).history|
    ensures var env := JsonEnv(shape, sha, encode);
            var s := Project(env, raw).history[i];
            && 1 <= s.startLine <= s.endLine < |Split(raw, NEWLINE)|
            && Events(env, Split(raw, NEWLINE)[s.startLine - 1..s.endLine]) == Some(own)
            && Rescanned(env, Split(Join(Split(raw, NEWLINE)[..s.endLine], NEWLINE) + [NEWLINE], NEWLINE),
                         s.operationSha)
               == before + own
    ensures own != [] && own[0].event == Prepared
    ensures OnlyAcknowledgements(before) <==> OwnDigest(Project(JsonEnv(shape, sha, encode), raw).history, i)
  {
    hide Project, Events, Rescanned, Lex, OnlyAcknowledgements, OwnDigest;
    EmptyLineIsMalformed(shape);
    before, own := AttemptsAreRescanned(JsonEnv(shape, sha, encode), raw, i);
  }

  /** Appending the canonical encoding of a value and a newline to a complete file adds exactly one line. */
  lemma AppendIsOneLine(file: bytes, v: J.Json)
    requires !IsTorn(file) && Formats.Canonical(v).Some?
    ensures var raw := Formats.Canonical(v).value;
            && CompleteLines(file + raw + [NEWLINE]) == CompleteLines(file) + [raw]
            && !IsTorn(file + raw + [NEWLINE])
  {
    hide CompleteLines, IsTorn, Unlines, Formats.Canonical;
    var raw := Formats.Canonical(v).value;
    JsonShortest.CanonicalIsOneLine(v);
    AppendLines(file, [raw]);
    UnlinesOne(raw, NEWLINE);
    assert file + raw + [NEWLINE] == file + (raw + [NEWLINE]);
  }
}
