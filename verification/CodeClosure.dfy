/**
 * The digest of a code closure: the byte string that is hashed, path by path, and why it determines
 * the list of files it was built from.
 */
module CodeClosure {
  import opened Prelude
  import opened Lines
  import opened Utf8
  import opened Sorting

  const MAX_FILES := 4096
  const MAX_FILE := 16 * 1024 * 1024
  const MAX_TOTAL := 32 * 1024 * 1024

  const SLASH: Char := 0x2F
  const BACKSLASH: Char := 0x5C
  const NUL: Char := 0

  type Digest = b: bytes | |b| == 32 witness seq(32, _ => 0)

  datatype File = File(path: Text, raw: bytes)

  datatype Error = SourceLimit | PathForbidden | Irregular | Unavailable | NotEncodable

  /** The forbidden names: tokens anywhere, whole names, prefixes and endings, all in lower case. */
  datatype Names = Names(lower: Text -> Text, prefix: Text, tokens: seq<Text>, whole: seq<Text>, endings: seq<Text>)

  predicate Contains(t: Text, token: Text) {
    exists i :: 0 <= i <= |t| - |token| && TokenAt(t, token, i)
  }

  predicate TokenAt(t: Text, token: Text, i: nat) { i + |token| <= |t| && t[i..i + |token|] == token }

  predicate SafeName(names: Names, name: Text) {
    var lower := names.lower(name);
    && name != [] && name != [0x2E] && name != [0x2E, 0x2E]
    && NUL !in name
    && !TokenAt(lower, names.prefix, 0)
    && (forall i | 0 <= i < |names.tokens| :: !Contains(lower, names.tokens[i]))
    && lower !in names.whole
    && (forall i | 0 <= i < |names.endings| ::
          !(|lower| >= |names.endings[i]| && TokenAt(lower, names.endings[i], |lower| - |names.endings[i]|)))
  }

  /** `safe_path`: relative, without backslashes, every component harmless. */
  predicate SafePath(names: Names, path: Text) {
    && path != [] && path[0] != SLASH && BACKSLASH !in path
    && forall i | 0 <= i < |Split(path, SLASH)| :: SafeName(names, Split(path, SLASH)[i])
  }

  // ---- what a safe path is ------------------------------------------------------------------------

  /** `token` occurs in `t`. */
  ghost predicate Holds(t: Text, token: Text) { exists a, b :: t == a + token + b }

  ghost predicate StartsWith(t: Text, token: Text) { exists b :: t == token + b }

  ghost predicate EndsWith(t: Text, token: Text) { exists a :: t == a + token }

  lemma ContainsIsHolds(t: Text, token: Text)
    ensures Contains(t, token) <==> Holds(t, token)
  {
    if i :| 0 <= i <= |t| - |token| && TokenAt(t, token, i) {
      assert t == t[..i] + token + t[i + |token|..];
    }
    if a, b :| t == a + token + b {
      assert t[|a|..|a| + |token|] == token;
      assert TokenAt(t, token, |a|);
    }
  }

  lemma TokenAtEnds(t: Text, token: Text)
    ensures TokenAt(t, token, 0) <==> StartsWith(t, token)
    ensures |t| >= |token| && TokenAt(t, token, |t| - |token|) <==> EndsWith(t, token)
  {
    if TokenAt(t, token, 0) { assert t == token + t[|token|..]; }
    if |t| >= |token| && TokenAt(t, token, |t| - |token|) { assert t == t[..|t| - |token|] + token; }
  }

  /** A name is safe exactly if it is no dot name, holds no NUL, and its lower case avoids what is forbidden. */
  lemma SafeNameMeans(names: Names, name: Text)
    ensures SafeName(names, name)
            <==> (&& name !in {[], [0x2E], [0x2E, 0x2E]} && 0 !in name
                  && !StartsWith(names.lower(name), names.prefix)
                  && (forall token | token in names.tokens :: !Holds(names.lower(name), token))
                  && (forall whole | whole in names.whole :: names.lower(name) != whole)
                  && (forall ending | ending in names.endings :: !EndsWith(names.lower(name), ending)))
  {
    hide TokenAt, Contains, Holds, StartsWith, EndsWith;
    var lower := names.lower(name);
    TokenAtEnds(lower, names.prefix);
    forall i | 0 <= i < |names.tokens| ensures Contains(lower, names.tokens[i]) <==> Holds(lower, names.tokens[i]) {
      ContainsIsHolds(lower, names.tokens[i]);
    }
    forall i | 0 <= i < |names.endings|
      ensures |lower| >= |names.endings[i]| && TokenAt(lower, names.endings[i], |lower| - |names.endings[i]|)
              <==> EndsWith(lower, names.endings[i])
    {
      TokenAtEnds(lower, names.endings[i]);
    }
  }

  /** Where a sequence of components leads: empty and single-dot ones stay, double dots go up. */
  function Resolve(parts: seq<Text>): Option<seq<Text>> {
    if parts == [] then Some([])
    else
      match Resolve(parts[..|parts| - 1])
      case None => None
      case Some(at) =>
        var last := parts[|parts| - 1];
        if last == [] || last == [0x2E] then Some(at)
        else if last == [0x2E, 0x2E] then (if at == [] then None else Some(at[..|at| - 1]))
        else Some(at + [last])
  }

  lemma {:induction false} PlainResolves(parts: seq<Text>)
    requires forall i | 0 <= i < |parts| :: parts[i] !in {[], [0x2E], [0x2E, 0x2E]}
    ensures Resolve(parts) == Some(parts)
  {
    if parts != [] {
      var n := |parts| - 1;
      PlainResolves(parts[..n]);
      assert parts == parts[..n] + [parts[n]];
    }
  }

  /** A path is safe exactly if it is safe names joined by slashes, and has no backslash. */
  lemma SafePathMeans(names: Names, path: Text)
    ensures SafePath(names, path)
            <==> 0x5C !in path
                 && exists parts: seq<Text> ::
                      && parts != [] && Join(parts, 0x2F) == path
                      && forall i | 0 <= i < |parts| :: SafeName(names, parts[i]) && 0x2F !in parts[i]
  {
    hide SafeName, Join, Split;
    JoinSplit(path, 0x2F);
    if SafePath(names, path) {
      assert forall i | 0 <= i < |Split(path, 0x2F)| :: 0x2F !in Split(path, 0x2F)[i];
    } else if parts: seq<Text> :|
        && parts != [] && Join(parts, 0x2F) == path
        && forall i | 0 <= i < |parts| :: SafeName(names, parts[i]) && 0x2F !in parts[i] {
      SplitJoin(parts, 0x2F);
      NameIsNotEmpty(names, parts[0]);
      JoinStarts(parts, 0x2F);
    }
  }

  lemma NameIsNotEmpty(names: Names, name: Text)
    requires SafeName(names, name)
    ensures name != []
  {
  }

  lemma JoinStarts(parts: seq<Text>, separator: Char)
    requires parts != [] && parts[0] != []
    ensures parts[0] <= Join(parts, separator)
  {
  }

  /** A safe path never leaves the directory it starts in, and is its own normal form. */
  lemma SafePathStaysInside(names: Names, path: Text)
    requires SafePath(names, path)
    ensures Resolve(Split(path, SLASH)) == Some(Split(path, SLASH)) && Join(Split(path, SLASH), SLASH) == path
    ensures path[0] != SLASH && 0x5C !in path
  {
    PlainResolves(Split(path, SLASH));
    JoinSplit(path, SLASH);
  }

  /** Strictly increasing, so also without repetition. */
  predicate PathsSorted(files: seq<File>) {
    forall i, j | 0 <= i < j < |files| :: Before(files[i].path, files[j].path)
  }

  /** Path, NUL, digest of the content. */
  function Row(sha: bytes -> Digest, file: File): Option<bytes> {
    match Encode(file.path)
    case None => None
    case Some(path) => Some(path + [0] + sha(file.raw))
  }

  /** The bytes that are hashed. */
  function Encoding(sha: bytes -> Digest, files: seq<File>): Option<bytes> {
    if files == [] then Some([])
    else
      match (Encoding(sha, files[..|files| - 1]), Row(sha, files[|files| - 1]))
      case (Some(rest), Some(row)) => Some(rest + row)
      case _ => None
  }

  function Total(files: seq<File>): nat {
    if files == [] then 0 else Total(files[..|files| - 1]) + |files[|files| - 1].raw|
  }

  predicate Allowed(names: Names, files: seq<File>) {
    && 0 < |files| <= MAX_FILES
    && (forall i | 0 <= i < |files| :: SafePath(names, files[i].path) && |files[i].raw| <= MAX_FILE)
    && PathsSorted(files)
    && Total(files) <= MAX_TOTAL
  }

  lemma {:induction false} TotalGrows(files: seq<File>, n: nat)
    requires n <= |files|
    ensures Total(files[..n]) <= Total(files)
  {
    if n < |files| {
      TotalGrows(files[..|files| - 1], n);
      assert files[..|files| - 1][..n] == files[..n];
    } else {
      assert files[..n] == files;
    }
  }

  lemma {:induction false} EncodingGrows(sha: bytes -> Digest, files: seq<File>, n: nat)
    requires n <= |files| && Encoding(sha, files).Some?
    ensures Encoding(sha, files[..n]).Some?
  {
    if n < |files| {
      EncodingGrows(sha, files[..|files| - 1], n);
      assert files[..|files| - 1][..n] == files[..n];
    } else {
      assert files[..n] == files;
    }
  }

  lemma NoRows(sha: bytes -> Digest, files: seq<File>)
    ensures files[..0] == [] && Encoding(sha, files[..0]) == Some([])
  {
  }

  lemma OneMoreRow(sha: bytes -> Digest, files: seq<File>, n: nat)
    requires n < |files| && Encoding(sha, files[..n]).Some?
    ensures Total(files[..n + 1]) == Total(files[..n]) + |files[n].raw|
    ensures Encoding(sha, files[..n + 1])
            == if Row(sha, files[n]).Some? then Some(Encoding(sha, files[..n]).value + Row(sha, files[n]).value)
               else None
  {
    assert files[..n + 1][..n] == files[..n];
  }

  lemma RowNeedsPath(sha: bytes -> Digest, file: File)
    ensures Row(sha, file) == None <==> Encode(file.path) == None
  {
  }

  /** What comes before the files are read: their number, then their paths. */
  predicate Readable(names: Names, files: seq<File>) {
    0 < |files| <= 4096 && (forall i | 0 <= i < |files| :: SafePath(names, files[i].path)) && PathsSorted(files)
  }

  /** File `n` is beyond a limit: 16 MiB alone, 32 MiB with the files before it. */
  predicate TooLargeAt(files: seq<File>, n: nat)
    requires n < |files|
  {
    |files[n].raw| > 16777216 || Total(files[..n + 1]) > 33554432
  }

  /** The files before `n` were read. */
  predicate ReadUpTo(sha: bytes -> Digest, files: seq<File>, n: nat)
    requires n <= |files|
  {
    Encoding(sha, files[..n]).Some? && forall i | 0 <= i < n :: !TooLargeAt(files, i)
  }

  /** The reason of each error. */
  ghost predicate FailsWith(names: Names, sha: bytes -> Digest, files: seq<File>, e: Error) {
    match e
    case SourceLimit =>
      || |files| > 4096
      || (Readable(names, files) && exists n :: 0 <= n < |files| && ReadUpTo(sha, files, n) && TooLargeAt(files, n))
    case PathForbidden => |files| <= 4096 && exists i :: 0 <= i < |files| && !SafePath(names, files[i].path)
    case Irregular =>
      |files| <= 4096 && (forall i | 0 <= i < |files| :: SafePath(names, files[i].path)) && !PathsSorted(files)
    case Unavailable => files == []
    case NotEncodable =>
      && Readable(names, files)
      && exists n :: 0 <= n < |files| && ReadUpTo(sha, files, n) && !TooLargeAt(files, n)
                     && Encode(files[n].path) == None
  }

  lemma LimitsKept(files: seq<File>)
    ensures (forall i | 0 <= i < |files| :: !TooLargeAt(files, i))
            <==> (forall i | 0 <= i < |files| :: |files[i].raw| <= MAX_FILE) && Total(files) <= MAX_TOTAL
  {
    if (forall i | 0 <= i < |files| :: |files[i].raw| <= MAX_FILE) && Total(files) <= MAX_TOTAL {
      forall i | 0 <= i < |files| ensures !TooLargeAt(files, i) { TotalGrows(files, i + 1); }
    }
    if files != [] && forall i | 0 <= i < |files| :: !TooLargeAt(files, i) {
      assert !TooLargeAt(files, |files| - 1) && files[..|files| - 1 + 1] == files;
      forall i | 0 <= i < |files| ensures |files[i].raw| <= MAX_FILE { assert !TooLargeAt(files, i); }
    }
  }

  /** The loop over the files: one row after the other, until a limit or a path that cannot be encoded. */
  method Feed(sha: bytes -> Digest, files: seq<File>) returns (r: Result<bytes, Error>)
    ensures r.Ok? <==> Encoding(sha, files).Some? && forall i | 0 <= i < |files| :: !TooLargeAt(files, i)
    ensures r.Ok? ==> r.value == Encoding(sha, files).value
    ensures r.Err? ==> exists n :: 0 <= n < |files| && ReadUpTo(sha, files, n)
                                   && if TooLargeAt(files, n) then r.error == SourceLimit
                                      else r.error == NotEncodable && Encode(files[n].path) == None
  {
    hide Row, Encoding, Encode;
    NoRows(sha, files);
    var fed: bytes, count := [], 0;
    for n := 0 to |files|
      invariant Encoding(sha, files[..n]) == Some(fed) && count == Total(files[..n])
      invariant forall i | 0 <= i < n :: !TooLargeAt(files, i)
    {
      var file := files[n];
      assert ReadUpTo(sha, files, n);
      OneMoreRow(sha, files, n);
      assert TooLargeAt(files, n) <==> |file.raw| > MAX_FILE || count + |file.raw| > MAX_TOTAL;
      if |file.raw| > MAX_FILE { return Err(SourceLimit); }
      count := count + |file.raw|;
      if count > MAX_TOTAL { return Err(SourceLimit); }
      var row := Row(sha, file);
      RowNeedsPath(sha, file);
      if row == None {
        if Encoding(sha, files).Some? { EncodingGrows(sha, files, n + 1); }
        return Err(NotEncodable);
      }
      fed := fed + row.value;
    }
    assert files[..|files|] == files;
    return Ok(fed);
  }

  /** `code_digest`: the checks on the list, then the hash of what is fed. */
  method CodeDigest(names: Names, sha: bytes -> Digest, files: seq<File>) returns (r: Result<Digest, Error>)
    ensures r.Ok? <==> Allowed(names, files) && Encoding(sha, files).Some?
    ensures r.Ok? ==> r.value == sha(Encoding(sha, files).value)
    ensures r.Err? ==> FailsWith(names, sha, files, r.error)
  {
    hide SafePath, Encoding, PathsSorted, TooLargeAt, ReadUpTo, Encode;
    LimitsKept(files);
    if |files| > MAX_FILES { return Err(SourceLimit); }
    if exists i :: 0 <= i < |files| && !SafePath(names, files[i].path) { return Err(PathForbidden); }
    if !PathsSorted(files) { return Err(Irregular); }
    if files == [] { return Err(Unavailable); }
    var fed := Feed(sha, files);
    if fed.Err? { return Err(fed.error); }
    return Ok(sha(fed.value));
  }

  // ---- unique decoding ------------------------------------------------------------------------------

  /** A safe path has no NUL anywhere. */
  lemma SafePathHasNoNul(names: Names, path: Text)
    requires SafePath(names, path)
    ensures NUL !in path
  {
    JoinSplit(path, SLASH);
    JoinHasNoNul(Split(path, SLASH));
  }

  lemma {:induction false} JoinHasNoNul(parts: seq<Text>)
    requires forall i | 0 <= i < |parts| :: NUL !in parts[i]
    ensures NUL !in Join(parts, SLASH)
  {
    if |parts| > 1 { JoinHasNoNul(parts[1..]); }
  }

  /** Only NUL encodes to a zero octet. */
  lemma {:induction false} EncodedHasNoZero(t: Text)
    requires NUL !in t && Encode(t).Some?
    ensures 0 !in Encode(t).value
  {
    if t != [] {
      EncodedHasNoZero(t[1..]);
      assert t[0] in t;
    }
  }

  datatype Entry = Entry(path: Text, digest: bytes)

  function FirstZero(b: bytes): (n: nat)
    ensures n <= |b| && (n < |b| ==> b[n] == 0)
    ensures forall i | 0 <= i < n :: b[i] != 0
  {
    if b == [] || b[0] == 0 then 0 else 1 + FirstZero(b[1..])
  }

  /** Reading the rows back: up to a zero octet a path, then 32 octets of digest. */
  function Rows(b: bytes): Option<seq<Entry>>
    decreases |b|
  {
    if b == [] then Some([])
    else
      var n := FirstZero(b);
      if n + 33 > |b| then None
      else
        match (Decode(b[..n]), Rows(b[n + 33..]))
        case (Some(path), Some(rest)) => Some([Entry(path, b[n + 1..n + 33])] + rest)
        case _ => None
  }

  function EntriesOf(sha: bytes -> Digest, files: seq<File>): seq<Entry> {
    if files == [] then [] else [Entry(files[0].path, sha(files[0].raw))] + EntriesOf(sha, files[1..])
  }

  lemma EncodingOne(sha: bytes -> Digest, file: File)
    ensures Encoding(sha, [file]) == Row(sha, file)
  {
    hide Row;
    assert [file][..0] == [];
    if Row(sha, file).Some? { assert [] + Row(sha, file).value == Row(sha, file).value; }
  }

  lemma {:induction false} EncodingCons(sha: bytes -> Digest, files: seq<File>)
    requires files != [] && Encoding(sha, files).Some?
    ensures Row(sha, files[0]).Some? && Encoding(sha, files[1..]).Some?
    ensures Encoding(sha, files).value == Row(sha, files[0]).value + Encoding(sha, files[1..]).value
  {
    hide Row;
    var n := |files| - 1;
    if n == 0 {
      assert files == [files[0]] && files[1..] == [];
      EncodingOne(sha, files[0]);
    } else {
      EncodingCons(sha, files[..n]);
      var tail := files[1..];
      assert files[..n][1..] == tail[..n - 1] && tail[n - 1] == files[n] && files[..n][0] == files[0];
      Associative(Row(sha, files[0]).value, Encoding(sha, tail[..n - 1]).value, Row(sha, files[n]).value);
    }
  }

  lemma Associative(a: bytes, b: bytes, c: bytes)
    ensures (a + b) + c == a + (b + c)
  {
  }

  /** The rows that were hashed read back as the paths and content digests of the files. */
  lemma {:induction false} EncodingReadsBack(sha: bytes -> Digest, files: seq<File>)
    requires Encoding(sha, files).Some? && forall i | 0 <= i < |files| :: NUL !in files[i].path
    ensures Rows(Encoding(sha, files).value) == Some(EntriesOf(sha, files))
  {
    if files != [] {
      EncodingCons(sha, files);
      EncodingReadsBack(sha, files[1..]);
      var path, digest, rest := Encode(files[0].path).value, sha(files[0].raw), Encoding(sha, files[1..]).value;
      EncodedHasNoZero(files[0].path);
      DecodeEncode(files[0].path, path);
      OneRow(path, digest, rest);
    }
  }

  lemma OneRow(path: bytes, digest: Digest, rest: bytes)
    requires 0 !in path
    ensures var b := path + [0] + digest + rest;
            FirstZero(b) == |path| && b[..|path|] == path && b[|path| + 1..|path| + 33] == digest
              && b[|path| + 33..] == rest
  {
    var b := path + [0] + digest + rest;
    assert b[|path|] == 0;
    forall i | 0 <= i < |path| ensures b[i] != 0 { assert b[i] == path[i] && path[i] in path; }
  }

  /** Files at the same place of two lists with one content digest have one content. */
  predicate NoCollision(sha: bytes -> Digest, a: seq<File>, b: seq<File>) {
    forall i | 0 <= i < |a| && i < |b| :: sha(a[i].raw) == sha(b[i].raw) ==> a[i].raw == b[i].raw
  }

  /**
   * Two closures with one encoding are the same paths with the same content digests, and the same
   * files exactly if no two of these files at one place collide.
   */
  lemma EncodingIsUnique(names: Names, sha: bytes -> Digest, a: seq<File>, b: seq<File>)
    requires Allowed(names, a) && Allowed(names, b)
    requires Encoding(sha, a).Some? && Encoding(sha, a) == Encoding(sha, b)
    ensures EntriesOf(sha, a) == EntriesOf(sha, b)
    ensures a == b <==> NoCollision(sha, a, b)
  {
    forall i | 0 <= i < |a| ensures NUL !in a[i].path { SafePathHasNoNul(names, a[i].path); }
    forall i | 0 <= i < |b| ensures NUL !in b[i].path { SafePathHasNoNul(names, b[i].path); }
    EncodingReadsBack(sha, a);
    EncodingReadsBack(sha, b);
    EntriesAre(sha, a);
    EntriesAre(sha, b);
    if NoCollision(sha, a, b) {
      forall i | 0 <= i < |a| ensures a[i] == b[i] {
        assert EntriesOf(sha, a)[i] == EntriesOf(sha, b)[i];
      }
    }
  }

  lemma {:induction false} EntriesAre(sha: bytes -> Digest, files: seq<File>)
    ensures |EntriesOf(sha, files)| == |files|
    ensures forall i | 0 <= i < |files| :: EntriesOf(sha, files)[i] == Entry(files[i].path, sha(files[i].raw))
  {
    if files != [] { EntriesAre(sha, files[1..]); }
  }
}
