/**
 * Strict canonical JSON: the printer, the parser and the depth scanner as Python's `json` module and
 * `formats.py` have them, over code points, with integers only (RFC 8259, sections 4 to 7).
 */
module Json {
  import opened Prelude
  import opened Utf8

  const MAX_DEPTH := 32
  const MAX_DIGITS := 128

  const QUOTE: Char := 0x22
  const BACKSLASH: Char := 0x5C
  const MINUS: Char := 0x2D
  const COMMA: Char := 0x2C
  const COLON: Char := 0x3A
  const OPEN_LIST: Char := 0x5B
  const CLOSE_LIST: Char := 0x5D
  const OPEN_OBJECT: Char := 0x7B
  const CLOSE_OBJECT: Char := 0x7D
  const NULL: Text := [0x6E, 0x75, 0x6C, 0x6C]
  const TRUE: Text := [0x74, 0x72, 0x75, 0x65]
  const FALSE: Text := [0x66, 0x61, 0x6C, 0x73, 0x65]

  /** A float-free value; an object keeps the order in which its members were written. */
  datatype Json =
    | Null
    | Bool(b: bool)
    | Int(n: int)
    | Str(s: Text)
    | Arr(elements: seq<Json>)
    | Obj(members: seq<Member>)

  datatype Member = Member(key: Text, value: Json)

  datatype Error = Corrupt | Limit

  // ---- printing ---------------------------------------------------------------------------

  function HexDigit(n: nat): Char
    requires n < 16
  {
    if n < 10 then 0x30 + n else 0x57 + n
  }

  /** The character behind a one-letter escape, if there is one. */
  function ShortEscape(letter: Char): Option<Char> {
    if letter == QUOTE || letter == BACKSLASH || letter == 0x2F then Some(letter)
    else if letter == 0x62 then Some(0x08)
    else if letter == 0x66 then Some(0x0C)
    else if letter == 0x6E then Some(0x0A)
    else if letter == 0x72 then Some(0x0D)
    else if letter == 0x74 then Some(0x09)
    else None
  }

  function EscapeChar(c: Char): (t: Text)
    ensures 1 <= |t| <= 6
  {
    if c == QUOTE || c == BACKSLASH then [BACKSLASH, c]
    else if c == 0x08 then [BACKSLASH, 0x62]
    else if c == 0x0C then [BACKSLASH, 0x66]
    else if c == 0x0A then [BACKSLASH, 0x6E]
    else if c == 0x0D then [BACKSLASH, 0x72]
    else if c == 0x09 then [BACKSLASH, 0x74]
    else if c < 0x20 then [BACKSLASH, 0x75, 0x30, 0x30, HexDigit(c / 16), HexDigit(c % 16)]
    else [c]
  }

  function Escape(s: Text): Text { if s == [] then [] else EscapeChar(s[0]) + Escape(s[1..]) }

  function Quote(s: Text): Text { [QUOTE] + Escape(s) + [QUOTE] }

  predicate IsDigit(c: Char) { 0x30 <= c <= 0x39 }

  function Digits(n: nat): (t: Text)
    ensures t != [] && forall i | 0 <= i < |t| :: IsDigit(t[i])
  {
    if n < 10 then [0x30 + n] else Digits(n / 10) + [0x30 + n % 10]
  }

  function Magnitude(n: int): nat { if n < 0 then -n else n }

  function PrintInt(n: int): Text { if n < 0 then [MINUS] + Digits(-n) else Digits(n) }

  /** `json.dumps` with compact separators and `ensure_ascii=False`, members in the given order. */
  function Print(v: Json): Text
    decreases v
  {
    match v
    case Null => NULL
    case Bool(b) => if b then TRUE else FALSE
    case Int(n) => PrintInt(n)
    case Str(s) => Quote(s)
    case Arr(es) => [OPEN_LIST] + PrintElements(es) + [CLOSE_LIST]
    case Obj(ms) => [OPEN_OBJECT] + PrintMembers(ms) + [CLOSE_OBJECT]
  }

  function PrintElements(es: seq<Json>): Text
    decreases es
  {
    if es == [] then []
    else if |es| == 1 then Print(es[0])
    else Print(es[0]) + [COMMA] + PrintElements(es[1..])
  }

  function PrintMembers(ms: seq<Member>): Text
    decreases ms
  {
    if ms == [] then []
    else if |ms| == 1 then PrintMember(ms[0])
    else PrintMember(ms[0]) + [COMMA] + PrintMembers(ms[1..])
  }

  function PrintMember(m: Member): Text
    decreases m
  {
    Quote(m.key) + [COLON] + Print(m.value)
  }

  // ---- parsing ----------------------------------------------------------------------------

  /** A value and the text after it. */
  datatype Parsed<+T> = Parsed(value: T, rest: Text)

  predicate IsSpace(c: Char) { c == 0x20 || c == 0x09 || c == 0x0A || c == 0x0D }

  function SkipSpace(s: Text): (r: Text)
    ensures |r| <= |s|
  {
    if s != [] && IsSpace(s[0]) then SkipSpace(s[1..]) else s
  }

  function HexValue(c: Char): (r: Option<nat>)
    ensures r.Some? ==> r.value < 16
  {
    if IsDigit(c) then Some(c - 0x30)
    else if 0x61 <= c <= 0x66 then Some(c - 0x57)
    else if 0x41 <= c <= 0x46 then Some(c - 0x37)
    else None
  }

  /** The value of four hexadecimal digits at `i`. */
  function Hex4(s: Text, i: nat): (r: Option<nat>)
    ensures r.Some? ==> r.value < 0x10000
  {
    if i + 4 > |s| then None
    else
      match (HexValue(s[i]), HexValue(s[i + 1]), HexValue(s[i + 2]), HexValue(s[i + 3]))
      case (Some(a), Some(b), Some(c), Some(d)) => Some(((a * 16 + b) * 16 + c) * 16 + d)
      case _ => None
  }

  datatype Unescaped = Unescaped(c: Char, width: nat)

  /** The character an escape stands for; a pair of `\u` surrogates is joined. */
  function Unescape(s: Text): (r: Option<Unescaped>)
    requires s != [] && s[0] == BACKSLASH
    ensures r.Some? ==> 1 <= r.value.width <= |s|
  {
    if |s| < 2 then None
    else if s[1] != 0x75 then
      (match ShortEscape(s[1])
       case None => None
       case Some(c) => Some(Unescaped(c, 2)))
    else
      match Hex4(s, 2)
      case None => None
      case Some(u) =>
        if 0xD800 <= u < 0xDC00 && |s| >= 8 && s[6] == BACKSLASH && s[7] == 0x75 then
          match Hex4(s, 8)
          case None => None
          case Some(w) =>
            if 0xDC00 <= w < 0xE000 then Some(Unescaped(0x10000 + (u - 0xD800) * 1024 + (w - 0xDC00), 12))
            else Some(Unescaped(u, 6))
        else Some(Unescaped(u, 6))
  }

  /** A string from after its opening quote. */
  function ParseChars(s: Text): (r: Option<Parsed<Text>>)
    ensures r.Some? ==> |r.value.rest| < |s|
    decreases |s|
  {
    if s == [] then None
    else if s[0] == QUOTE then Some(Parsed([], s[1..]))
    else if s[0] < 0x20 then None
    else if s[0] == BACKSLASH then
      match Unescape(s)
      case None => None
      case Some(u) => PrependChar(u.c, ParseChars(s[u.width..]))
    else PrependChar(s[0], ParseChars(s[1..]))
  }

  function PrependChar(c: Char, r: Option<Parsed<Text>>): Option<Parsed<Text>> {
    match r
    case None => None
    case Some(p) => Some(Parsed([c] + p.value, p.rest))
  }

  function DigitValue(c: Char): nat
    requires IsDigit(c)
  {
    var code: int := c;
    code - 0x30
  }

  function DigitRun(s: Text): (n: nat)
    ensures n <= |s| && forall i | 0 <= i < n :: IsDigit(s[i])
  {
    if s != [] && IsDigit(s[0]) then 1 + DigitRun(s[1..]) else 0
  }

  function Number(t: Text): nat
    requires forall i | 0 <= i < |t| :: IsDigit(t[i])
  {
    if t == [] then 0 else Number(t[..|t| - 1]) * 10 + DigitValue(t[|t| - 1])
  }

  /** Does a fraction or an exponent follow, so that the token is a float? */
  predicate FloatFollows(s: Text) {
    || (|s| >= 2 && s[0] == 0x2E && IsDigit(s[1]))
    || (|s| >= 2 && (s[0] == 0x65 || s[0] == 0x45)
        && (IsDigit(s[1]) || (|s| >= 3 && (s[1] == 0x2B || s[1] == MINUS) && IsDigit(s[2]))))
  }

  /** Digits without leading zeros, not a float, at most `MAX_DIGITS` of them. */
  function ParseMagnitude(t: Text): (r: Result<Parsed<nat>, Error>)
    ensures r.Ok? ==> |r.value.rest| < |t|
  {
    var run := DigitRun(t);
    if run == 0 then Err(Corrupt)
    else
      var length := if t[0] == 0x30 then 1 else run;
      if FloatFollows(t[length..]) then Err(Corrupt)
      else if length > MAX_DIGITS then Err(Limit)
      else Ok(Parsed(Number(t[..length]), t[length..]))
  }

  function ParseNumber(s: Text): (r: Result<Parsed<Json>, Error>)
    ensures r.Ok? ==> |r.value.rest| < |s|
  {
    var negative := s != [] && s[0] == MINUS;
    match ParseMagnitude(if negative then s[1..] else s)
    case Err(e) => Err(e)
    case Ok(p) =>
      var n: int := p.value;
      Ok(Parsed(Int(if negative then -n else n), p.rest))
  }

  predicate Distinct(ms: seq<Member>) { forall i, j | 0 <= i < j < |ms| :: ms[i].key != ms[j].key }

  function ParseValue(s: Text): (r: Result<Parsed<Json>, Error>)
    ensures r.Ok? ==> |r.value.rest| < |s|
    decreases |s|, 0
  {
    if s == [] then Err(Corrupt)
    else if s[0] == QUOTE then
      match ParseChars(s[1..])
      case None => Err(Corrupt)
      case Some(p) => Ok(Parsed(Str(p.value), p.rest))
    else if s[0] == OPEN_LIST then
      var t := SkipSpace(s[1..]);
      if t != [] && t[0] == CLOSE_LIST then Ok(Parsed(Arr([]), t[1..])) else ListOf(ParseElements(t))
    else if s[0] == OPEN_OBJECT then
      var t := SkipSpace(s[1..]);
      if t != [] && t[0] == CLOSE_OBJECT then Ok(Parsed(Obj([]), t[1..])) else ObjectOf(ParseMembers(t))
    else if NULL <= s then Ok(Parsed(Null, s[4..]))
    else if TRUE <= s then Ok(Parsed(Bool(true), s[4..]))
    else if FALSE <= s then Ok(Parsed(Bool(false), s[5..]))
    else ParseNumber(s)
  }

  function ListOf(r: Result<Parsed<seq<Json>>, Error>): Result<Parsed<Json>, Error> {
    match r
    case Err(e) => Err(e)
    case Ok(p) => Ok(Parsed(Arr(p.value), p.rest))
  }

  /** The object hook runs when the object is complete: it refuses a repeated key. */
  function ObjectOf(r: Result<Parsed<seq<Member>>, Error>): Result<Parsed<Json>, Error> {
    match r
    case Err(e) => Err(e)
    case Ok(p) => if Distinct(p.value) then Ok(Parsed(Obj(p.value), p.rest)) else Err(Corrupt)
  }

  /** One or more elements and the closing bracket. */
  function ParseElements(s: Text): (r: Result<Parsed<seq<Json>>, Error>)
    ensures r.Ok? ==> |r.value.rest| < |s|
    decreases |s|, 1
  {
    match ParseValue(s)
    case Err(e) => Err(e)
    case Ok(p) =>
      var t := SkipSpace(p.rest);
      if t == [] then Err(Corrupt)
      else if t[0] == CLOSE_LIST then Ok(Parsed([p.value], t[1..]))
      else if t[0] != COMMA then Err(Corrupt)
      else
        match ParseElements(SkipSpace(t[1..]))
        case Err(e) => Err(e)
        case Ok(q) => Ok(Parsed([p.value] + q.value, q.rest))
  }

  /** A key, a colon and a value. */
  function ParseMember(s: Text): (r: Result<Parsed<Member>, Error>)
    ensures r.Ok? ==> |r.value.rest| < |s|
    decreases |s|, 1
  {
    if s == [] || s[0] != QUOTE then Err(Corrupt)
    else
      match ParseChars(s[1..])
      case None => Err(Corrupt)
      case Some(k) =>
        var t := SkipSpace(k.rest);
        if t == [] || t[0] != COLON then Err(Corrupt)
        else
          match ParseValue(SkipSpace(t[1..]))
          case Err(e) => Err(e)
          case Ok(p) => Ok(Parsed(Member(k.value, p.value), p.rest))
  }

  /** One or more members and the closing brace. */
  function ParseMembers(s: Text): (r: Result<Parsed<seq<Member>>, Error>)
    ensures r.Ok? ==> |r.value.rest| < |s|
    decreases |s|, 2
  {
    match ParseMember(s)
    case Err(e) => Err(e)
    case Ok(p) =>
      var t := SkipSpace(p.rest);
      if t == [] then Err(Corrupt)
      else if t[0] == CLOSE_OBJECT then Ok(Parsed([p.value], t[1..]))
      else if t[0] != COMMA then Err(Corrupt)
      else
        match ParseMembers(SkipSpace(t[1..]))
        case Err(e) => Err(e)
        case Ok(q) => Ok(Parsed([p.value] + q.value, q.rest))
  }

  /** `json.loads`: one value, spaces around it, nothing else; a byte order mark is refused. */
  function Parse(t: Text): Result<Json, Error> {
    if t != [] && t[0] == 0xFEFF then Err(Corrupt)
    else
      match ParseValue(SkipSpace(t))
      case Err(e) => Err(e)
      case Ok(p) => if SkipSpace(p.rest) == [] then Ok(p.value) else Err(Corrupt)
  }
}
