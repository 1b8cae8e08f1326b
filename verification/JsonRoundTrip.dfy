/** The parser undoes the printer: strings, integers, and values of any nesting. */
module JsonRoundTrip {
  import opened Prelude
  import opened Utf8
  import opened Json

  // ---- strings ----------------------------------------------------------------------------

  lemma HexOfDigit(n: nat)
    requires n < 16
    ensures HexValue(HexDigit(n)) == Some(n)
  {
  }

  /** An escaped character reads back as itself, and the text behind it is untouched. */
  lemma UnescapesTo(c: Char, rest: Text)
    requires EscapeChar(c)[0] == BACKSLASH
    ensures Unescape(EscapeChar(c) + rest) == Some(Unescaped(c, |EscapeChar(c)|))
  {
    var s := EscapeChar(c) + rest;
    if |EscapeChar(c)| == 6 {
      HexOfDigit(c / 16);
      HexOfDigit(c % 16);
      assert s[1] == 0x75 && s[2] == 0x30 && s[3] == 0x30 && s[4] == HexDigit(c / 16) && s[5] == HexDigit(c % 16);
      assert Hex4(s, 2) == Some(c);
    } else {
      assert s[1] == EscapeChar(c)[1];
    }
  }

  lemma {:induction false} ParseEscaped(s: Text, rest: Text)
    ensures ParseChars(Escape(s) + [QUOTE] + rest) == Some(Parsed(s, rest))
  {
    hide EscapeChar, ParseChars;
    if s == [] {
      assert Escape(s) + [QUOTE] + rest == [QUOTE] + rest;
      ParseQuote(rest);
    } else {
      var more := Escape(s[1..]) + [QUOTE] + rest;
      assert Escape(s) + [QUOTE] + rest == EscapeChar(s[0]) + more;
      ParseEscaped(s[1..], rest);
      ParseOneEscaped(s[0], more, s[1..], rest);
      assert [s[0]] + s[1..] == s;
    }
  }

  lemma ParseQuote(rest: Text)
    ensures ParseChars([QUOTE] + rest) == Some(Parsed([], rest))
  {
    assert ([QUOTE] + rest)[1..] == rest;
  }

  /** One escaped character in front of a text that parses. */
  lemma ParseOneEscaped(c: Char, more: Text, s: Text, rest: Text)
    requires ParseChars(more) == Some(Parsed(s, rest))
    ensures ParseChars(EscapeChar(c) + more) == Some(Parsed([c] + s, rest))
  {
    var e, t := EscapeChar(c), EscapeChar(c) + more;
    assert t[|e|..] == more && t[0] == e[0];
    if e[0] == BACKSLASH { UnescapesTo(c, more); }
  }

  // ---- integers ---------------------------------------------------------------------------

  lemma {:induction false} DigitRunOf(t: Text, rest: Text)
    requires forall i | 0 <= i < |t| :: IsDigit(t[i])
    requires rest == [] || !IsDigit(rest[0])
    ensures DigitRun(t + rest) == |t|
  {
    if t == [] {
      assert t + rest == rest;
    } else {
      assert (t + rest)[1..] == t[1..] + rest;
      DigitRunOf(t[1..], rest);
    }
  }

  lemma {:induction false} NumberOfDigits(n: nat)
    ensures Number(Digits(n)) == n
    ensures n == 0 <==> Digits(n)[0] == 0x30
    ensures n == 0 ==> |Digits(n)| == 1
  {
    if n < 10 {
      assert Digits(n)[..0] == [];
    } else {
      NumberOfDigits(n / 10);
      var t := Digits(n);
      assert t[..|t| - 1] == Digits(n / 10);
    }
  }

  /** Text that can follow a value inside a document. */
  predicate Follows(rest: Text) {
    rest == [] || rest[0] == COMMA || rest[0] == CLOSE_LIST || rest[0] == CLOSE_OBJECT
  }

  lemma ParsePrintedDigits(n: nat, rest: Text)
    requires Follows(rest)
    ensures ParseMagnitude(Digits(n) + rest)
            == if |Digits(n)| <= MAX_DIGITS then Ok(Parsed(n, rest)) else Err(Limit)
  {
    NumberOfDigits(n);
    DigitRunOf(Digits(n), rest);
    hide Digits, DigitRun, Number;
    var t := Digits(n) + rest;
    assert t[..|Digits(n)|] == Digits(n) && t[|Digits(n)|..] == rest && t[0] == Digits(n)[0];
  }

  /** An integer reads back, or is refused for its length. */
  lemma ParsePrintedInt(n: int, rest: Text)
    requires Follows(rest)
    ensures PrintInt(n)[0] == MINUS || IsDigit(PrintInt(n)[0])
    ensures ParseNumber(PrintInt(n) + rest)
            == if |Digits(Magnitude(n))| <= MAX_DIGITS then Ok(Parsed(Int(n), rest)) else Err(Limit)
  {
    hide Digits, ParseMagnitude, Follows;
    var s := PrintInt(n) + rest;
    var t := Digits(Magnitude(n)) + rest;
    ParsePrintedDigits(Magnitude(n), rest);
    if n < 0 {
      assert s[0] == MINUS && s[1..] == t;
    } else {
      assert s == t && IsDigit(s[0]);
    }
  }

  function Power10(k: nat): nat { if k == 0 then 1 else 10 * Power10(k - 1) }

  /** The bound on digits is the bound on the magnitude. */
  lemma {:induction false} DigitsBound(n: nat, k: nat)
    requires k >= 1
    ensures |Digits(n)| <= k <==> n < Power10(k)
  {
    if n < 10 {
      PowerPositive(k - 1);
    } else if k == 1 {
      assert Power10(1) == 10;
    } else {
      DigitsBound(n / 10, k - 1);
    }
  }

  lemma {:induction false} PowerPositive(k: nat)
    ensures Power10(k) >= 1
  {
    if k > 0 { PowerPositive(k - 1); }
  }

  // ---- values -----------------------------------------------------------------------------

  /** No object of the value repeats a key. */
  predicate DistinctKeys(v: Json)
    decreases v
  {
    match v
    case Arr(es) => forall i | 0 <= i < |es| :: DistinctKeys(es[i])
    case Obj(ms) => Distinct(ms) && forall i | 0 <= i < |ms| :: DistinctKeys(ms[i].value)
    case _ => true
  }

  /** Every integer of the value has at most `MAX_DIGITS` digits. */
  predicate IntsBounded(v: Json)
    decreases v
  {
    match v
    case Int(n) => |Digits(Magnitude(n))| <= MAX_DIGITS
    case Arr(es) => forall i | 0 <= i < |es| :: IntsBounded(es[i])
    case Obj(ms) => forall i | 0 <= i < |ms| :: IntsBounded(ms[i].value)
    case _ => true
  }

  /** A printed value starts with neither space nor closing bracket. */
  lemma PrintStarts(v: Json)
    ensures Print(v) != []
    ensures !IsSpace(Print(v)[0]) && Print(v)[0] != CLOSE_LIST && Print(v)[0] != 0xFEFF
  {
    if v.Int? {
      assert IsDigit(Digits(Magnitude(v.n))[0]);
    }
  }

  lemma PrintElementsStarts(es: seq<Json>, rest: Text)
    requires es != []
    ensures PrintElements(es) != [] && SkipSpace(PrintElements(es) + rest) == PrintElements(es) + rest
    ensures PrintElements(es)[0] != CLOSE_LIST
  {
    PrintStarts(es[0]);
  }

  /** A list whose parts all read back, or are refused for an integer. */
  function Outcome<T>(good: bool, value: T, rest: Text): Result<Parsed<T>, Error> {
    if good then Ok(Parsed(value, rest)) else Err(Limit)
  }

  predicate ElementsBounded(es: seq<Json>) { forall i | 0 <= i < |es| :: IntsBounded(es[i]) }

  predicate MembersBounded(ms: seq<Member>) { forall i | 0 <= i < |ms| :: IntsBounded(ms[i].value) }

  lemma ElementStep(s: Text, v: Json, good: bool, next: Text)
    requires ParseValue(s) == Outcome(good, v, [COMMA] + next) && SkipSpace(next) == next
    ensures ParseElements(s)
            == if !good then Err(Limit)
               else match ParseElements(next)
                    case Err(e) => Err(e)
                    case Ok(q) => Ok(Parsed([v] + q.value, q.rest))
  {
    hide ParseValue;
    var after := [COMMA] + next;
    assert after[1..] == next && SkipSpace(after) == after;
  }

  lemma LastElement(s: Text, v: Json, good: bool, rest: Text)
    requires ParseValue(s) == Outcome(good, v, [CLOSE_LIST] + rest)
    ensures ParseElements(s) == Outcome(good, [v], rest)
  {
    hide ParseValue;
    var after := [CLOSE_LIST] + rest;
    assert after[1..] == rest && SkipSpace(after) == after;
  }

  lemma OnePrintedElement(es: seq<Json>, rest: Text)
    requires |es| == 1
    ensures PrintElements(es) + [CLOSE_LIST] + rest == Print(es[0]) + ([CLOSE_LIST] + rest)
    ensures ElementsBounded(es) <==> IntsBounded(es[0])
  {
    hide Print, IntsBounded;
  }

  lemma MorePrintedElements(es: seq<Json>, rest: Text)
    requires |es| > 1
    ensures var next := PrintElements(es[1..]) + [CLOSE_LIST] + rest;
            PrintElements(es) + [CLOSE_LIST] + rest == Print(es[0]) + ([COMMA] + next) && SkipSpace(next) == next
    ensures ElementsBounded(es) <==> IntsBounded(es[0]) && ElementsBounded(es[1..])
  {
    hide Print, IntsBounded, SkipSpace, ElementsBounded;
    ElementsBoundedCons(es);
    PrintElementsStarts(es[1..], [CLOSE_LIST] + rest);
    Regroup(Print(es[0]), [COMMA], PrintElements(es[1..]), [CLOSE_LIST], rest);
  }

  lemma ElementsBoundedCons(es: seq<Json>)
    requires es != []
    ensures ElementsBounded(es) <==> IntsBounded(es[0]) && ElementsBounded(es[1..])
  {
    hide IntsBounded;
    assert es == [es[0]] + es[1..];
  }

  lemma Regroup(a: Text, comma: Text, more: Text, close: Text, rest: Text)
    ensures a + comma + more + close + rest == a + (comma + (more + close + rest))
    ensures more + (close + rest) == more + close + rest
  {
  }

  lemma {:induction false} ParsePrintedElements(es: seq<Json>, rest: Text)
    requires es != [] && forall i | 0 <= i < |es| :: DistinctKeys(es[i])
    ensures ParseElements(PrintElements(es) + [CLOSE_LIST] + rest) == Outcome(ElementsBounded(es), es, rest)
    decreases es, 1
  {
    hide ParseElements, ParseValue, Print, PrintElements, DistinctKeys, IntsBounded, ElementsBounded, SkipSpace;
    var s := PrintElements(es) + [CLOSE_LIST] + rest;
    if |es| == 1 {
      OnePrintedElement(es, rest);
      ParsePrinted(es[0], [CLOSE_LIST] + rest);
      LastElement(s, es[0], IntsBounded(es[0]), rest);
      assert [es[0]] == es;
    } else {
      MorePrintedElements(es, rest);
      var next := PrintElements(es[1..]) + [CLOSE_LIST] + rest;
      ParsePrinted(es[0], [COMMA] + next);
      ElementStep(s, es[0], IntsBounded(es[0]), next);
      ParsePrintedElements(es[1..], rest);
      assert [es[0]] + es[1..] == es;
    }
  }

  lemma MemberStep(s: Text, key: Text, value: Text)
    requires s != [] && s[0] == QUOTE && ParseChars(s[1..]) == Some(Parsed(key, [COLON] + value))
    requires SkipSpace(value) == value
    ensures ParseMember(s)
            == match ParseValue(value)
               case Err(e) => Err(e)
               case Ok(p) => Ok(Parsed(Member(key, p.value), p.rest))
  {
    hide ParseValue, ParseChars;
    var after := [COLON] + value;
    assert after[1..] == value && SkipSpace(after) == after;
  }

  lemma {:induction false} ParsePrintedMember(m: Member, rest: Text)
    requires DistinctKeys(m.value) && Follows(rest)
    ensures ParseMember(PrintMember(m) + rest) == Outcome(IntsBounded(m.value), m, rest)
    decreases m, 1
  {
    hide ParseMember, ParseValue, ParseChars, Print, DistinctKeys, IntsBounded;
    var s := PrintMember(m) + rest;
    var value := Print(m.value) + rest;
    assert s[1..] == Escape(m.key) + [QUOTE] + ([COLON] + value);
    ParseEscaped(m.key, [COLON] + value);
    PrintStarts(m.value);
    MemberStep(s, m.key, value);
    ParsePrinted(m.value, rest);
  }

  lemma MembersStep(s: Text, m: Member, good: bool, next: Text)
    requires ParseMember(s) == Outcome(good, m, [COMMA] + next) && SkipSpace(next) == next
    ensures ParseMembers(s)
            == if !good then Err(Limit)
               else match ParseMembers(next)
                    case Err(e) => Err(e)
                    case Ok(q) => Ok(Parsed([m] + q.value, q.rest))
  {
    hide ParseMember;
    var after := [COMMA] + next;
    assert after[1..] == next && SkipSpace(after) == after;
  }

  lemma LastMember(s: Text, m: Member, good: bool, rest: Text)
    requires ParseMember(s) == Outcome(good, m, [CLOSE_OBJECT] + rest)
    ensures ParseMembers(s) == Outcome(good, [m], rest)
  {
    hide ParseMember;
    var after := [CLOSE_OBJECT] + rest;
    assert after[1..] == rest && SkipSpace(after) == after;
  }

  lemma PrintMembersStarts(ms: seq<Member>, rest: Text)
    requires ms != []
    ensures PrintMembers(ms) != [] && PrintMembers(ms)[0] == QUOTE
    ensures SkipSpace(PrintMembers(ms) + rest) == PrintMembers(ms) + rest
  {
  }

  lemma OnePrintedMember(ms: seq<Member>, rest: Text)
    requires |ms| == 1
    ensures PrintMembers(ms) + [CLOSE_OBJECT] + rest == PrintMember(ms[0]) + ([CLOSE_OBJECT] + rest)
    ensures MembersBounded(ms) <==> IntsBounded(ms[0].value)
  {
    hide PrintMember, IntsBounded;
  }

  lemma MorePrintedMembers(ms: seq<Member>, rest: Text)
    requires |ms| > 1
    ensures var next := PrintMembers(ms[1..]) + [CLOSE_OBJECT] + rest;
            PrintMembers(ms) + [CLOSE_OBJECT] + rest == PrintMember(ms[0]) + ([COMMA] + next) && SkipSpace(next) == next
    ensures MembersBounded(ms) <==> IntsBounded(ms[0].value) && MembersBounded(ms[1..])
  {
    hide PrintMember, IntsBounded, SkipSpace, MembersBounded;
    MembersBoundedCons(ms);
    PrintMembersStarts(ms[1..], [CLOSE_OBJECT] + rest);
    Regroup(PrintMember(ms[0]), [COMMA], PrintMembers(ms[1..]), [CLOSE_OBJECT], rest);
  }

  lemma MembersBoundedCons(ms: seq<Member>)
    requires ms != []
    ensures MembersBounded(ms) <==> IntsBounded(ms[0].value) && MembersBounded(ms[1..])
  {
    hide IntsBounded;
    assert ms == [ms[0]] + ms[1..];
  }

  lemma {:induction false} ParsePrintedMembers(ms: seq<Member>, rest: Text)
    requires ms != [] && forall i | 0 <= i < |ms| :: DistinctKeys(ms[i].value)
    ensures ParseMembers(PrintMembers(ms) + [CLOSE_OBJECT] + rest) == Outcome(MembersBounded(ms), ms, rest)
    decreases ms, 2
  {
    hide ParseMembers, ParseMember, PrintMember, PrintMembers, DistinctKeys, IntsBounded, MembersBounded, SkipSpace;
    var s := PrintMembers(ms) + [CLOSE_OBJECT] + rest;
    if |ms| == 1 {
      OnePrintedMember(ms, rest);
      ParsePrintedMember(ms[0], [CLOSE_OBJECT] + rest);
      LastMember(s, ms[0], IntsBounded(ms[0].value), rest);
      assert [ms[0]] == ms;
    } else {
      MorePrintedMembers(ms, rest);
      var next := PrintMembers(ms[1..]) + [CLOSE_OBJECT] + rest;
      ParsePrintedMember(ms[0], [COMMA] + next);
      MembersStep(s, ms[0], IntsBounded(ms[0].value), next);
      ParsePrintedMembers(ms[1..], rest);
      assert [ms[0]] + ms[1..] == ms;
    }
  }

  lemma ParseList(s: Text, t: Text, es: seq<Json>, good: bool, rest: Text)
    requires s == [OPEN_LIST] + t && SkipSpace(t) == t
    requires if es == [] then t == [CLOSE_LIST] + rest && good
             else (t == [] || t[0] != CLOSE_LIST) && ParseElements(t) == Outcome(good, es, rest)
    ensures ParseValue(s) == Outcome(good, Arr(es), rest)
  {
    hide ParseElements;
    assert s[1..] == t;
    if es == [] { assert t[1..] == rest; }
  }

  lemma ParseObject(s: Text, t: Text, ms: seq<Member>, good: bool, rest: Text)
    requires s == [OPEN_OBJECT] + t && SkipSpace(t) == t && Distinct(ms)
    requires if ms == [] then t == [CLOSE_OBJECT] + rest && good
             else (t == [] || t[0] != CLOSE_OBJECT) && ParseMembers(t) == Outcome(good, ms, rest)
    ensures ParseValue(s) == Outcome(good, Obj(ms), rest)
  {
    hide ParseMembers;
    assert s[1..] == t;
    if ms == [] { assert t[1..] == rest; }
  }

  lemma ParseWord(v: Json, rest: Text)
    requires v.Null? || v.Bool?
    ensures ParseValue(Print(v) + rest) == Ok(Parsed(v, rest))
  {
    var s := Print(v) + rest;
    assert s[..|Print(v)|] == Print(v) && s[|Print(v)|..] == rest;
    assert s[0] == Print(v)[0];
  }

  lemma ParseInt(n: int, rest: Text)
    requires Follows(rest)
    ensures ParseValue(PrintInt(n) + rest) == Outcome(|Digits(Magnitude(n))| <= MAX_DIGITS, Int(n), rest)
  {
    ParsePrintedInt(n, rest);
    hide ParseNumber, Digits, PrintInt, Follows, Magnitude;
    var s := PrintInt(n) + rest;
    assert s[0] == PrintInt(n)[0];
    NotAWord(s);
  }

  /** Text that starts like an integer is parsed as one. */
  lemma NotAWord(s: Text)
    requires s != [] && (s[0] == MINUS || IsDigit(s[0]))
    ensures ParseValue(s) == ParseNumber(s)
  {
    hide ParseNumber;
  }

  lemma ParseString(text: Text, rest: Text)
    ensures ParseValue(Quote(text) + rest) == Ok(Parsed(Str(text), rest))
  {
    hide ParseChars, Escape;
    var s := Quote(text) + rest;
    assert s[1..] == Escape(text) + [QUOTE] + rest;
    ParseEscaped(text, rest);
  }

  lemma ParseScalar(v: Json, rest: Text)
    requires !v.Arr? && !v.Obj? && Follows(rest)
    ensures ParseValue(Print(v) + rest) == Outcome(IntsBounded(v), v, rest)
  {
    hide ParseValue, PrintInt, Quote, Digits, Follows;
    match v {
      case Int(n) => ParseInt(n, rest);
      case Str(text) => ParseString(text, rest);
      case _ => ParseWord(v, rest);
    }
  }

  /** A printed value reads back, with the text behind it, unless one of its integers is too long. */
  lemma {:induction false} ParsePrinted(v: Json, rest: Text)
    requires DistinctKeys(v) && Follows(rest)
    ensures ParseValue(Print(v) + rest) == Outcome(IntsBounded(v), v, rest)
    decreases v, 1
  {
    hide ParseValue, ParseElements, ParseMembers, PrintElements, PrintMembers;
    var s := Print(v) + rest;
    match v {
      case Arr(es) =>
        var t := PrintElements(es) + [CLOSE_LIST] + rest;
        assert s == [OPEN_LIST] + t;
        if es == [] {
          NoElements();
          assert t == [CLOSE_LIST] + rest;
        } else {
          PrintElementsStarts(es, [CLOSE_LIST] + rest);
          assert t == PrintElements(es) + ([CLOSE_LIST] + rest);
          ParsePrintedElements(es, rest);
        }
        ParseList(s, t, es, ElementsBounded(es), rest);
      case Obj(ms) =>
        var t := PrintMembers(ms) + [CLOSE_OBJECT] + rest;
        assert s == [OPEN_OBJECT] + t;
        if ms == [] {
          NoElements();
          assert t == [CLOSE_OBJECT] + rest;
        } else {
          PrintMembersStarts(ms, [CLOSE_OBJECT] + rest);
          assert t == PrintMembers(ms) + ([CLOSE_OBJECT] + rest);
          ParsePrintedMembers(ms, rest);
        }
        ParseObject(s, t, ms, MembersBounded(ms), rest);
      case _ => ParseScalar(v, rest);
    }
  }

  lemma NoElements()
    ensures PrintElements([]) == [] && PrintMembers([]) == []
  {
  }
}
