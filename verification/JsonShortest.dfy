/**
 * The canonical form is a shortest one: whatever text the parser accepts for a value, the printed
 * text is no longer. And it holds no control character, so a canonical line is one line.
 */
module JsonShortest {
  import opened Prelude
  import opened Utf8
  import opened Json
  import opened JsonRoundTrip
  import opened Formats

  lemma UnescapedIsShort(s: Text)
    requires s != [] && s[0] == BACKSLASH && Unescape(s).Some?
    ensures |EscapeChar(Unescape(s).value.c)| <= Unescape(s).value.width
  {
  }

  lemma {:induction false} CharsAreShort(s: Text)
    requires ParseChars(s).Some?
    ensures |Escape(ParseChars(s).value.value)| + 1 + |ParseChars(s).value.rest| <= |s|
    decreases |s|
  {
    hide Unescape, EscapeChar;
    if s[0] == QUOTE {
    } else if s[0] == BACKSLASH {
      UnescapedIsShort(s);
      CharsAreShort(s[Unescape(s).value.width..]);
    } else {
      CharsAreShort(s[1..]);
      RawIsShort(s[0]);
    }
  }

  lemma RawIsShort(c: Char)
    requires c >= 0x20 && c != QUOTE && c != BACKSLASH
    ensures EscapeChar(c) == [c]
  {
  }

  lemma MagnitudeIsShort(t: Text)
    requires ParseMagnitude(t).Ok?
    ensures |Digits(ParseMagnitude(t).value.value)| + |ParseMagnitude(t).value.rest| <= |t|
  {
    var length := if t[0] == 0x30 then 1 else DigitRun(t);
    DigitsOfNumber(t[..length]);
  }

  lemma NumberIsShort(s: Text)
    requires ParseNumber(s).Ok?
    ensures |Print(ParseNumber(s).value.value)| + |ParseNumber(s).value.rest| <= |s|
  {
    MagnitudeIsShort(if s[0] == MINUS then s[1..] else s);
    hide ParseMagnitude;
  }

  lemma {:induction false} ValueIsShort(s: Text)
    requires ParseValue(s).Ok?
    ensures |Print(ParseValue(s).value.value)| + |ParseValue(s).value.rest| <= |s|
    decreases |s|, 1
  {
    hide ParseChars, ParseNumber, ParseElements, ParseMembers, SkipSpace, PrintElements, PrintMembers;
    if s[0] == QUOTE {
      CharsAreShort(s[1..]);
    } else if s[0] == OPEN_LIST {
      NoElements();
      var t := SkipSpace(s[1..]);
      if !(t != [] && t[0] == CLOSE_LIST) { ElementsAreShort(t); }
    } else if s[0] == OPEN_OBJECT {
      NoElements();
      var t := SkipSpace(s[1..]);
      if !(t != [] && t[0] == CLOSE_OBJECT) { MembersAreShort(t); }
    } else if NULL <= s || TRUE <= s || FALSE <= s {
    } else {
      NumberIsShort(s);
    }
  }

  lemma {:induction false} ElementsAreShort(s: Text)
    requires ParseElements(s).Ok?
    ensures ParseElements(s).value.value != []
    ensures |PrintElements(ParseElements(s).value.value)| + 1 + |ParseElements(s).value.rest| <= |s|
    decreases |s|, 2
  {
    hide ParseValue, Print, SkipSpace, PrintElements;
    ValueIsShort(s);
    var p := ParseValue(s).value;
    var t := SkipSpace(p.rest);
    if t[0] == CLOSE_LIST {
      ConsLength(p.value, []);
      assert [p.value] + [] == [p.value];
    } else {
      ElementsAreShort(SkipSpace(t[1..]));
      ConsLength(p.value, ParseElements(SkipSpace(t[1..])).value.value);
    }
  }

  lemma ConsLength(v: Json, es: seq<Json>)
    ensures |PrintElements([v] + es)| == |Print(v)| + (if es == [] then 0 else 1 + |PrintElements(es)|)
  {
    hide Print;
    assert ([v] + es)[1..] == es;
  }

  lemma {:induction false} MemberIsShort(s: Text)
    requires ParseMember(s).Ok?
    ensures |PrintMember(ParseMember(s).value.value)| + |ParseMember(s).value.rest| <= |s|
    decreases |s|, 2
  {
    hide ParseChars, ParseValue, Print, SkipSpace, Escape;
    CharsAreShort(s[1..]);
    var t := SkipSpace(ParseChars(s[1..]).value.rest);
    ValueIsShort(SkipSpace(t[1..]));
  }

  lemma {:induction false} MembersAreShort(s: Text)
    requires ParseMembers(s).Ok?
    ensures ParseMembers(s).value.value != []
    ensures |PrintMembers(ParseMembers(s).value.value)| + 1 + |ParseMembers(s).value.rest| <= |s|
    decreases |s|, 3
  {
    hide ParseMember, PrintMember, SkipSpace, PrintMembers;
    MemberIsShort(s);
    var p := ParseMember(s).value;
    var t := SkipSpace(p.rest);
    if t[0] == CLOSE_OBJECT {
      ConsMemberLength(p.value, []);
      assert [p.value] + [] == [p.value];
    } else {
      MembersAreShort(SkipSpace(t[1..]));
      ConsMemberLength(p.value, ParseMembers(SkipSpace(t[1..])).value.value);
    }
  }

  lemma ConsMemberLength(m: Member, ms: seq<Member>)
    ensures |PrintMembers([m] + ms)| == |PrintMember(m)| + (if ms == [] then 0 else 1 + |PrintMembers(ms)|)
  {
    hide PrintMember;
    assert ([m] + ms)[1..] == ms;
  }

  /** No text that parses to a value is shorter than its printed text. */
  lemma PrintIsShortest(text: Text)
    requires Parse(text).Ok?
    ensures |Print(Parse(text).value)| <= |text|
  {
    ValueIsShort(SkipSpace(text));
  }

  // ---- one line -------------------------------------------------------------------------------------

  predicate Visible(t: Text) { forall i | 0 <= i < |t| :: t[i] >= 0x20 }

  lemma {:induction false} EscapeIsVisible(s: Text)
    ensures Visible(Escape(s))
  {
    if s != [] { EscapeIsVisible(s[1..]); }
  }

  lemma {:induction false} ElementsAreVisible(es: seq<Json>)
    ensures Visible(PrintElements(es))
    decreases es, 2
  {
    if es != [] {
      hide Print;
      PrintIsVisible(es[0]);
      if |es| > 1 { ElementsAreVisible(es[1..]); }
    }
  }

  lemma {:induction false} MembersAreVisible(ms: seq<Member>)
    ensures Visible(PrintMembers(ms))
    decreases ms, 2
  {
    if ms != [] {
      hide PrintMember, Visible;
      MemberIsVisible(ms[0]);
      if |ms| > 1 {
        MembersAreVisible(ms[1..]);
        JoinedIsVisible(PrintMember(ms[0]), PrintMembers(ms[1..]));
      }
    }
  }

  lemma JoinedIsVisible(a: Text, b: Text)
    requires Visible(a) && Visible(b)
    ensures Visible(a + [COMMA] + b)
  {
  }

  lemma {:induction false} MemberIsVisible(m: Member)
    ensures Visible(PrintMember(m))
    decreases m, 2
  {
    hide Print, Escape;
    EscapeIsVisible(m.key);
    PrintIsVisible(m.value);
  }

  /** Printed text holds no control character. */
  lemma {:induction false} PrintIsVisible(v: Json)
    ensures Visible(Print(v))
    decreases v, 1
  {
    hide PrintElements, PrintMembers, Escape;
    match v {
      case Arr(es) => ElementsAreVisible(es);
      case Obj(ms) => MembersAreVisible(ms);
      case Str(s) => EscapeIsVisible(s);
      case _ =>
    }
  }

  lemma {:induction false} EncodedVisible(t: Text)
    requires Visible(t) && Encode(t).Some?
    ensures forall i | 0 <= i < |Encode(t).value| :: Encode(t).value[i] >= 0x20
  {
    if t != [] { EncodedVisible(t[1..]); }
  }

  /** A canonical encoding holds no octet below 0x20, so no newline. */
  lemma CanonicalIsOneLine(v: Json)
    requires Canonical(v).Some?
    ensures forall i | 0 <= i < |Canonical(v).value| :: Canonical(v).value[i] >= 0x20
  {
    PrintIsVisible(SortTree(v));
    EncodedVisible(Print(SortTree(v)));
  }

  // ---- spelling -----------------------------------------------------------------------------------

  /** The code points of a literal text. */
  function Ascii(s: string): Text
    requires forall i | 0 <= i < |s| :: s[i] < 128 as char
  {
    seq(|s|, i requires 0 <= i < |s| => s[i] as int)
  }

  lemma Digits120()
    ensures Digits(120) == [0x31, 0x32, 0x30]
  {
    assert Digits(12) == Digits(1) + [0x32] && Digits(1) == [0x31];
  }

  lemma WordsAre()
    ensures Print(Null) == Ascii("null") && Print(Bool(true)) == Ascii("true") && Print(Bool(false)) == Ascii("false")
  {
  }

  lemma MinusDigits()
    ensures Print(Int(-120)) == Ascii("-120")
  {
    hide Digits;
    Digits120();
  }

  lemma EmptyAre()
    ensures Print(Arr([])) == Ascii("[]") && Print(Obj([])) == Ascii("{}")
  {
  }

  lemma StringIs(key: Text)
    ensures Print(Str(key)) == Ascii("\"") + Escape(key) + Ascii("\"")
  {
    assert Ascii("\"") == [QUOTE];
  }

  /** How values are spelled. */
  lemma Spelling(key: Text)
    ensures Print(Null) == Ascii("null") && Print(Bool(true)) == Ascii("true") && Print(Bool(false)) == Ascii("false")
    ensures Print(Int(-120)) == Ascii("-120") && Print(Arr([])) == Ascii("[]") && Print(Obj([])) == Ascii("{}")
    ensures Print(Str(key)) == Ascii("\"") + Escape(key) + Ascii("\"")
  {
    hide Print, Ascii, Digits, Escape;
    WordsAre();
    MinusDigits();
    EmptyAre();
    StringIs(key);
  }

  /** How integers are spelled: in decimal, the first digit first, a minus in front of a negative one. */
  lemma IntSpelling(n: int, digit: nat)
    requires n >= 0 && digit < 10
    ensures Print(Int(digit)) == [Ascii("0123456789")[digit]]
    ensures n > 0 ==> Print(Int(10 * n + digit)) == Print(Int(n)) + [Ascii("0123456789")[digit]]
    ensures n > 0 ==> Print(Int(-n)) == Ascii("-") + Print(Int(n))
  {
    assert (10 * n + digit) / 10 == n && (10 * n + digit) % 10 == digit;
  }

  /** How separators are spelled. */
  lemma Separators(m: Member, n: Member)
    ensures Print(Arr([m.value, n.value])) == Ascii("[") + Print(m.value) + Ascii(",") + Print(n.value) + Ascii("]")
    ensures Print(Obj([m, n])) == Ascii("{") + PrintMember(m) + Ascii(",") + PrintMember(n) + Ascii("}")
    ensures PrintMember(m) == Print(Str(m.key)) + Ascii(":") + Print(m.value)
  {
    assert [m.value, n.value][1..] == [n.value] && [m, n][1..] == [n];
    assert PrintElements([n.value]) == Print(n.value) && PrintMembers([n]) == PrintMember(n);
    Between(OPEN_LIST, Print(m.value), COMMA, Print(n.value), CLOSE_LIST);
    Between(OPEN_OBJECT, PrintMember(m), COMMA, PrintMember(n), CLOSE_OBJECT);
    assert Ascii("[") == [OPEN_LIST] && Ascii("]") == [CLOSE_LIST] && Ascii(",") == [COMMA] && Ascii(":") == [COLON];
    assert Ascii("{") == [OPEN_OBJECT] && Ascii("}") == [CLOSE_OBJECT];
  }

  lemma Between(open: Char, a: Text, comma: Char, b: Text, close: Char)
    ensures [open] + (a + [comma] + b) + [close] == [open] + a + [comma] + b + [close]
  {
  }

  /** How a character of a string is spelled: itself, behind a backslash, or by four lower-case hex digits. */
  lemma EscapeSpelling(c: Char)
    ensures EscapeChar(c)
            == if c == 8 then Ascii("\\b") else if c == 9 then Ascii("\\t") else if c == 10 then Ascii("\\n")
               else if c == 12 then Ascii("\\f") else if c == 13 then Ascii("\\r")
               else if c == 0x22 then Ascii("\\\"") else if c == 0x5C then Ascii("\\\\")
               else if c < 0x20 then Ascii("\\u00") + [Ascii("01")[c / 16], Ascii("0123456789abcdef")[c % 16]]
               else [c]
  {
  }
}
