/** The byte-level depth scanner agrees with the nesting of the tree, whatever its strings contain. */
module JsonDepth {
  import opened Prelude
  import opened Utf8
  import opened Json

  datatype ScanState = ScanState(depth: int, quoted: bool, escaped: bool)

  const OUTSIDE := ScanState(0, false, false)

  predicate Opens(st: ScanState, b: int) { !st.quoted && (b == OPEN_LIST || b == OPEN_OBJECT) }

  /** One byte, or one code point: only ASCII matters. */
  function ScanByte(st: ScanState, b: int): ScanState {
    if st.quoted then
      if st.escaped then st.(escaped := false)
      else if b == BACKSLASH then st.(escaped := true)
      else if b == QUOTE then st.(quoted := false)
      else st
    else if b == QUOTE then st.(quoted := true)
    else if b == OPEN_LIST || b == OPEN_OBJECT then st.(depth := st.depth + 1)
    else if b == CLOSE_LIST || b == CLOSE_OBJECT then st.(depth := st.depth - 1)
    else st
  }

  /** The state after `s`; None as soon as an opening bracket goes deeper than `MAX_DEPTH`. */
  function Scan(st: ScanState, s: seq<int>): Option<ScanState>
    decreases |s|
  {
    if s == [] then Some(st)
    else
      var next := ScanByte(st, s[0]);
      if Opens(st, s[0]) && next.depth > MAX_DEPTH then None else Scan(next, s[1..])
  }

  /** `_depth`: the loop over the bytes; `ok` is false where it raises. */
  method ScanDepth(raw: bytes) returns (ok: bool)
    ensures ok <==> Scan(OUTSIDE, raw).Some?
  {
    var depth, quoted, escaped := 0, false, false;
    for i := 0 to |raw|
      invariant Scan(ScanState(depth, quoted, escaped), raw[i..]) == Scan(OUTSIDE, raw)
    {
      var b := raw[i];
      assert raw[i..][1..] == raw[i + 1..];
      if quoted {
        if escaped {
          escaped := false;
        } else if b == 92 {
          escaped := true;
        } else if b == 34 {
          quoted := false;
        }
      } else if b == 34 {
        quoted := true;
      } else if b == 91 || b == 123 {
        depth := depth + 1;
        if depth > MAX_DEPTH { return false; }
      } else if b == 93 || b == 125 {
        depth := depth - 1;
      }
    }
    return true;
  }

  /** Nesting of lists and objects. */
  function Depth(v: Json): nat
    decreases v
  {
    match v
    case Arr(es) => 1 + ElementsDepth(es)
    case Obj(ms) => 1 + MembersDepth(ms)
    case _ => 0
  }

  function ElementsDepth(es: seq<Json>): nat
    decreases es
  {
    if es == [] then 0 else Max(Depth(es[0]), ElementsDepth(es[1..]))
  }

  function MembersDepth(ms: seq<Member>): nat
    decreases ms
  {
    if ms == [] then 0 else Max(Depth(ms[0].value), MembersDepth(ms[1..]))
  }

  lemma {:induction false} ScanConcat(st: ScanState, a: seq<int>, b: seq<int>)
    ensures Scan(st, a + b) == match Scan(st, a) case None => None case Some(next) => Scan(next, b)
    decreases |a|
  {
    if a == [] {
      assert a + b == b;
    } else {
      assert (a + b)[1..] == a[1..] + b;
      ScanConcat(ScanByte(st, a[0]), a[1..], b);
    }
  }

  /** Text without quotes, backslashes or brackets leaves the state outside strings. */
  lemma {:induction false} ScanPlain(st: ScanState, t: seq<int>)
    requires !st.quoted
    requires forall i | 0 <= i < |t| ::
               t[i] != QUOTE && t[i] != OPEN_LIST && t[i] != OPEN_OBJECT && t[i] != CLOSE_LIST && t[i] != CLOSE_OBJECT
    ensures Scan(st, t) == Some(st)
  {
    if t != [] { ScanPlain(st, t[1..]); }
  }

  /** Nothing inside a string counts, brackets and escaped quotes included. */
  lemma {:induction false} ScanEscaped(d: int, s: Text)
    ensures Scan(ScanState(d, true, false), Escape(s)) == Some(ScanState(d, true, false))
  {
    if s != [] {
      var e := EscapeChar(s[0]);
      ScanConcat(ScanState(d, true, false), e, Escape(s[1..]));
      ScanEscapedChar(d, s[0]);
      ScanEscaped(d, s[1..]);
    }
  }

  lemma ScanEscapedChar(d: int, c: Char)
    ensures Scan(ScanState(d, true, false), EscapeChar(c)) == Some(ScanState(d, true, false))
  {
    var e := EscapeChar(c);
    var inside := ScanState(d, true, false);
    if |e| >= 2 {
      assert e[1..][1..] == e[2..];
      assert e[0] == BACKSLASH && Scan(inside, e) == Scan(inside, e[2..]);
      if |e| == 6 { ScanQuotedPlain(inside, e[2..]); }
    } else {
      assert e == [c] && e[1..] == [];
    }
  }

  lemma {:induction false} ScanQuotedPlain(st: ScanState, t: seq<int>)
    requires st.quoted && !st.escaped
    requires forall i | 0 <= i < |t| :: t[i] != QUOTE && t[i] != BACKSLASH
    ensures Scan(st, t) == Some(st)
  {
    if t != [] { ScanQuotedPlain(st, t[1..]); }
  }

  lemma ScanQuoted(d: int, s: Text)
    ensures Scan(ScanState(d, false, false), Quote(s)) == Some(ScanState(d, false, false))
  {
    var out, inside := ScanState(d, false, false), ScanState(d, true, false);
    assert Quote(s) == [QUOTE] + (Escape(s) + [QUOTE]);
    ScanConcat(out, [QUOTE], Escape(s) + [QUOTE]);
    ScanConcat(inside, Escape(s), [QUOTE]);
    ScanEscaped(d, s);
  }

  /** The scan of text that nests `k` deep, from depth `d`. */
  function Nested(d: nat, k: nat): Option<ScanState> {
    if d + k > MAX_DEPTH then None else Some(ScanState(d, false, false))
  }

  lemma ScanBracketed(d: nat, open: Char, body: Text, close: Char, k: nat)
    requires d <= MAX_DEPTH && (open == OPEN_LIST || open == OPEN_OBJECT)
             && (close == CLOSE_LIST || close == CLOSE_OBJECT)
    requires d < MAX_DEPTH ==> Scan(ScanState(d + 1, false, false), body) == Nested(d + 1, k)
    ensures Scan(ScanState(d, false, false), [open] + body + [close]) == Nested(d, k + 1)
  {
    var out, inside := ScanState(d, false, false), ScanState(d + 1, false, false);
    assert [open] + body + [close] == [open] + (body + [close]);
    ScanConcat(out, [open], body + [close]);
    ScanConcat(inside, body, [close]);
    assert Scan(out, [open]) == if d == MAX_DEPTH then None else Some(inside);
  }

  /** Two texts with a comma or a colon between them. */
  lemma ScanPair(d: nat, a: Text, separator: Char, b: Text, j: nat, k: nat)
    requires d <= MAX_DEPTH && (separator == COMMA || separator == COLON)
    requires Scan(ScanState(d, false, false), a) == Nested(d, j)
    requires Scan(ScanState(d, false, false), b) == Nested(d, k)
    ensures Scan(ScanState(d, false, false), a + [separator] + b) == Nested(d, Max(j, k))
  {
    var out := ScanState(d, false, false);
    assert a + [separator] + b == a + ([separator] + b);
    ScanConcat(out, a, [separator] + b);
    ScanConcat(out, [separator], b);
  }

  lemma {:induction false} ScanElements(d: nat, es: seq<Json>)
    requires d <= MAX_DEPTH
    ensures Scan(ScanState(d, false, false), PrintElements(es)) == Nested(d, ElementsDepth(es))
    decreases es, 1
  {
    if es != [] {
      hide Scan;
      ScanPrinted(d, es[0]);
      if |es| > 1 {
        ScanElements(d, es[1..]);
        ScanPair(d, Print(es[0]), COMMA, PrintElements(es[1..]), Depth(es[0]), ElementsDepth(es[1..]));
      }
    }
  }

  lemma {:induction false} ScanMember(d: nat, m: Member)
    requires d <= MAX_DEPTH
    ensures Scan(ScanState(d, false, false), PrintMember(m)) == Nested(d, Depth(m.value))
    decreases m, 1
  {
    hide Scan;
    ScanQuoted(d, m.key);
    ScanPrinted(d, m.value);
    ScanPair(d, Quote(m.key), COLON, Print(m.value), 0, Depth(m.value));
  }

  lemma {:induction false} ScanMembers(d: nat, ms: seq<Member>)
    requires d <= MAX_DEPTH
    ensures Scan(ScanState(d, false, false), PrintMembers(ms)) == Nested(d, MembersDepth(ms))
    decreases ms, 2
  {
    if ms != [] {
      hide Scan;
      ScanMember(d, ms[0]);
      if |ms| > 1 {
        ScanMembers(d, ms[1..]);
        ScanPair(d, PrintMember(ms[0]), COMMA, PrintMembers(ms[1..]), Depth(ms[0].value), MembersDepth(ms[1..]));
      }
    }
  }

  /** On printed text the scanner fails exactly where the nesting of the tree exceeds the limit. */
  lemma {:induction false} ScanPrinted(d: nat, v: Json)
    requires d <= MAX_DEPTH
    ensures Scan(ScanState(d, false, false), Print(v)) == Nested(d, Depth(v))
    decreases v, 1
  {
    hide Scan;
    match v {
      case Arr(es) =>
        if d < MAX_DEPTH { ScanElements(d + 1, es); }
        ScanBracketed(d, OPEN_LIST, PrintElements(es), CLOSE_LIST, ElementsDepth(es));
      case Obj(ms) =>
        if d < MAX_DEPTH { ScanMembers(d + 1, ms); }
        ScanBracketed(d, OPEN_OBJECT, PrintMembers(ms), CLOSE_OBJECT, MembersDepth(ms));
      case Str(s) => ScanQuoted(d, s);
      case _ => ScanPlain(ScanState(d, false, false), Print(v));
    }
  }

  /** Scanning the octets of a text is scanning its code points. */
  lemma {:induction false} ScanEncoded(st: ScanState, t: Text)
    requires Encode(t).Some?
    ensures Scan(st, Encode(t).value) == Scan(st, t)
    decreases |t|
  {
    if t != [] {
      var e := EncodeChar(t[0]);
      ScanConcat(st, e, Encode(t[1..]).value);
      if t[0] >= 0x80 {
        ScanHigh(st, e);
        ScanEncoded(ScanByte(st, t[0]), t[1..]);
        assert ScanByte(ScanByte(st, t[0]), t[0]) == ScanByte(st, t[0]);
      } else {
        assert Scan(st, e) == if Opens(st, t[0]) && ScanByte(st, t[0]).depth > MAX_DEPTH then None
                              else Scan(ScanByte(st, t[0]), e[1..]);
        ScanEncoded(ScanByte(st, t[0]), t[1..]);
      }
    }
  }

  /** Octets beyond ASCII only end an escape. */
  lemma {:induction false} ScanHigh(st: ScanState, b: bytes)
    requires b != [] && forall i | 0 <= i < |b| :: b[i] >= 0x80
    ensures Scan(st, b) == Some(if st.quoted && st.escaped then st.(escaped := false) else st)
    decreases |b|
  {
    if |b| > 1 { ScanHigh(ScanByte(st, b[0]), b[1..]); }
  }
}
