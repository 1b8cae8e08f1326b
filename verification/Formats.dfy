/**
 * `formats.py`: canonical encoding with sorted keys, and the strict loader that accepts exactly the
 * canonical encodings within its limits.
 */
module Formats {
  import opened Prelude
  import opened Utf8
  import opened Json
  import opened JsonRoundTrip
  import opened JsonDepth
  import opened Sorting

  // ---- sorted keys --------------------------------------------------------------------------

  predicate SortedKeys(ms: seq<Member>) { forall i, j | 0 <= i < j < |ms| :: Before(ms[i].key, ms[j].key) }

  function Insert(m: Member, ms: seq<Member>): (r: seq<Member>)
    ensures forall x :: x in r <==> x == m || x in ms
  {
    if ms == [] || !Before(ms[0].key, m.key) then [m] + ms
    else
      var rest := Insert(m, ms[1..]);
      assert forall x :: x in ms <==> x == ms[0] || x in ms[1..];
      [ms[0]] + rest
  }

  /** The members in the order of their keys. */
  function SortMembers(ms: seq<Member>): (r: seq<Member>)
    ensures forall x :: x in r <==> x in ms
  {
    if ms == [] then []
    else
      assert forall x :: x in ms <==> x == ms[0] || x in ms[1..];
      Insert(ms[0], SortMembers(ms[1..]))
  }

  /** The same value with every object in the order of its keys: equality of Python dicts. */
  function SortTree(v: Json): Json
    decreases v
  {
    match v
    case Arr(es) => Arr(SortElements(es))
    case Obj(ms) => Obj(SortMembers(SortValues(ms)))
    case _ => v
  }

  function SortElements(es: seq<Json>): (r: seq<Json>)
    ensures |r| == |es| && forall i | 0 <= i < |es| :: r[i] == SortTree(es[i])
    decreases es
  {
    if es == [] then [] else [SortTree(es[0])] + SortElements(es[1..])
  }

  function SortValues(ms: seq<Member>): (r: seq<Member>)
    ensures |r| == |ms| && forall i | 0 <= i < |ms| :: r[i].key == ms[i].key && r[i].value == SortTree(ms[i].value)
    decreases ms
  {
    if ms == [] then [] else [Member(ms[0].key, SortTree(ms[0].value))] + SortValues(ms[1..])
  }

  /** Every object of the value lists its members in the strict order of their keys. */
  predicate Normal(v: Json)
    decreases v
  {
    match v
    case Arr(es) => forall i | 0 <= i < |es| :: Normal(es[i])
    case Obj(ms) => SortedKeys(ms) && forall i | 0 <= i < |ms| :: Normal(ms[i].value)
    case _ => true
  }

  // ---- encoding and loading -----------------------------------------------------------------

  /** `canonical`: compact, sorted keys, UTF-8; None is the error on a lone surrogate. */
  function Canonical(v: Json): Option<bytes> { Encode(Print(SortTree(v))) }

  /** `loads`: limits first, then UTF-8, then the strict parser, then the re-encoding check. */
  function Loads(raw: bytes): Result<Json, Error> {
    if |raw| >= MAX_LINE then Err(Corrupt)
    else if Scan(OUTSIDE, raw).None? then Err(Limit)
    else
      match Decode(raw)
      case None => Err(Corrupt)
      case Some(text) =>
        match Parse(text)
        case Err(e) => Err(e)
        case Ok(v) => if Canonical(v) == Some(raw) then Ok(v) else Err(Corrupt)
  }

  function KeySet(ms: seq<Member>): set<Text> { set m | m in ms :: m.key }

  lemma OneMorePair(pairs: seq<Member>, n: nat)
    requires n < |pairs| && Distinct(pairs[..n])
    ensures KeySet(pairs[..n + 1]) == KeySet(pairs[..n]) + {pairs[n].key}
    ensures Distinct(pairs[..n + 1]) <==> pairs[n].key !in KeySet(pairs[..n])
    ensures Distinct(pairs) ==> Distinct(pairs[..n + 1])
  {
    var before := pairs[..n];
    assert pairs[..n + 1] == before + [pairs[n]];
    if pairs[n].key in KeySet(before) {
      var i :| 0 <= i < n && before[i].key == pairs[n].key;
      assert pairs[..n + 1][i].key == pairs[..n + 1][n].key;
    } else {
      forall i | 0 <= i < n ensures before[i].key != pairs[n].key { assert before[i] in before; }
    }
  }

  /** `_pairs`: fill a dict, refusing a repeated key. */
  method Pairs(pairs: seq<Member>) returns (ok: bool, result: map<Text, Json>)
    ensures ok <==> Distinct(pairs)
    ensures ok ==> result.Keys == KeySet(pairs)
    ensures ok ==> forall i | 0 <= i < |pairs| :: result[pairs[i].key] == pairs[i].value
  {
    hide Distinct, KeySet;
    result := map[];
    NoPairs();
    for i := 0 to |pairs|
      invariant Distinct(pairs[..i])
      invariant result.Keys == KeySet(pairs[..i])
      invariant forall j | 0 <= j < i :: pairs[j].key in result && result[pairs[j].key] == pairs[j].value
    {
      OneMorePair(pairs, i);
      if pairs[i].key in result { return false, result; }
      result := result[pairs[i].key := pairs[i].value];
    }
    assert pairs[..|pairs|] == pairs;
    ok := true;
  }

  lemma NoPairs()
    ensures Distinct([]) && KeySet([]) == {}
  {
  }

  // ---- sorting keeps what matters -------------------------------------------------------------

  lemma {:induction false} InsertSorted(m: Member, ms: seq<Member>)
    requires SortedKeys(ms) && forall x | x in ms :: x.key != m.key
    ensures SortedKeys(Insert(m, ms))
  {
    if ms == [] {
    } else if !Before(ms[0].key, m.key) {
      BeforeTotal(ms[0].key, m.key);
      assert ms[0] in ms;
      forall j | 0 < j < |ms| ensures Before(m.key, ms[j].key) { BeforeTransitive(m.key, ms[0].key, ms[j].key); }
    } else {
      InsertSorted(m, ms[1..]);
      var r := Insert(m, ms[1..]);
      forall j | 0 <= j < |r| ensures Before(ms[0].key, r[j].key) {
        assert r[j] in r;
        if r[j] != m { var k :| 0 <= k < |ms[1..]| && ms[1..][k] == r[j]; }
      }
    }
  }

  lemma {:induction false} SortMembersSorted(ms: seq<Member>)
    requires Distinct(ms)
    ensures SortedKeys(SortMembers(ms))
  {
    if ms != [] {
      SortMembersSorted(ms[1..]);
      forall x | x in SortMembers(ms[1..]) ensures x.key != ms[0].key {
        var k :| 0 <= k < |ms[1..]| && ms[1..][k] == x;
        assert x == ms[k + 1];
      }
      InsertSorted(ms[0], SortMembers(ms[1..]));
    }
  }

  lemma {:induction false} SortSortedMembers(ms: seq<Member>)
    requires SortedKeys(ms)
    ensures SortMembers(ms) == ms
  {
    if ms != [] {
      SortSortedMembers(ms[1..]);
      if |ms| > 1 { BeforeTotal(ms[0].key, ms[1].key); }
      assert [ms[0]] + ms[1..] == ms;
    }
  }

  lemma {:induction false} InsertDepth(m: Member, ms: seq<Member>)
    ensures MembersDepth(Insert(m, ms)) == Max(Depth(m.value), MembersDepth(ms))
  {
    if ms == [] || !Before(ms[0].key, m.key) {
      assert ([m] + ms)[1..] == ms;
    } else {
      InsertDepth(m, ms[1..]);
      assert Insert(m, ms)[1..] == Insert(m, ms[1..]);
    }
  }

  lemma {:induction false} SortMembersDepth(ms: seq<Member>)
    ensures MembersDepth(SortMembers(ms)) == MembersDepth(ms)
  {
    if ms != [] {
      SortMembersDepth(ms[1..]);
      InsertDepth(ms[0], SortMembers(ms[1..]));
    }
  }

  /** Sorting changes neither the nesting nor the bound on integers, and gives a normal value. */
  lemma {:induction false} SortTreeKeeps(v: Json)
    ensures Depth(SortTree(v)) == Depth(v)
    ensures IntsBounded(SortTree(v)) <==> IntsBounded(v)
    ensures DistinctKeys(v) ==> Normal(SortTree(v))
    decreases v, 1
  {
    match v {
      case Arr(es) => SortElementsKeeps(es);
      case Obj(ms) => SortObjKeeps(ms);
      case _ =>
    }
  }

  lemma {:induction false} SortObjKeeps(ms: seq<Member>)
    ensures Depth(SortTree(Obj(ms))) == Depth(Obj(ms))
    ensures IntsBounded(SortTree(Obj(ms))) <==> IntsBounded(Obj(ms))
    ensures DistinctKeys(Obj(ms)) ==> Normal(SortTree(Obj(ms)))
    decreases ms, 3
  {
    hide SortMembers, SortValues, MembersDepth, Distinct, SortedKeys;
    var values := SortValues(ms);
    SortValuesKeeps(ms);
    SortMembersDepth(values);
    SortObjectKeeps(values);
    assert SortTree(Obj(ms)) == Obj(SortMembers(values));
  }

  lemma {:induction false} SameElementsDepth(es: seq<Json>, r: seq<Json>)
    requires |r| == |es| && forall i | 0 <= i < |es| :: Depth(r[i]) == Depth(es[i])
    ensures ElementsDepth(r) == ElementsDepth(es)
  {
    if es != [] { SameElementsDepth(es[1..], r[1..]); }
  }

  lemma {:induction false} SameMembersDepth(ms: seq<Member>, r: seq<Member>)
    requires |r| == |ms| && forall i | 0 <= i < |ms| :: Depth(r[i].value) == Depth(ms[i].value)
    ensures MembersDepth(r) == MembersDepth(ms)
  {
    if ms != [] { SameMembersDepth(ms[1..], r[1..]); }
  }

  lemma {:induction false} SortElementsKeeps(es: seq<Json>)
    ensures ElementsDepth(SortElements(es)) == ElementsDepth(es)
    ensures ElementsBounded(SortElements(es)) <==> ElementsBounded(es)
    ensures (forall e | e in es :: DistinctKeys(e)) ==> forall e | e in SortElements(es) :: Normal(e)
    decreases es, 2
  {
    hide SortTree, Depth, IntsBounded, DistinctKeys, Normal;
    var r := SortElements(es);
    forall i | 0 <= i < |es|
      ensures Depth(r[i]) == Depth(es[i]) && (IntsBounded(r[i]) <==> IntsBounded(es[i]))
      ensures DistinctKeys(es[i]) ==> Normal(r[i])
    {
      SortTreeKeeps(es[i]);
    }
    SameElementsDepth(es, r);
  }

  lemma {:induction false} SortValuesKeeps(ms: seq<Member>)
    ensures MembersDepth(SortValues(ms)) == MembersDepth(ms)
    ensures MembersBounded(SortValues(ms)) <==> MembersBounded(ms)
    ensures Distinct(ms) ==> Distinct(SortValues(ms))
    ensures (forall m | m in ms :: DistinctKeys(m.value)) ==> forall m | m in SortValues(ms) :: Normal(m.value)
    decreases ms, 2
  {
    hide SortTree, Depth, IntsBounded, DistinctKeys, Normal;
    var r := SortValues(ms);
    forall i | 0 <= i < |ms|
      ensures Depth(r[i].value) == Depth(ms[i].value) && (IntsBounded(r[i].value) <==> IntsBounded(ms[i].value))
      ensures DistinctKeys(ms[i].value) ==> Normal(r[i].value)
    {
      SortTreeKeeps(ms[i].value);
    }
    SameMembersDepth(ms, r);
    if forall m | m in ms :: DistinctKeys(m.value) {
      forall m | m in r ensures Normal(m.value) {
        var k :| 0 <= k < |r| && r[k] == m;
        assert ms[k] in ms;
      }
    }
  }

  lemma SortObjectKeeps(ms: seq<Member>)
    ensures MembersBounded(SortMembers(ms)) <==> MembersBounded(ms)
    ensures Distinct(ms) && (forall m | m in ms :: Normal(m.value)) ==> Normal(Obj(SortMembers(ms)))
  {
    var r := SortMembers(ms);
    assert MembersBounded(ms) <==> forall m | m in ms :: IntsBounded(m.value);
    assert MembersBounded(r) <==> forall m | m in r :: IntsBounded(m.value);
    if Distinct(ms) {
      SortMembersSorted(ms);
    }
  }

  /** A normal value is sorted already, and repeats no key. */
  lemma {:induction false} NormalIsSorted(v: Json)
    requires Normal(v)
    ensures SortTree(v) == v && DistinctKeys(v)
    decreases v
  {
    match v {
      case Arr(es) =>
        forall i | 0 <= i < |es| ensures SortTree(es[i]) == es[i] && DistinctKeys(es[i]) { NormalIsSorted(es[i]); }
        assert SortElements(es) == es;
      case Obj(ms) =>
        forall i | 0 <= i < |ms| ensures SortTree(ms[i].value) == ms[i].value && DistinctKeys(ms[i].value) {
          NormalIsSorted(ms[i].value);
        }
        assert SortValues(ms) == ms;
        SortSortedMembers(ms);
        forall i, j | 0 <= i < j < |ms| ensures ms[i].key != ms[j].key { BeforeIrreflexive(ms[i].key); }
      case _ =>
    }
  }

  // ---- what the parser returns ----------------------------------------------------------------

  lemma {:induction false} DigitsOfNumber(t: Text)
    requires t != [] && forall i | 0 <= i < |t| :: IsDigit(t[i])
    ensures |Digits(Number(t))| <= |t|
  {
    if |t| == 1 {
      assert t[..0] == [];
    } else {
      DigitsOfNumber(t[..|t| - 1]);
      var n := Number(t[..|t| - 1]);
      assert Number(t) / 10 == n;
    }
  }

  lemma ParsedIntIsBounded(s: Text)
    requires ParseNumber(s).Ok?
    ensures DistinctKeys(ParseNumber(s).value.value) && IntsBounded(ParseNumber(s).value.value)
  {
    var t := if s != [] && s[0] == MINUS then s[1..] else s;
    var run := DigitRun(t);
    DigitsOfNumber(t[..if t[0] == 0x30 then 1 else run]);
  }

  /** A parsed value repeats no key and holds no integer beyond the limit. */
  lemma {:induction false} ParsedIsGood(s: Text)
    requires ParseValue(s).Ok?
    ensures DistinctKeys(ParseValue(s).value.value) && IntsBounded(ParseValue(s).value.value)
    decreases |s|, 1
  {
    if s[0] == QUOTE {
    } else if s[0] == OPEN_LIST {
      var t := SkipSpace(s[1..]);
      if !(t != [] && t[0] == CLOSE_LIST) { ParsedElementsAreGood(t); }
    } else if s[0] == OPEN_OBJECT {
      var t := SkipSpace(s[1..]);
      if !(t != [] && t[0] == CLOSE_OBJECT) { ParsedMembersAreGood(t); }
    } else if NULL <= s || TRUE <= s || FALSE <= s {
    } else {
      ParsedIntIsBounded(s);
    }
  }

  lemma {:induction false} ParsedElementsAreGood(s: Text)
    requires ParseElements(s).Ok?
    ensures forall i | 0 <= i < |ParseElements(s).value.value| ::
              DistinctKeys(ParseElements(s).value.value[i]) && IntsBounded(ParseElements(s).value.value[i])
    decreases |s|, 2
  {
    hide ParseValue, DistinctKeys, IntsBounded;
    ParsedIsGood(s);
    var t := SkipSpace(ParseValue(s).value.rest);
    if t[0] != CLOSE_LIST { ParsedElementsAreGood(SkipSpace(t[1..])); }
  }

  lemma {:induction false} ParsedMembersAreGood(s: Text)
    requires ParseMembers(s).Ok?
    ensures forall i | 0 <= i < |ParseMembers(s).value.value| ::
              DistinctKeys(ParseMembers(s).value.value[i].value) && IntsBounded(ParseMembers(s).value.value[i].value)
    decreases |s|, 3
  {
    hide ParseMember, DistinctKeys, IntsBounded;
    ParsedMemberIsGood(s);
    var t := SkipSpace(ParseMember(s).value.rest);
    if t[0] != CLOSE_OBJECT { ParsedMembersAreGood(SkipSpace(t[1..])); }
  }

  lemma {:induction false} ParsedMemberIsGood(s: Text)
    requires ParseMember(s).Ok?
    ensures DistinctKeys(ParseMember(s).value.value.value) && IntsBounded(ParseMember(s).value.value.value)
    decreases |s|, 2
  {
    hide ParseValue, DistinctKeys, IntsBounded;
    var k := ParseChars(s[1..]).value;
    var t := SkipSpace(k.rest);
    ParsedIsGood(SkipSpace(t[1..]));
  }

  // ---- the loader ---------------------------------------------------------------------------

  /** Parsing a printed value. */
  lemma ParsePrintedText(v: Json)
    requires DistinctKeys(v)
    ensures Parse(Print(v)) == if IntsBounded(v) then Ok(v) else Err(Limit)
  {
    PrintStarts(v);
    ParsePrinted(v, []);
    assert Print(v) + [] == Print(v);
  }

  /** The scanner, on an encoding: it fails exactly where the tree is too deep. */
  lemma ScanCanonical(v: Json)
    requires Canonical(v).Some?
    ensures Scan(OUTSIDE, Canonical(v).value).Some? <==> Depth(v) <= MAX_DEPTH
  {
    hide Scan, Depth, Print, SortTree;
    SortTreeKeeps(v);
    ScanEncoded(OUTSIDE, Print(SortTree(v)));
    ScanPrinted(0, SortTree(v));
  }

  /**
   * Loading a canonical encoding gives the value back, as a dict, or reports the limit: exactly when
   * the value nests too deep or holds too long an integer.
   */
  lemma LoadsCanonical(v: Json, raw: bytes)
    requires DistinctKeys(v) && Canonical(v) == Some(raw) && |raw| < MAX_LINE
    ensures Loads(raw) == if Depth(v) <= MAX_DEPTH && IntsBounded(v) then Ok(SortTree(v)) else Err(Limit)
  {
    hide Scan, Depth, Print, SortTree, Parse, IntsBounded, DistinctKeys, Normal, Encode, Decode;
    ScanCanonical(v);
    SortTreeKeeps(v);
    NormalIsSorted(SortTree(v));
    DecodeEncode(Print(SortTree(v)), raw);
    ParsePrintedText(SortTree(v));
  }

  /**
   * What the strict loader accepts: exactly the canonical encodings below the size, depth and digit
   * limits, each as the normal value that it encodes.
   */
  lemma LoadsExactly(raw: bytes, v: Json)
    ensures Loads(raw) == Ok(v)
            <==> Normal(v) && Canonical(v) == Some(raw) && |raw| < MAX_LINE && Depth(v) <= MAX_DEPTH && IntsBounded(v)
  {
    hide Scan, Depth, Print, SortTree, Parse, IntsBounded, DistinctKeys, Normal, Encode, Decode;
    if Loads(raw) == Ok(v) {
      var text := Decode(raw).value;
      ParsedTextIsGood(text);
      LoadsCanonical(v, raw);
      SortTreeKeeps(v);
    } else if Normal(v) {
      NormalIsSorted(v);
      if Canonical(v) == Some(raw) && |raw| < MAX_LINE { LoadsCanonical(v, raw); }
    }
  }

  /** `w` is the value or lies somewhere in it. */
  predicate IsPart(w: Json, v: Json)
    decreases v
  {
    w == v
    || (match v
        case Arr(es) => exists i | 0 <= i < |es| :: IsPart(w, es[i])
        case Obj(ms) => exists i | 0 <= i < |ms| :: IsPart(w, ms[i].value)
        case _ => false)
  }

  /** The keys increase in their first differing code point. */
  ghost predicate KeysIncrease(ms: seq<Member>) {
    forall i, j | 0 <= i < j < |ms| :: Precedes(ms[i].key, ms[j].key)
  }

  lemma SortedIncrease(ms: seq<Member>)
    ensures SortedKeys(ms) <==> KeysIncrease(ms)
  {
    hide Before, Precedes;
    forall i, j | 0 <= i < j < |ms| ensures Before(ms[i].key, ms[j].key) <==> Precedes(ms[i].key, ms[j].key) {
      BeforeIsFirstDifference(ms[i].key, ms[j].key);
    }
  }

  /** A value is normal exactly if the keys of every object in it increase. */
  lemma {:induction false} NormalIsIncreasing(v: Json)
    ensures Normal(v) <==> forall ms | IsPart(Obj(ms), v) :: KeysIncrease(ms)
    decreases v
  {
    hide SortedKeys, KeysIncrease;
    match v
    case Arr(es) =>
      forall i | 0 <= i < |es| ensures Normal(es[i]) <==> forall ms | IsPart(Obj(ms), es[i]) :: KeysIncrease(ms) {
        NormalIsIncreasing(es[i]);
      }
      forall i, ms | 0 <= i < |es| && IsPart(Obj(ms), es[i]) ensures IsPart(Obj(ms), v) { }
    case Obj(members) =>
      SortedIncrease(members);
      forall i | 0 <= i < |members|
        ensures Normal(members[i].value) <==> forall ms | IsPart(Obj(ms), members[i].value) :: KeysIncrease(ms)
      {
        NormalIsIncreasing(members[i].value);
      }
      forall i, ms | 0 <= i < |members| && IsPart(Obj(ms), members[i].value) ensures IsPart(Obj(ms), v) { }
      assert IsPart(Obj(members), v);
    case _ =>
  }

  /** The integers are bounded exactly if each is smaller than ten to the power of 128. */
  lemma {:induction false} BoundedIsBelow(v: Json)
    ensures IntsBounded(v) <==> forall n | IsPart(Int(n), v) :: n < Power10(128) && -n < Power10(128)
    decreases v
  {
    hide Digits, Power10;
    match v
    case Int(n) =>
      DigitsBound(Magnitude(n), 128);
      assert IsPart(Int(n), v);
    case Arr(es) =>
      forall i | 0 <= i < |es|
        ensures IntsBounded(es[i]) <==> forall n | IsPart(Int(n), es[i]) :: n < Power10(128) && -n < Power10(128)
      {
        BoundedIsBelow(es[i]);
      }
      forall i, n | 0 <= i < |es| && IsPart(Int(n), es[i]) ensures IsPart(Int(n), v) { }
    case Obj(members) =>
      forall i | 0 <= i < |members|
        ensures IntsBounded(members[i].value)
                <==> forall n | IsPart(Int(n), members[i].value) :: n < Power10(128) && -n < Power10(128)
      {
        BoundedIsBelow(members[i].value);
      }
      forall i, n | 0 <= i < |members| && IsPart(Int(n), members[i].value) ensures IsPart(Int(n), v) { }
    case _ =>
  }

  /** What the loader accepts, in numbers: size, depth, the order of the keys, and the size of the integers. */
  lemma LoadsWithin(raw: bytes, v: Json)
    ensures Loads(raw) == Ok(v)
            <==> && Canonical(v) == Some(raw) && |raw| < 262144 && Depth(v) <= 32
                 && (forall ms | IsPart(Obj(ms), v) :: KeysIncrease(ms))
                 && (forall n | IsPart(Int(n), v) :: n < Power10(128) && -n < Power10(128))
  {
    hide Loads, Normal, IsPart, KeysIncrease, IntsBounded, Canonical, Depth, Power10;
    LoadsExactly(raw, v);
    NormalIsIncreasing(v);
    BoundedIsBelow(v);
  }

  /** In whatever the loader returns, the members of every object increase in their first differing code point. */
  lemma LoadedKeysIncrease(raw: bytes, v: Json, ms: seq<Member>)
    requires Loads(raw) == Ok(v) && IsPart(Obj(ms), v)
    ensures KeysIncrease(ms)
  {
    hide Loads, Normal, IsPart, KeysIncrease;
    LoadsExactly(raw, v);
    NormalIsIncreasing(v);
  }

  /** What the parser accepts repeats no key and has no integer beyond the limit. */
  lemma ParsedTextIsGood(text: Text)
    requires Parse(text).Ok?
    ensures DistinctKeys(Parse(text).value) && IntsBounded(Parse(text).value)
  {
    ParsedIsGood(SkipSpace(text));
  }

  /** Within the limits two values have one encoding only if they are equal as dicts. */
  lemma CanonicalIsInjective(v: Json, w: Json)
    requires DistinctKeys(v) && DistinctKeys(w) && IntsBounded(v) && IntsBounded(w)
    requires Canonical(v).Some? && Canonical(v) == Canonical(w)
    ensures SortTree(v) == SortTree(w)
  {
    hide Print, SortTree, Parse, IntsBounded, DistinctKeys, Normal, Encode;
    SortTreeKeeps(v);
    SortTreeKeeps(w);
    NormalIsSorted(SortTree(v));
    NormalIsSorted(SortTree(w));
    DecodeEncode(Print(SortTree(v)), Canonical(v).value);
    DecodeEncode(Print(SortTree(w)), Canonical(w).value);
    ParsePrintedText(SortTree(v));
    ParsePrintedText(SortTree(w));
  }
}
