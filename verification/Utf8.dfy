/** Strict UTF-8 (RFC 3629): text is a sequence of code points, surrogates included but not encodable. */
module Utf8 {
  import opened Prelude

  type Char = c: int | 0 <= c < 0x110000
  type Text = seq<Char>

  predicate Surrogate(c: Char) { 0xD800 <= c < 0xE000 }

  /** The octets of one code point. */
  function EncodeChar(c: Char): (b: bytes)
    ensures 1 <= |b| <= 4
    ensures if c < 0x80 then b == [c as byte] else forall i | 0 <= i < |b| :: b[i] >= 0x80
  {
    if c < 0x80 then [c as byte]
    else if c < 0x800 then [(0xC0 + c / 64) as byte, Tail(c)]
    else if c < 0x10000 then [(0xE0 + c / 4096) as byte, Tail(c / 64), Tail(c)]
    else [(0xF0 + c / 262144) as byte, Tail(c / 4096), Tail(c / 64), Tail(c)]
  }

  function Tail(c: Char): byte { (0x80 + c % 64) as byte }

  /** Python's `text.encode("utf-8")`; None is its UnicodeEncodeError on a surrogate. */
  function Encode(t: Text): Option<bytes> {
    if t == [] then Some([])
    else if Surrogate(t[0]) then None
    else
      match Encode(t[1..])
      case None => None
      case Some(rest) => Some(EncodeChar(t[0]) + rest)
  }

  datatype Decoded = Decoded(c: Char, width: nat)

  predicate IsTail(b: byte) { 0x80 <= b < 0xC0 }

  function Bits(b: byte): int
    requires IsTail(b)
  {
    b - 0x80
  }

  /** The first code point of `b`, None when it is malformed, overlong, a surrogate or too large. */
  function DecodeFirst(b: bytes): (r: Option<Decoded>)
    requires b != []
    ensures r.Some? ==> 1 <= r.value.width <= |b|
  {
    if b[0] < 0x80 then Some(Decoded(b[0] as int, 1))
    else if 0xC2 <= b[0] < 0xE0 && |b| >= 2 && IsTail(b[1]) then
      Some(Decoded((b[0] - 0xC0) * 64 + Bits(b[1]), 2))
    else if 0xE0 <= b[0] < 0xF0 && |b| >= 3 && IsTail(b[1]) && IsTail(b[2]) then
      var c := (b[0] - 0xE0) * 4096 + Bits(b[1]) * 64 + Bits(b[2]);
      if c < 0x800 || Surrogate(c) then None else Some(Decoded(c, 3))
    else if 0xF0 <= b[0] < 0xF5 && |b| >= 4 && IsTail(b[1]) && IsTail(b[2]) && IsTail(b[3]) then
      var c := (b[0] - 0xF0) * 262144 + Bits(b[1]) * 4096 + Bits(b[2]) * 64 + Bits(b[3]);
      if c < 0x10000 || c >= 0x110000 then None else Some(Decoded(c, 4))
    else None
  }

  /** Python's `raw.decode("utf-8")`; None is its UnicodeDecodeError. */
  function Decode(b: bytes): Option<Text>
    decreases |b|
  {
    if b == [] then Some([])
    else
      match DecodeFirst(b)
      case None => None
      case Some(first) =>
        match Decode(b[first.width..])
        case None => None
        case Some(rest) => Some([first.c] + rest)
  }

  /** The six-bit groups of a code point. */
  lemma Groups(c: nat, g3: nat, g2: nat, g1: nat, g0: nat)
    requires c == g3 * 262144 + g2 * 4096 + g1 * 64 + g0 && g2 < 64 && g1 < 64 && g0 < 64
    ensures c % 64 == g0 && c / 64 % 64 == g1 && c / 4096 % 64 == g2 && c / 262144 == g3
    ensures c / 4096 == g3 * 64 + g2 && c / 64 == g3 * 4096 + g2 * 64 + g1
  {
    assert c / 64 == g3 * 4096 + g2 * 64 + g1;
    assert c / 4096 == g3 * 64 + g2;
  }

  /** The octets of a code point by its six-bit groups: the table of RFC 3629, section 3. */
  lemma OctetsAre(c: Char, g3: nat, g2: nat, g1: nat, g0: nat)
    requires c == g3 * 262144 + g2 * 4096 + g1 * 64 + g0 && g2 < 64 && g1 < 64 && g0 < 64
    ensures var b := EncodeChar(c);
            if c <= 0x7F then |b| == 1 && b[0] == c
            else if c <= 0x7FF then |b| == 2 && b[0] == 192 + g1 && b[1] == 128 + g0
            else if c <= 0xFFFF then |b| == 3 && b[0] == 224 + g2 && b[1] == 128 + g1 && b[2] == 128 + g0
            else |b| == 4 && b[0] == 240 + g3 && b[1] == 128 + g2 && b[2] == 128 + g1 && b[3] == 128 + g0
    ensures Encode([c]) == if 0xD800 <= c <= 0xDFFF then None else Some(EncodeChar(c))
  {
    Groups(c, g3, g2, g1, g0);
    assert [c][1..] == [] && EncodeChar(c) + [] == EncodeChar(c);
  }

  lemma GroupsOf(c: nat) returns (g3: nat, g2: nat, g1: nat, g0: nat)
    ensures c == g3 * 262144 + g2 * 4096 + g1 * 64 + g0 && g2 < 64 && g1 < 64 && g0 < 64
  {
    var a := c / 64;
    var b := a / 64;
    g0, g1, g2, g3 := c % 64, a % 64, b % 64, b / 64;
  }

  lemma DecodeEncodedChar(c: Char, rest: bytes)
    requires !Surrogate(c)
    ensures DecodeFirst(EncodeChar(c) + rest) == Some(Decoded(c, |EncodeChar(c)|))
  {
    var b := EncodeChar(c) + rest;
    var e := EncodeChar(c);
    var g3, g2, g1, g0 := GroupsOf(c);
    Groups(c, g3, g2, g1, g0);
    if c < 0x80 {
    } else if c < 0x800 {
      assert g3 == g2 == 0;
      assert e == [(0xC0 + g1) as byte, (0x80 + g0) as byte];
      assert b[0] == e[0] && b[1] == e[1];
    } else if c < 0x10000 {
      assert g3 == 0;
      assert e == [(0xE0 + g2) as byte, (0x80 + g1) as byte, (0x80 + g0) as byte];
      assert b[0] == e[0] && b[1] == e[1] && b[2] == e[2];
    } else {
      assert e == [(0xF0 + g3) as byte, (0x80 + g2) as byte, (0x80 + g1) as byte, (0x80 + g0) as byte];
      assert b[0] == e[0] && b[1] == e[1] && b[2] == e[2] && b[3] == e[3];
    }
  }

  lemma EncodeDecodedFirst(b: bytes)
    requires b != [] && DecodeFirst(b).Some?
    ensures var first := DecodeFirst(b).value;
            !Surrogate(first.c) && EncodeChar(first.c) == b[..first.width]
  {
    var first := DecodeFirst(b).value;
    if first.width == 2 {
      Groups(first.c, 0, 0, b[0] - 0xC0, Bits(b[1]));
      assert EncodeChar(first.c) == [b[0], b[1]];
    } else if first.width == 3 {
      Groups(first.c, 0, b[0] - 0xE0, Bits(b[1]), Bits(b[2]));
      assert EncodeChar(first.c) == [b[0], b[1], b[2]];
    } else if first.width == 4 {
      Groups(first.c, b[0] - 0xF0, Bits(b[1]), Bits(b[2]), Bits(b[3]));
      assert EncodeChar(first.c) == [b[0], b[1], b[2], b[3]];
    }
  }

  lemma {:induction false} DecodeEncode(t: Text, b: bytes)
    requires Encode(t) == Some(b)
    ensures Decode(b) == Some(t)
  {
    hide DecodeFirst, EncodeChar;
    if t == [] {
    } else {
      var rest := Encode(t[1..]).value;
      DecodeEncode(t[1..], rest);
      DecodeEncodedChar(t[0], rest);
      assert b[|EncodeChar(t[0])|..] == rest;
      assert [t[0]] + t[1..] == t;
    }
  }

  lemma {:induction false} EncodeDecode(b: bytes, t: Text)
    requires Decode(b) == Some(t)
    ensures Encode(t) == Some(b)
    decreases |b|
  {
    hide DecodeFirst, EncodeChar;
    if b == [] {
    } else {
      var first := DecodeFirst(b).value;
      EncodeDecode(b[first.width..], t[1..]);
      EncodeDecodedFirst(b);
      assert b == b[..first.width] + b[first.width..];
    }
  }

  /** Decoding is strict: it accepts exactly the encodings, each as the text it encodes. */
  lemma DecodesExactlyEncodings(b: bytes, t: Text)
    ensures Decode(b) == Some(t) <==> Encode(t) == Some(b)
  {
    if Decode(b) == Some(t) { EncodeDecode(b, t); }
    if Encode(t) == Some(b) { DecodeEncode(t, b); }
  }
}
