/**
 UTF-8 as src/util/json_parser.c writes it and as RFC 3629 defines it.  Used by module JsonString.
 */
module Utf8 {
  type Byte = b: int | 0 <= b < 256

  /** The code points that UTF-8 encodes: no surrogates (section 3 of RFC 3629). */
  predicate CodePoint(c: int) {
    0 <= c < 0xd800 || 0xe000 <= c <= 0x10ffff
  }

  /** The bytes that __parse_json_unicode writes */
  function Encode(c: int): (r: seq<Byte>)
    requires 0 <= c <= 0x10ffff
    ensures 1 <= |r| <= 4
  {
    if c <= 0x7f then [c]
    else if c <= 0x7ff then [0xc0 + c / 64, 0x80 + c % 64]
    else if c <= 0xffff then [0xe0 + c / 4096, 0x80 + c / 64 % 64, 0x80 + c % 64]
    else [0xf0 + c / 262144, 0x80 + c / 4096 % 64, 0x80 + c / 64 % 64, 0x80 + c % 64]
  }

  datatype Decoded = Malformed | Decoded(code: int, rest: seq<Byte>)

  predicate Continues(s: seq<Byte>, i: nat) {
    i < |s| && 0x80 <= s[i] <= 0xbf
  }

  /** The payload of byte i, of which `lead` are marker bits. */
  function Bits(s: seq<Byte>, i: nat, lead: int): int
    requires i < |s|
  {
    s[i] as int - lead
  }

  /** Reading one character by the table of section 4 of RFC 3629: shortest forms only, and no surrogates. */
  function Decode(s: seq<Byte>): Decoded {
    if s == [] then Malformed
    else if s[0] <= 0x7f then Decoded(s[0], s[1..])
    else if 0xc2 <= s[0] <= 0xdf && Continues(s, 1) then
      Decoded(Bits(s, 0, 0xc0) * 64 + Bits(s, 1, 0x80), s[2..])
    else if 0xe0 <= s[0] <= 0xef && Continues(s, 1) && Continues(s, 2) then
      var c := Bits(s, 0, 0xe0) * 4096 + Bits(s, 1, 0x80) * 64 + Bits(s, 2, 0x80);
      if c >= 0x800 && CodePoint(c) then Decoded(c, s[3..]) else Malformed
    else if 0xf0 <= s[0] <= 0xf4 && Continues(s, 1) && Continues(s, 2) && Continues(s, 3) then
      var c := Bits(s, 0, 0xf0) * 262144 + Bits(s, 1, 0x80) * 4096 + Bits(s, 2, 0x80) * 64 + Bits(s, 3, 0x80);
      if 0x10000 <= c <= 0x10ffff then Decoded(c, s[4..]) else Malformed
    else Malformed
  }

  lemma {:induction false} Split64(c: int)
    requires c >= 0
    ensures c == c / 64 * 64 + c % 64 && c / 64 == c / 4096 * 64 + c / 64 % 64
    ensures c / 4096 == c / 262144 * 64 + c / 4096 % 64
  {
    assert c / 64 / 64 == c / 4096;
    assert c / 4096 / 64 == c / 262144;
  }

  lemma {:induction false} ShortReadsBack(c: int, rest: seq<Byte>)
    requires 0 <= c <= 0x7ff
    ensures Decode(Encode(c) + rest) == Decoded(c, rest)
  {
    var s := Encode(c) + rest;
    assert s[|Encode(c)|..] == rest;
    assert s[0] == Encode(c)[0] && (c > 0x7f ==> s[1] == Encode(c)[1]);
  }

  lemma {:induction false} LongReadsBack(c: int, rest: seq<Byte>)
    requires CodePoint(c) && c > 0x7ff
    ensures Decode(Encode(c) + rest) == Decoded(c, rest)
  {
    Split64(c);
    var s := Encode(c) + rest;
    assert s[|Encode(c)|..] == rest;
    assert s[0] == Encode(c)[0] && s[1] == Encode(c)[1] && s[2] == Encode(c)[2]
           && (c > 0xffff ==> s[3] == Encode(c)[3]);
  }

  /** What is written for a code point reads back as that code point, whatever follows. */
  lemma {:induction false} EncodeReadsBack(c: int, rest: seq<Byte>)
    requires CodePoint(c)
    ensures Decode(Encode(c) + rest) == Decoded(c, rest)
  {
    if c <= 0x7ff {
      ShortReadsBack(c, rest);
    } else {
      LongReadsBack(c, rest);
    }
  }

  lemma {:induction false} Joined64(a: int, b: int)
    requires a >= 0 && 0 <= b < 64
    ensures (a * 64 + b) / 64 == a && (a * 64 + b) % 64 == b
  {
  }

  lemma {:induction false} ThreeParts(a: int, b: int, c: int)
    requires a >= 0 && 0 <= b < 64 && 0 <= c < 64
    ensures var n := a * 4096 + b * 64 + c;
            n / 4096 == a && n / 64 % 64 == b && n % 64 == c
  {
    var n := a * 4096 + b * 64 + c;
    Joined64(a * 64 + b, c);
    Joined64(a, b);
    Split64(n);
  }

  lemma {:induction false} FourParts(a: int, b: int, c: int, d: int)
    requires a >= 0 && 0 <= b < 64 && 0 <= c < 64 && 0 <= d < 64
    ensures var n := a * 262144 + b * 4096 + c * 64 + d;
            n / 262144 == a && n / 4096 % 64 == b && n / 64 % 64 == c && n % 64 == d
  {
    var n := a * 262144 + b * 4096 + c * 64 + d;
    ThreeParts(a * 64 + b, c, d);
    Joined64(a, b);
    Split64(n);
  }

  lemma {:induction false} OnlyShort(s: seq<Byte>)
    requires Decode(s).Decoded? && s[0] <= 0xdf
    ensures CodePoint(Decode(s).code) && s == Encode(Decode(s).code) + Decode(s).rest
  {
    if s[0] <= 0x7f {
      assert s == s[..1] + s[1..];
    } else {
      Joined64(s[0] - 0xc0, s[1] - 0x80);
      assert s == s[..2] + s[2..];
    }
  }

  lemma {:induction false} OnlyThree(s: seq<Byte>)
    requires Decode(s).Decoded? && 0xdf < s[0] <= 0xef
    ensures CodePoint(Decode(s).code) && s == Encode(Decode(s).code) + Decode(s).rest
  {
    ThreeParts(s[0] - 0xe0, s[1] - 0x80, s[2] - 0x80);
    assert s == s[..3] + s[3..];
  }

  lemma {:induction false} OnlyFour(s: seq<Byte>)
    requires Decode(s).Decoded? && s[0] > 0xef
    ensures CodePoint(Decode(s).code) && s == Encode(Decode(s).code) + Decode(s).rest
  {
    FourParts(s[0] - 0xf0, s[1] - 0x80, s[2] - 0x80, s[3] - 0x80);
    assert s == s[..4] + s[4..];
  }

  /** Only what would be written for a code point is read. */
  lemma {:induction false} OnlyEncoded(s: seq<Byte>)
    requires Decode(s).Decoded?
    ensures CodePoint(Decode(s).code) && s == Encode(Decode(s).code) + Decode(s).rest
  {
    assert s != [];
    hide Decode;
    if s[0] <= 0xdf {
      OnlyShort(s);
    } else if s[0] <= 0xef {
      OnlyThree(s);
    } else {
      OnlyFour(s);
    }
  }

  /** A surrogate is not a character, though it could be written like one. */
  lemma {:induction false} NoSurrogates(c: int, rest: seq<Byte>)
    requires 0xd800 <= c <= 0xdfff
    ensures Decode(Encode(c) + rest) == Malformed
  {
    Split64(c);
    var s := Encode(c) + rest;
    assert s[0] == Encode(c)[0] && s[1] == Encode(c)[1] && s[2] == Encode(c)[2];
  }
}
