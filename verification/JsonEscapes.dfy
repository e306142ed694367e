/**
 The strings of section 7 of RFC 8259: what their characters and escapes stand for.  The parser of module JsonString
 reads every such string as the bytes it stands for, and reads no other.
 */
module JsonEscapes {
  import opened Basics
  import opened Utf8
  import opened JsonString

  /** A hexadecimal digit and the case of its letter */
  datatype Digit = Digit(d: int, upper: bool)

  /** A byte as it is, a one-letter escape, a \u escape of four digits, or a pair of them */
  datatype Piece =
    | Raw(b: Byte)
    | Letter(b: Byte)
    | Four(h: seq<Digit>)
    | Pair(high: seq<Digit>, low: seq<Digit>)

  function DigitByte(x: Digit): Byte
    requires 0 <= x.d < 16
  {
    if x.d < 10 then x.d + '0' as int else if x.upper then x.d - 10 + 'A' as int else x.d - 10 + 'a' as int
  }

  predicate FourDigits(h: seq<Digit>) {
    |h| == 4 && forall k :: 0 <= k < 4 ==> 0 <= h[k].d < 16
  }

  function DigitsText(h: seq<Digit>): seq<Byte>
    requires FourDigits(h)
  {
    [DigitByte(h[0]), DigitByte(h[1]), DigitByte(h[2]), DigitByte(h[3])]
  }

  function Unit(h: seq<Digit>): nat
    requires FourDigits(h)
  {
    h[0].d * 4096 + h[1].d * 256 + h[2].d * 16 + h[3].d
  }

  /** The letter behind the backslash for a byte that has one */
  function LetterFor(b: Byte): Option<Byte> {
    if b == '"' as int || b == '\\' as int || b == '/' as int then Some(b)
    else if b == '\n' as int then Some('n' as int)
    else if b == '\r' as int then Some('r' as int)
    else if b == '\t' as int then Some('t' as int)
    else if b == 0x08 then Some('b' as int)
    else if b == 0x0c then Some('f' as int)
    else None
  }

  predicate Good(p: Piece) {
    match p
    case Raw(b) => b >= 0x20 && b != '"' as int && b != '\\' as int
    case Letter(b) => LetterFor(b).Some?
    case Four(h) => FourDigits(h) && !(0xd800 <= Unit(h) <= 0xdfff)
    case Pair(high, low) =>
      FourDigits(high) && FourDigits(low) && 0xd800 <= Unit(high) <= 0xdbff && 0xdc00 <= Unit(low) <= 0xdfff
  }

  function EscapeText(h: seq<Digit>): seq<Byte>
    requires FourDigits(h)
  {
    ['\\' as int, 'u' as int] + DigitsText(h)
  }

  function PieceText(p: Piece): seq<Byte>
    requires Good(p)
  {
    match p
    case Raw(b) => [b]
    case Letter(b) => ['\\' as int, LetterFor(b).value]
    case Four(h) => EscapeText(h)
    case Pair(high, low) => EscapeText(high) + EscapeText(low)
  }

  /** The code point of a surrogate pair: section 3 of RFC 2781 */
  function PairCode(high: nat, low: nat): int {
    0x10000 + (high - 0xd800) * 0x400 + (low - 0xdc00)
  }

  /** The bytes that a piece stands for */
  function Meaning(p: Piece): seq<Byte>
    requires Good(p)
  {
    match p
    case Raw(b) => [b]
    case Letter(b) => [b]
    case Four(h) => UnitBound(h); Encode(Unit(h))
    case Pair(high, low) => Encode(PairCode(Unit(high), Unit(low)))
  }

  lemma {:induction false} UnitBound(h: seq<Digit>)
    requires FourDigits(h)
    ensures Unit(h) <= 0xffff
  {
    assert h[0].d <= 15 && h[1].d <= 15 && h[2].d <= 15 && h[3].d <= 15;
  }

  predicate AllGood(ps: seq<Piece>) {
    forall k :: 0 <= k < |ps| ==> Good(ps[k])
  }

  function Text(ps: seq<Piece>): seq<Byte>
    requires AllGood(ps)
  {
    if ps == [] then [] else PieceText(ps[0]) + Text(ps[1..])
  }

  function Bytes(ps: seq<Piece>): seq<Byte>
    requires AllGood(ps)
  {
    if ps == [] then [] else Meaning(ps[0]) + Bytes(ps[1..])
  }

  // ----- reading one piece -----

  lemma {:induction false} SliceBytes(s: seq<Byte>, i: nat, x: seq<Byte>, y: seq<Byte>)
    requires i <= |s| && s[i..] == x + y
    ensures i + |x| <= |s| && s[i + |x|..] == y && forall k :: 0 <= k < |x| ==> At(s, i + k) == x[k]
  {
    assert s[i..][|x|..] == s[i + |x|..];
    forall k | 0 <= k < |x|
      ensures At(s, i + k) == x[k]
    {
      assert s[i..][k] == s[i + k];
    }
  }

  lemma {:induction false} DigitReads(x: Digit)
    requires 0 <= x.d < 16
    ensures HexValue(DigitByte(x)) == x.d && DigitByte(x) >= 0x20 && DigitByte(x) != QUOTE && DigitByte(x) != BACKSLASH
  {
  }

  lemma {:induction false} HexReads(s: seq<Byte>, i: nat, h: seq<Digit>)
    requires FourDigits(h) && forall k :: 0 <= k < 4 ==> At(s, i + k) == DigitByte(h[k])
    ensures Hex(s, i, 4) == Some(Unit(h))
  {
    DigitReads(h[0]);
    DigitReads(h[1]);
    DigitReads(h[2]);
    DigitReads(h[3]);
    hide HexValue;
    hide DigitByte;
    assert At(s, i + 0) == DigitByte(h[0]);
    assert Hex(s, i, 0) == Some(0);
    assert Hex(s, i, 1) == Some(h[0].d);
    assert Hex(s, i, 2) == Some(16 * h[0].d + h[1].d);
    assert Hex(s, i, 3) == Some(16 * (16 * h[0].d + h[1].d) + h[2].d);
  }

  lemma {:induction false} EscapeAt(s: seq<Byte>, i: nat, h: seq<Digit>)
    requires FourDigits(h) && forall k :: 0 <= k < 6 ==> At(s, i + k) == EscapeText(h)[k]
    ensures At(s, i) == BACKSLASH && At(s, i + 1) == LETTER_U && Hex(s, i + 2, 4) == Some(Unit(h))
  {
    assert At(s, i + 0) == EscapeText(h)[0] && At(s, i + 1) == EscapeText(h)[1];
    forall k | 0 <= k < 4
      ensures At(s, i + 2 + k) == DigitByte(h[k])
    {
      assert At(s, i + (k + 2)) == EscapeText(h)[k + 2];
    }
    HexReads(s, i + 2, h);
  }

  /** The scan for the closing quote passes over a piece. */
  ghost predicate Passes(s: seq<Byte>, i: nat, j: nat) {
    exists n: nat :: Measure(s, i) == Later(Measure(s, j), n)
  }

  lemma {:induction false} PassBoth(s: seq<Byte>, i: nat, j: nat, k: nat)
    requires Passes(s, i, j) && Passes(s, j, k)
    ensures Passes(s, i, k)
  {
    var n: nat :| Measure(s, i) == Later(Measure(s, j), n);
    var m: nat :| Measure(s, j) == Later(Measure(s, k), m);
    assert Measure(s, i) == Later(Measure(s, k), n + m);
  }

  lemma {:induction false} PassByte(s: seq<Byte>, i: nat)
    requires i < |s| && s[i] >= 0x20 && s[i] != QUOTE && s[i] != BACKSLASH
    ensures Passes(s, i, i + 1)
  {
    assert Measure(s, i) == Later(Measure(s, i + 1), 1);
  }

  lemma {:induction false} PassTwo(s: seq<Byte>, i: nat)
    requires i < |s| && s[i] == BACKSLASH && At(s, i + 1) != 0
    ensures Passes(s, i, i + 2)
  {
    assert Measure(s, i) == Later(Measure(s, i + 2), 1);
  }

  lemma {:induction false} PassEscape(s: seq<Byte>, i: nat)
    requires i + 6 <= |s| && At(s, i) == BACKSLASH && At(s, i + 1) == LETTER_U && Hex(s, i + 2, 4).Some?
    ensures Passes(s, i, i + 6)
  {
    PassTwo(s, i);
    HexPlain(s, i + 2, 4);
    assert Passes(s, i + 2, i + 6);
    PassBoth(s, i, i + 2, i + 6);
  }

  /** A piece is read as what it stands for. */
  ghost predicate Reads(s: seq<Byte>, i: nat, p: Piece)
    requires Good(p)
  {
    var j := i + |PieceText(p)|;
    Parse(s, i) == Before(Meaning(p), Parse(s, j)) && Passes(s, i, j)
  }

  lemma {:induction false} RawReads(s: seq<Byte>, i: nat, p: Piece)
    requires p.Raw? && Good(p) && i < |s| && At(s, i) == p.b
    ensures Reads(s, i, p)
  {
    PassByte(s, i);
  }

  lemma {:induction false} LetterReads(s: seq<Byte>, i: nat, p: Piece)
    requires p.Letter? && Good(p) && i + 1 < |s| && At(s, i) == BACKSLASH && At(s, i + 1) == LetterFor(p.b).value
    ensures Reads(s, i, p)
  {
    PassTwo(s, i);
    assert Simple(At(s, i + 1)) == Some(p.b);
  }

  lemma {:induction false} FourReads(s: seq<Byte>, i: nat, p: Piece)
    requires p.Four? && Good(p) && i + 6 <= |s| && forall k :: 0 <= k < 6 ==> At(s, i + k) == EscapeText(p.h)[k]
    ensures Reads(s, i, p)
  {
    EscapeAt(s, i, p.h);
    PassEscape(s, i);
    UnitBound(p.h);
    hide Hex;
    hide EscapeText;
    hide Encode;
    assert Unicode(s, i + 2) == Escape(Unit(p.h), i + 6);
  }

  lemma {:induction false} PairReads(s: seq<Byte>, i: nat, p: Piece)
    requires p.Pair? && Good(p) && i + 12 <= |s|
    requires forall k :: 0 <= k < 6 ==> At(s, i + k) == EscapeText(p.high)[k]
    requires forall k :: 0 <= k < 6 ==> At(s, i + 6 + k) == EscapeText(p.low)[k]
    ensures Reads(s, i, p)
  {
    EscapeAt(s, i, p.high);
    EscapeAt(s, i + 6, p.low);
    PassEscape(s, i);
    PassEscape(s, i + 6);
    PassBoth(s, i, i + 6, i + 12);
    assert |PieceText(p)| == 12;
    hide Hex;
    hide EscapeText;
    hide Encode;
    hide PieceText;
    hide Unit;
    assert Unicode(s, i + 2) == Escape(PairCode(Unit(p.high), Unit(p.low)), i + 12);
  }

  lemma {:induction false} PieceReads(s: seq<Byte>, i: nat, p: Piece, y: seq<Byte>)
    requires Good(p) && i <= |s| && s[i..] == PieceText(p) + y
    ensures i + |PieceText(p)| <= |s| && s[i + |PieceText(p)|..] == y && Reads(s, i, p)
  {
    SliceBytes(s, i, PieceText(p), y);
    hide Reads;
    match p
    case Raw(b) => assert At(s, i + 0) == b; RawReads(s, i, p);
    case Letter(b) =>
      assert At(s, i + 0) == PieceText(p)[0] && At(s, i + 1) == PieceText(p)[1];
      LetterReads(s, i, p);
    case Four(h) => FourReads(s, i, p);
    case Pair(high, low) =>
      forall k | 0 <= k < 6
        ensures At(s, i + k) == EscapeText(high)[k]
        ensures At(s, i + 6 + k) == EscapeText(low)[k]
      {
        assert At(s, i + k) == PieceText(p)[k];
        assert At(s, i + (6 + k)) == PieceText(p)[6 + k];
      }
      PairReads(s, i, p);
  }

  /** The pieces stand from i to c, one behind the other. */
  predicate Spelled(ps: seq<Piece>, s: seq<Byte>, i: nat, c: nat)
    requires AllGood(ps)
    decreases |ps|
  {
    if ps == [] then i == c <= |s|
    else
      var j := i + |PieceText(ps[0])|;
      j <= c <= |s| && s[i..j] == PieceText(ps[0]) && Spelled(ps[1..], s, j, c)
  }

  lemma {:induction false} FirstSpelled(ps: seq<Piece>, s: seq<Byte>, i: nat, c: nat)
    requires AllGood(ps) && ps != [] && i <= c <= |s|
    ensures Good(ps[0]) && AllGood(ps[1..])
    ensures var j := i + |PieceText(ps[0])|;
            && (Spelled(ps, s, i, c) <==> j <= c && s[i..j] == PieceText(ps[0]) && Spelled(ps[1..], s, j, c))
            && Text(ps) == PieceText(ps[0]) + Text(ps[1..])
  {
    hide PieceText;
    hide Good;
  }

  lemma {:induction false} NoneSpelled(s: seq<Byte>, i: nat, c: nat)
    requires i <= c <= |s|
    ensures Spelled([], s, i, c) <==> s[i..c] == Text([])
  {
  }

  lemma {:induction false} SpelledText(ps: seq<Piece>, s: seq<Byte>, i: nat, c: nat)
    requires AllGood(ps) && i <= c <= |s|
    ensures Spelled(ps, s, i, c) <==> s[i..c] == Text(ps)
    decreases |ps|
  {
    hide PieceText;
    hide Good;
    hide Spelled;
    hide Text;
    hide AllGood;
    if ps == [] {
      NoneSpelled(s, i, c);
    } else {
      FirstSpelled(ps, s, i, c);
      var x, j := PieceText(ps[0]), i + |PieceText(ps[0])|;
      if j <= c {
        SpelledText(ps[1..], s, j, c);
        CutAt(s, i, j, c, x, Text(ps[1..]));
      }
    }
  }

  lemma {:induction false} CutAt(s: seq<Byte>, i: nat, j: nat, c: nat, x: seq<Byte>, y: seq<Byte>)
    requires i <= j <= c <= |s| && j == i + |x|
    ensures s[i..j] == x && s[j..c] == y <==> s[i..c] == x + y
  {
    var t := s[i..c];
    assert t == s[i..j] + s[j..c];
    if t == x + y {
      assert t[..|x|] == x && t[|x|..] == y;
      assert t[..|x|] == s[i..j] && t[|x|..] == s[j..c];
    }
  }

  lemma {:induction false} ReadsThere(s: seq<Byte>, i: nat, j: nat, p: Piece)
    requires Good(p) && j == i + |PieceText(p)| <= |s| && s[i..j] == PieceText(p)
    ensures Parse(s, i) == Before(Meaning(p), Parse(s, j))
    ensures Measure(s, i).Extent? <==> Measure(s, j).Extent?
    ensures Measure(s, i).Extent? ==> Measure(s, i).close == Measure(s, j).close
  {
    hide Parse;
    hide Measure;
    hide PieceText;
    hide Meaning;
    hide Good;
    assert s[i..] == s[i..j] + s[j..];
    PieceReads(s, i, p, s[j..]);
  }

  /** A string of pieces is accepted and read as the bytes they stand for, up to its closing quote. */
  lemma {:induction false} StringReads(s: seq<Byte>, i: nat, ps: seq<Piece>, c: nat)
    requires AllGood(ps) && i <= c < |s| && Spelled(ps, s, i, c) && s[c] == QUOTE
    ensures Parse(s, i) == Parsed(Bytes(ps), c) && Measure(s, i).Extent? && Measure(s, i).close == c
    decreases |ps|
  {
    hide PieceText;
    hide Meaning;
    hide Good;
    hide Spelled;
    hide AllGood;
    hide Parse;
    hide Measure;
    hide Bytes;
    if ps == [] {
      NothingReads(s, i, c);
    } else {
      FirstSpelled(ps, s, i, c);
      var j := i + |PieceText(ps[0])|;
      ReadsThere(s, i, j, ps[0]);
      StringReads(s, j, ps[1..], c);
      BytesFirst(ps);
    }
  }

  lemma {:induction false} NothingReads(s: seq<Byte>, i: nat, c: nat)
    requires i <= c < |s| && Spelled([], s, i, c) && s[c] == QUOTE
    ensures Parse(s, i) == Parsed(Bytes([]), c) && Measure(s, i).Extent? && Measure(s, i).close == c
  {
  }

  lemma {:induction false} BytesFirst(ps: seq<Piece>)
    requires AllGood(ps) && ps != []
    ensures Good(ps[0]) && AllGood(ps[1..]) && Bytes(ps) == Meaning(ps[0]) + Bytes(ps[1..])
  {
  }

  // ----- nothing else is read -----

  lemma {:induction false} DigitOf(b: Byte) returns (x: Digit)
    requires HexValue(b) >= 0
    ensures 0 <= x.d < 16 && DigitByte(x) == b && x.d == HexValue(b)
  {
    x := Digit(HexValue(b), 0x41 <= b <= 0x46);
  }

  lemma {:induction false} HexDown(s: seq<Byte>, i: nat, n: nat)
    requires n > 0 && Hex(s, i, n).Some?
    ensures Hex(s, i, n - 1).Some? && HexValue(At(s, i + n - 1)) >= 0
  {
  }

  lemma {:induction false} DigitsOf(s: seq<Byte>, i: nat) returns (h: seq<Digit>)
    requires Hex(s, i, 4).Some?
    ensures FourDigits(h) && i + 4 <= |s| && Hex(s, i, 4) == Some(Unit(h))
    ensures forall k :: 0 <= k < 4 ==> At(s, i + k) == DigitByte(h[k])
  {
    HexDown(s, i, 4);
    HexDown(s, i, 3);
    HexDown(s, i, 2);
    HexDown(s, i, 1);
    var a := DigitOf(At(s, i));
    var b := DigitOf(At(s, i + 1));
    var c := DigitOf(At(s, i + 2));
    var d := DigitOf(At(s, i + 3));
    h := [a, b, c, d];
    hide Hex;
    hide HexValue;
    HexReads(s, i, h);
  }

  lemma {:induction false} EscapeOf(s: seq<Byte>, i: nat) returns (h: seq<Digit>)
    requires At(s, i) == BACKSLASH && At(s, i + 1) == LETTER_U && Hex(s, i + 2, 4).Some?
    ensures FourDigits(h) && i + 6 <= |s| && Hex(s, i + 2, 4) == Some(Unit(h)) && s[i..i + 6] == EscapeText(h)
  {
    h := DigitsOf(s, i + 2);
    hide Hex;
    hide Unit;
    assert At(s, i + 2 + 0) == DigitByte(h[0]) && At(s, i + 2 + 1) == DigitByte(h[1]);
    assert At(s, i + 2 + 2) == DigitByte(h[2]) && At(s, i + 2 + 3) == DigitByte(h[3]);
    assert s[i..i + 6] == [s[i], s[i + 1], s[i + 2], s[i + 3], s[i + 4], s[i + 5]];
  }

  lemma {:induction false} LetterOf(s: seq<Byte>, i: nat) returns (p: Piece)
    requires i < |s| && s[i] == BACKSLASH && Simple(At(s, i + 1)).Some?
    ensures p.Letter? && Good(p) && i + 2 <= |s| && s[i..i + 2] == PieceText(p)
  {
    p := Letter(Simple(At(s, i + 1)).value);
    assert s[i..i + 2] == [s[i], s[i + 1]];
  }

  lemma {:induction false} UnicodeOf(s: seq<Byte>, i: nat) returns (p: Piece)
    requires i < |s| && s[i] == BACKSLASH && At(s, i + 1) == LETTER_U && Unicode(s, i + 2).Escape?
    ensures Good(p) && i + |PieceText(p)| <= |s| && s[i..i + |PieceText(p)|] == PieceText(p)
  {
    hide Hex;
    var h := EscapeOf(s, i);
    if HighSurrogate(Unit(h)) {
      var l := EscapeOf(s, i + 6);
      p := Pair(h, l);
      hide EscapeText;
      assert s[i..i + 12] == s[i..i + 6] + s[i + 6..i + 12];
    } else {
      p := Four(h);
    }
  }

  lemma {:induction false} RawOf(s: seq<Byte>, i: nat) returns (p: Piece)
    requires Measure(s, i).Extent? && i < |s| && s[i] != QUOTE && s[i] != BACKSLASH
    ensures Good(p) && i + |PieceText(p)| <= |s| && s[i..i + |PieceText(p)|] == PieceText(p)
  {
    p := Raw(s[i]);
    assert s[i..i + 1] == [s[i]];
  }

  lemma {:induction false} EscapeKinds(s: seq<Byte>, i: nat)
    requires Parse(s, i).Parsed? && i < |s| && s[i] == BACKSLASH
    ensures if At(s, i + 1) == LETTER_U then Unicode(s, i + 2).Escape? else Simple(At(s, i + 1)).Some?
  {
  }

  lemma {:induction false} NextPiece(s: seq<Byte>, i: nat) returns (p: Piece)
    requires Parse(s, i).Parsed? && Measure(s, i).Extent? && i < |s| && s[i] != QUOTE
    ensures Good(p) && i + |PieceText(p)| <= |s| && s[i..i + |PieceText(p)|] == PieceText(p)
  {
    hide Parse;
    hide Measure;
    hide Good;
    hide PieceText;
    if s[i] != BACKSLASH {
      p := RawOf(s, i);
    } else {
      EscapeKinds(s, i);
      if At(s, i + 1) == LETTER_U {
        p := UnicodeOf(s, i);
      } else {
        p := LetterOf(s, i);
      }
    }
  }

  /** What is accepted is a string of pieces. */
  lemma {:induction false} OnlyPieces(s: seq<Byte>, i: nat) returns (ps: seq<Piece>)
    requires i <= |s| && Parse(s, i).Parsed? && Measure(s, i).Extent?
    ensures var c := Parse(s, i).close;
            AllGood(ps) && i <= c < |s| && s[c] == QUOTE && Spelled(ps, s, i, c) && Parse(s, i).bytes == Bytes(ps)
    decreases |s| - i
  {
    if s[i] == QUOTE {
      ps := [];
    } else {
      var p, j := FirstPiece(s, i);
      hide Parse;
      hide Measure;
      hide PieceText;
      hide Meaning;
      hide Good;
      hide Spelled;
      hide Bytes;
      hide AllGood;
      var qs := OnlyPieces(s, j);
      ps := [p] + qs;
      OneMore(p, qs, s, i, j, Parse(s, j).close);
    }
  }

  lemma {:induction false} OneMore(p: Piece, qs: seq<Piece>, s: seq<Byte>, i: nat, j: nat, c: nat)
    requires Good(p) && AllGood(qs) && Spelled(qs, s, j, c) && j == i + |PieceText(p)| && j <= c <= |s|
    requires s[i..j] == PieceText(p)
    ensures AllGood([p] + qs) && Spelled([p] + qs, s, i, c) && Bytes([p] + qs) == Meaning(p) + Bytes(qs)
  {
    hide PieceText;
    hide Meaning;
    hide Good;
    assert ([p] + qs)[1..] == qs;
  }

  lemma {:induction false} FirstPiece(s: seq<Byte>, i: nat) returns (p: Piece, j: nat)
    requires Parse(s, i).Parsed? && Measure(s, i).Extent? && i < |s| && s[i] != QUOTE
    ensures Good(p) && j == i + |PieceText(p)| && i < j <= |s| && s[i..j] == PieceText(p)
    ensures Parse(s, j).Parsed? && Measure(s, j).Extent? && Parse(s, i) == Before(Meaning(p), Parse(s, j))
  {
    p := NextPiece(s, i);
    j := i + |PieceText(p)|;
    assert |PieceText(p)| > 0;
    hide Parse;
    hide Measure;
    hide PieceText;
    hide Meaning;
    hide Good;
    ReadsThere(s, i, j, p);
  }

  /**
   The length scan and the parser together accept a string exactly if it is made of pieces, and its value is then what
   the pieces stand for.
   */
  lemma {:induction false} ReadsExactly(s: seq<Byte>, i: nat, bytes: seq<Byte>, close: nat)
    requires i <= close < |s| && s[close] == QUOTE
    ensures Measure(s, i).Extent? && Parse(s, i) == Parsed(bytes, close) <==>
            exists ps: seq<Piece> :: AllGood(ps) && s[i..close] == Text(ps) && bytes == Bytes(ps)
  {
    hide Parse;
    hide Measure;
    hide Text;
    hide Bytes;
    if Measure(s, i).Extent? && Parse(s, i) == Parsed(bytes, close) {
      var ps := OnlyPieces(s, i);
      SpelledText(ps, s, i, close);
    }
    forall ps: seq<Piece> | AllGood(ps) && s[i..close] == Text(ps) && bytes == Bytes(ps)
      ensures Measure(s, i).Extent? && Parse(s, i) == Parsed(bytes, close)
    {
      SpelledText(ps, s, i, close);
      StringReads(s, i, ps, close);
    }
  }

  /** A character may be written as itself, if it is no control character, quote or backslash. */
  lemma {:induction false} AsItself(c: int, b: Byte)
    requires CodePoint(c) && c >= 0x20 && c != '"' as int && c != '\\' as int && b in Encode(c)
    ensures Good(Raw(b))
  {
  }
}
