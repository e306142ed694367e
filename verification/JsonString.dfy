/**
 How src/util/json_parser.c reads a string: __json_string_length finds the closing quote and an upper bound
 of the size, __parse_json_string writes the bytes into a buffer of that size.

 A text is a sequence of bytes followed by a null byte.  Shifts and masks of disjoint bit
 ranges are written as multiplication, division and remainder.
 */
module JsonString {
  import opened Basics
  import opened Utf8

  const QUOTE: Byte := 0x22
  const BACKSLASH: Byte := 0x5c
  const LETTER_U: Byte := 0x75

  function At(s: seq<Byte>, i: nat): Byte {
    if i < |s| then s[i] else 0
  }

  // ----- the length scan -----

  /** Bytes counted up to the closing quote, and where that is. */
  datatype Extent = Open | Extent(len: nat, close: nat)

  function More(e: Extent): Extent {
    if e.Open? then e else e.(len := e.len + 1)
  }

  /** What __json_string_length computes */
  function Measure(s: seq<Byte>, i: nat): (e: Extent)
    ensures e.Extent? ==> i <= e.close < |s| && s[e.close] == QUOTE && e.len <= e.close - i
    decreases |s| - i
  {
    if At(s, i) == QUOTE then Extent(0, i)
    else if At(s, i) == BACKSLASH then
      if At(s, i + 1) == 0 then Open else More(Measure(s, i + 2))
    else if At(s, i) < 0x20 then Open
    else More(Measure(s, i + 1))
  }

  /** __json_string_length; -2 for a string that does not end or holds a control character */
  method StringLength(s: seq<Byte>, start: nat) returns (len: int)
    requires start <= |s|
    ensures len == if Measure(s, start).Open? then -2 else Measure(s, start).len
  {
    len := 0;
    var cursor := start;
    while At(s, cursor) != QUOTE
      invariant start <= cursor <= |s| + 1 && len >= 0
      invariant Measure(s, start) == Later(Measure(s, cursor), len)
      decreases |s| + 1 - cursor
    {
      if At(s, cursor) == BACKSLASH {
        cursor := cursor + 1;
        if At(s, cursor) == 0 {
          return -2;
        }
      } else if At(s, cursor) < 0x20 {
        return -2;
      }
      cursor := cursor + 1;
      len := len + 1;
    }
  }

  function Later(e: Extent, n: nat): Extent {
    if e.Open? then e else e.(len := e.len + n)
  }

  // ----- the meaning of escapes -----

  function HexValue(b: Byte): int {
    if 0x30 <= b <= 0x39 then b - 0x30 else if 0x41 <= b <= 0x46 then b - 0x41 + 10
    else if 0x61 <= b <= 0x66 then b - 0x61 + 10 else -1
  }

  /** The value of n hexadecimal digits. */
  function Hex(s: seq<Byte>, i: nat, n: nat): (r: Option<nat>)
    decreases n
  {
    if n == 0 then Some(0)
    else
      var h := Hex(s, i, n - 1);
      if h.None? || HexValue(At(s, i + n - 1)) < 0 then None else Some(16 * h.value + HexValue(At(s, i + n - 1)))
  }

  predicate HighSurrogate(c: int) {
    0xd800 <= c <= 0xdbff
  }

  predicate LowSurrogate(c: int) {
    0xdc00 <= c <= 0xdfff
  }

  lemma {:induction false} HexBound(s: seq<Byte>, i: nat, n: nat)
    requires n <= 4
    ensures var h := Hex(s, i, n);
            h.Some? ==> h.value < (if n == 0 then 1 else if n == 1 then 16 else if n == 2 then 256
                                   else if n == 3 then 4096 else 65536)
    decreases n
  {
    if n > 0 {
      HexBound(s, i, n - 1);
    }
  }

  /** A code point and the place behind its escape. */
  datatype Escape = BadEscape | Escape(code: int, next: nat)

  /** What follows \u: four digits, or a pair of them for a code point above 0xffff (section 7 of RFC 8259). */
  function Unicode(s: seq<Byte>, i: nat): (e: Escape)
    ensures e.Escape? ==> CodePoint(e.code) && (e.next == i + 4 || e.next == i + 10)
  {
    var a := Hex(s, i, 4);
    if a.None? || LowSurrogate(a.value) then BadEscape
    else if !HighSurrogate(a.value) then
      assert CodePoint(a.value) by { HexBound(s, i, 4); }
      Escape(a.value, i + 4)
    else if At(s, i + 4) != BACKSLASH || At(s, i + 5) != LETTER_U then BadEscape
    else
      var b := Hex(s, i + 6, 4);
      if b.None? || !LowSurrogate(b.value) then BadEscape
      else Escape((a.value - 0xd800) * 1024 + (b.value - 0xdc00) + 0x10000, i + 10)
  }

  /** The one-letter escapes. */
  function Simple(b: Byte): Option<Byte> {
    if b == QUOTE || b == BACKSLASH || b == 0x2f then Some(b)
    else if b == 0x62 then Some(8)
    else if b == 0x66 then Some(12)
    else if b == 0x6e then Some(10)
    else if b == 0x72 then Some(13)
    else if b == 0x74 then Some(9)
    else None
  }

  /** The bytes of a string and the place of its closing quote. */
  datatype Parsed = Bad | Parsed(bytes: seq<Byte>, close: nat)

  function Before(b: seq<Byte>, p: Parsed): Parsed {
    if p.Bad? then p else p.(bytes := b + p.bytes)
  }

  /** What __parse_json_string computes */
  function Parse(s: seq<Byte>, i: nat): Parsed
    decreases |s| - i
  {
    if i >= |s| then Bad
    else if s[i] == QUOTE then Parsed([], i)
    else if s[i] != BACKSLASH then Before([s[i]], Parse(s, i + 1))
    else if At(s, i + 1) == LETTER_U then
      var e := Unicode(s, i + 2);
      if e.BadEscape? then Bad else Before(Encode(e.code), Parse(s, e.next))
    else
      var b := Simple(At(s, i + 1));
      if b.None? then Bad else Before([b.value], Parse(s, i + 2))
  }

  // ----- size and extent -----

  /** Hexadecimal digits are plain characters to the length scan. */
  lemma {:induction false} HexPlain(s: seq<Byte>, i: nat, n: nat)
    requires i <= |s| && Hex(s, i, n).Some?
    ensures i + n <= |s| && Measure(s, i) == Later(Measure(s, i + n), n)
    decreases n
  {
    if n > 0 {
      HexPlain(s, i, n - 1);
      var k := i + n - 1;
      assert HexValue(At(s, k)) >= 0;
      assert Measure(s, k) == More(Measure(s, k + 1));
    }
  }

  /** An escape is counted as at least as many bytes as are written for it. */
  lemma {:induction false} EscapeFits(s: seq<Byte>, i: nat)
    requires At(s, i) == BACKSLASH && At(s, i + 1) == LETTER_U && Unicode(s, i + 2).Escape?
    ensures var e := Unicode(s, i + 2);
            i < |s| && e.next <= |s| && exists n: nat :: n >= |Encode(e.code)|
                                                         && Measure(s, i) == Later(Measure(s, e.next), n)
  {
    var e := Unicode(s, i + 2);
    HexPlain(s, i + 2, 4);
    assert Measure(s, i) == More(Measure(s, i + 2));
    if e.next == i + 12 {
      assert Measure(s, i + 6) == More(Measure(s, i + 8));
      HexPlain(s, i + 8, 4);
      assert Measure(s, i) == Later(Measure(s, e.next), 10);
    } else {
      assert Measure(s, i) == Later(Measure(s, e.next), 5);
    }
  }

  /**
   A string that the length scan accepts is parsed up to the same closing quote, into no more bytes than counted.
   */
  lemma {:induction false} ParseFits(s: seq<Byte>, i: nat)
    requires Measure(s, i).Extent? && Parse(s, i).Parsed?
    ensures Parse(s, i).close == Measure(s, i).close && |Parse(s, i).bytes| <= Measure(s, i).len
    decreases |s| - i
  {
    if s[i] == QUOTE {
    } else if s[i] != BACKSLASH {
      ParseFits(s, i + 1);
    } else if At(s, i + 1) == LETTER_U {
      EscapeFits(s, i);
      ParseFits(s, Unicode(s, i + 2).next);
    } else {
      ParseFits(s, i + 2);
    }
  }

  // ----- how far it reads -----

  /** Where reading n hexadecimal digits stops: the first byte that is none, or the last digit. */
  function HexStop(s: seq<Byte>, i: nat, n: nat): nat
    decreases n
  {
    if n <= 1 || HexValue(At(s, i)) < 0 then i else HexStop(s, i + 1, n - 1)
  }

  /** The last byte that __parse_json_unicode looks at */
  function LastRead(s: seq<Byte>, i: nat): nat {
    var a := Hex(s, i, 4);
    if a.None? || !HighSurrogate(a.value) then HexStop(s, i, 4)
    else if At(s, i + 4) != BACKSLASH then i + 4
    else if At(s, i + 5) != LETTER_U then i + 5
    else HexStop(s, i + 6, 4)
  }

  /** A string that the length scan accepts ends behind the hexadecimal digits in front of its closing quote. */
  lemma {:induction false} HexWithin(s: seq<Byte>, i: nat, n: nat)
    requires Measure(s, i).Extent?
    ensures HexStop(s, i, n) <= Measure(s, i).close
    decreases n
  {
    if n > 1 && HexValue(At(s, i)) >= 0 {
      assert Measure(s, i) == More(Measure(s, i + 1));
      HexWithin(s, i + 1, n - 1);
    }
  }

  /** The escape parser looks at no byte behind the closing quote that the length scan found. */
  lemma {:induction false} ReadsWithin(s: seq<Byte>, i: nat)
    requires Measure(s, i).Extent?
    ensures LastRead(s, i) <= Measure(s, i).close
  {
    HexWithin(s, i, 4);
    if Hex(s, i, 4).Some? {
      HexPlain(s, i, 4);
      if At(s, i + 4) == BACKSLASH {
        assert Measure(s, i + 4) == More(Measure(s, i + 6));
        HexWithin(s, i + 6, 4);
      }
    }
  }

  predicate HexAt(s: seq<Byte>, i: nat) {
    HexValue(At(s, i)) >= 0
  }

  lemma {:induction false} StopsAt(s: seq<Byte>, start: nat, stop: nat, n: nat)
    requires start <= stop < start + n && (forall k :: start <= k < stop ==> HexAt(s, k))
    requires !HexAt(s, stop) || stop == start + n - 1
    ensures HexStop(s, start, n) == stop
    decreases n
  {
    if start < stop {
      assert HexAt(s, start);
      StopsAt(s, start + 1, stop, n - 1);
    }
  }

  // ----- the code -----

  /** __parse_json_hex4; `seen` is the last byte it looks at */
  method ParseHex4(s: seq<Byte>, start: nat) returns (ok: bool, code: nat, ghost seen: nat)
    ensures ok == Hex(s, start, 4).Some? && (ok ==> code == Hex(s, start, 4).value)
    ensures seen == HexStop(s, start, 4)
  {
    hide Hex;
    hide HexStop;
    code := 0;
    var i: nat := 0;
    HexNone(s, start);
    while i < 4
      invariant i <= 4 && Hex(s, start, i) == Some(code)
      invariant forall k :: start <= k < start + i ==> HexAt(s, k)
    {
      var hex := HexValue(At(s, start + i));
      HexMore(s, start, i);
      if hex < 0 {
        HexStops(s, start, i, 4);
        StopsAt(s, start, start + i, 4);
        return false, code, start + i;
      }
      code := 16 * code + hex;
      i := i + 1;
    }
    StopsAt(s, start, start + 3, 4);
    ok, seen := true, start + 3;
  }

  lemma {:induction false} HexNone(s: seq<Byte>, start: nat)
    ensures Hex(s, start, 0) == Some(0)
  {
  }

  lemma {:induction false} HexMore(s: seq<Byte>, start: nat, i: nat)
    ensures var h, d := Hex(s, start, i), HexValue(At(s, start + i));
            Hex(s, start, i + 1) == if h.None? || d < 0 then None else Some(16 * h.value + d)
  {
    assert start + (i + 1) - 1 == start + i;
  }

  lemma {:induction false} HexStops(s: seq<Byte>, start: nat, i: nat, n: nat)
    requires i < n && HexValue(At(s, start + i)) < 0
    ensures Hex(s, start, n).None?
    decreases n
  {
    if i + 1 < n {
      HexStops(s, start, i, n - 1);
    }
  }

  /** The code point of __parse_json_unicode */
  method ParseCode(s: seq<Byte>, start: nat) returns (e: Escape, ghost seen: nat)
    ensures e == Unicode(s, start) && seen == LastRead(s, start)
  {
    hide Hex;
    hide HexStop;
    var ok, code;
    ok, code, seen := ParseHex4(s, start);
    if !ok || LowSurrogate(code) {
      return BadEscape, seen;
    }
    if !HighSurrogate(code) {
      return Escape(code, start + 4), seen;
    }
    if At(s, start + 4) != BACKSLASH {
      return BadEscape, start + 4;
    }
    if At(s, start + 5) != LETTER_U {
      return BadEscape, start + 5;
    }
    var next;
    ok, next, seen := ParseHex4(s, start + 6);
    if !ok || !LowSurrogate(next) {
      return BadEscape, seen;
    }
    e := Escape((code - 0xd800) * 1024 + (next - 0xdc00) + 0x10000, start + 10);
  }

  /** The bytes that __parse_json_unicode stores, in place */
  method Store(code: int, out: array<Byte>, pos: nat) returns (n: nat)
    requires 0 <= code <= 0x10ffff && pos + |Encode(code)| <= out.Length
    modifies out
    ensures n == |Encode(code)| && out[..pos + n] == old(out[..pos]) + Encode(code)
  {
    var b := Encode(code);
    if code <= 0x7f {
      out[pos] := code;
      n := 1;
    } else if code <= 0x7ff {
      out[pos] := 0xc0 + code / 64;
      out[pos + 1] := 0x80 + code % 64;
      n := 2;
    } else if code <= 0xffff {
      out[pos] := 0xe0 + code / 4096;
      out[pos + 1] := 0x80 + code / 64 % 64;
      out[pos + 2] := 0x80 + code % 64;
      n := 3;
    } else {
      out[pos] := 0xf0 + code / 262144;
      out[pos + 1] := 0x80 + code / 4096 % 64;
      out[pos + 2] := 0x80 + code / 64 % 64;
      out[pos + 3] := 0x80 + code % 64;
      n := 4;
    }
  }

  /** The parse so far: what is written, and that the rest still fits. */
  ghost predicate Progress(s: seq<Byte>, start: nat, cursor: nat, written: seq<Byte>) {
    && Measure(s, start).Extent? && Measure(s, cursor).Extent? && Measure(s, cursor).close == Measure(s, start).close
    && |written| + Measure(s, cursor).len <= Measure(s, start).len
    && Parse(s, start) == Before(written, Parse(s, cursor))
  }

  lemma {:induction false} Begins(s: seq<Byte>, start: nat)
    requires Measure(s, start).Extent?
    ensures Progress(s, start, start, [])
  {
    assert Parse(s, start).Parsed? ==> [] + Parse(s, start).bytes == Parse(s, start).bytes;
  }

  lemma {:induction false} BeforeTwice(a: seq<Byte>, b: seq<Byte>, p: Parsed)
    ensures Before(a, Before(b, p)) == Before(a + b, p)
  {
    if p.Parsed? {
      assert a + (b + p.bytes) == (a + b) + p.bytes;
    }
  }

  /** One token: its bytes and the place behind it. */
  lemma {:induction false} Advances(s: seq<Byte>, start: nat, cursor: nat, written: seq<Byte>, b: seq<Byte>, next: nat,
                                    n: nat)
    requires Progress(s, start, cursor, written)
    requires Measure(s, cursor) == Later(Measure(s, next), n) && |b| <= n
    requires Parse(s, cursor) == Before(b, Parse(s, next))
    ensures Progress(s, start, next, written + b)
  {
    BeforeTwice(written, b, Parse(s, next));
  }

  lemma {:induction false} PlainAdvances(s: seq<Byte>, start: nat, cursor: nat, written: seq<Byte>)
    requires Progress(s, start, cursor, written) && At(s, cursor) != QUOTE && At(s, cursor) != BACKSLASH
    ensures cursor < |s| && cursor <= Measure(s, start).close && Progress(s, start, cursor + 1, written + [s[cursor]])
  {
    Advances(s, start, cursor, written, [s[cursor]], cursor + 1, 1);
  }

  lemma {:induction false} SimpleAdvances(s: seq<Byte>, start: nat, cursor: nat, written: seq<Byte>)
    requires Progress(s, start, cursor, written) && At(s, cursor) == BACKSLASH && At(s, cursor + 1) != LETTER_U
    ensures cursor + 1 <= Measure(s, start).close
    ensures var b := Simple(At(s, cursor + 1));
            if b.None? then Parse(s, start).Bad? else Progress(s, start, cursor + 2, written + [b.value])
  {
    var b := Simple(At(s, cursor + 1));
    if b.Some? {
      Advances(s, start, cursor, written, [b.value], cursor + 2, 1);
    }
  }

  lemma {:induction false} UnicodeAdvances(s: seq<Byte>, start: nat, cursor: nat, written: seq<Byte>)
    requires Progress(s, start, cursor, written) && At(s, cursor) == BACKSLASH && At(s, cursor + 1) == LETTER_U
    ensures LastRead(s, cursor + 2) <= Measure(s, start).close
    ensures var e := Unicode(s, cursor + 2);
            if e.BadEscape? then Parse(s, start).Bad?
            else
              && cursor < e.next && |Encode(e.code)| <= Measure(s, cursor).len
              && Progress(s, start, e.next, written + Encode(e.code))
  {
    hide Unicode;
    hide LastRead;
    hide Encode;
    UnicodeStep(s, cursor);
    ReadsWithin(s, cursor + 2);
    var e := Unicode(s, cursor + 2);
    if e.Escape? {
      var k := CountedAs(s, cursor);
      Advances(s, start, cursor, written, Encode(e.code), e.next, k);
    }
  }

  lemma {:induction false} UnicodeStep(s: seq<Byte>, i: nat)
    requires At(s, i) == BACKSLASH && At(s, i + 1) == LETTER_U
    ensures Measure(s, i) == More(Measure(s, i + 2))
    ensures var e := Unicode(s, i + 2);
            Parse(s, i) == if e.BadEscape? then Bad else Before(Encode(e.code), Parse(s, e.next))
  {
  }

  lemma {:induction false} CountedAs(s: seq<Byte>, i: nat) returns (n: nat)
    requires At(s, i) == BACKSLASH && At(s, i + 1) == LETTER_U && Unicode(s, i + 2).Escape?
    ensures var e := Unicode(s, i + 2);
            && i < e.next && n >= |Encode(e.code)|
            && Measure(s, i) == Later(Measure(s, e.next), n)
  {
    EscapeFits(s, i);
    n :| n >= |Encode(Unicode(s, i + 2).code)| && Measure(s, i) == Later(Measure(s, Unicode(s, i + 2).next), n);
  }

  /** A plain character or a one-letter escape. */
  method PlainToken(s: seq<Byte>, start: nat, cursor: nat, out: array<Byte>, n: nat)
    returns (next: nat, ghost seen: nat)
    requires n < out.Length && Progress(s, start, cursor, out[..n])
    requires At(s, cursor) != QUOTE && (At(s, cursor) == BACKSLASH ==> At(s, cursor + 1) != LETTER_U)
    modifies out
    ensures next == 0 <==> Parse(s, start).Bad? && At(s, cursor) == BACKSLASH && Simple(At(s, cursor + 1)).None?
    ensures next > 0 ==> cursor < next && Progress(s, start, next, out[..n + 1])
    ensures seen <= Measure(s, start).close
  {
    hide Measure;
    hide Parse;
    ghost var written := out[..n];
    if At(s, cursor) == BACKSLASH {
      SimpleAdvances(s, start, cursor, written);
      var b := Simple(At(s, cursor + 1));
      seen := cursor + 1;
      if b.None? {
        return 0, seen;
      }
      out[n] := b.value;
      next := cursor + 2;
    } else {
      PlainAdvances(s, start, cursor, written);
      out[n] := s[cursor];
      next, seen := cursor + 1, cursor;
    }
    assert out[..n + 1] == written + [out[n]];
  }

  /** A \u escape. */
  method UnicodeToken(s: seq<Byte>, start: nat, cursor: nat, out: array<Byte>, n: nat)
    returns (next: nat, more: nat, ghost seen: nat)
    requires n < out.Length && Progress(s, start, cursor, out[..n]) && n + Measure(s, cursor).len < out.Length
    requires At(s, cursor) == BACKSLASH && At(s, cursor + 1) == LETTER_U
    modifies out
    ensures next == 0 ==> Parse(s, start).Bad?
    ensures next > 0 ==> cursor < next && n + more <= out.Length && Progress(s, start, next, out[..n + more])
    ensures seen <= Measure(s, start).close
  {
    hide Measure;
    hide Parse;
    hide Unicode;
    hide Encode;
    hide LastRead;
    hide Progress;
    UnicodeAdvances(s, start, cursor, out[..n]);
    var e;
    e, seen := ParseCode(s, cursor + 2);
    if e.BadEscape? {
      return 0, 0, seen;
    }
    more := Store(e.code, out, n);
    next := e.next;
  }

  /** One turn of the loop of __parse_json_string; `next` is 0 for a bad escape. */
  method Token(s: seq<Byte>, start: nat, cursor: nat, out: array<Byte>, n: nat)
    returns (next: nat, more: nat, ghost seen: nat)
    requires start <= cursor && At(s, cursor) != QUOTE
    requires n < out.Length && Progress(s, start, cursor, out[..n]) && n + Measure(s, cursor).len < out.Length
    modifies out
    ensures next == 0 ==> Parse(s, start).Bad?
    ensures next > 0 ==> cursor < next && n + more <= out.Length && Progress(s, start, next, out[..n + more])
    ensures seen <= Measure(s, start).close
  {
    hide Measure;
    hide Parse;
    hide Progress;
    if At(s, cursor) == BACKSLASH && At(s, cursor + 1) == LETTER_U {
      next, more, seen := UnicodeToken(s, start, cursor, out, n);
    } else {
      next, seen := PlainToken(s, start, cursor, out, n);
      more := 1;
    }
  }

  /**
   __parse_json_string, into a buffer for the counted bytes and a terminator; `seen` is the last byte it looks at,
   which is not behind the closing quote, also when an escape is bad.
   */
  method ParseString(s: seq<Byte>, start: nat, out: array<Byte>) returns (ret: int, end: nat, n: nat, ghost seen: nat)
    requires Measure(s, start).Extent? && out.Length >= Measure(s, start).len + 1
    modifies out
    ensures ret == if Parse(s, start).Bad? then -2 else 0
    ensures ret == 0 ==> end == Measure(s, start).close + 1 && n <= Measure(s, start).len
                         && out[..n] == Parse(s, start).bytes && out[n] == 0
    ensures ret == -2 ==> start <= end <= Measure(s, start).close && n <= Measure(s, start).len
    ensures seen <= Measure(s, start).close
  {
    var cursor := start;
    n := 0;
    Begins(s, start);
    assert out[..0] == [];
    seen := start;
    while At(s, cursor) != QUOTE
      invariant start <= cursor && seen <= Measure(s, start).close
      invariant n < out.Length && Progress(s, start, cursor, out[..n])
      decreases |s| - cursor
    {
      var next, more;
      next, more, seen := Token(s, start, cursor, out, n);
      if next == 0 {
        return -2, cursor, n, seen;
      }
      cursor, n := next, n + more;
    }
    ghost var written := out[..n];
    assert written + [] == written;
    out[n] := 0;
    assert out[..n] == written;
    ret, end := 0, cursor + 1;
  }
}
