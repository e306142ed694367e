/**
 The chunked transfer coding of section 7.1 of RFC 9112, and its round trip through the parser.
 */
module HttpChunked {
  import opened Basics
  import opened HttpParser
  import opened HttpFields
  import opened HttpMessage

  function HexDigit(d: nat): (c: char)
    requires d < 16
    ensures HexValue(c) == d && !StopCr(c) && !IsSpace(c) && c != '-' && c != '+'
  {
    if d < 10 then '0' + d as char else 'a' + (d - 10) as char
  }

  /** The hexadecimal digits of n, without leading zeros. */
  function Hex(n: nat): (s: string)
    ensures s != [] && forall i :: 0 <= i < |s| ==> HexValue(s[i]) >= 0 && !StopCr(s[i])
                                                    && !IsSpace(s[i]) && s[i] != '-' && s[i] != '+'
  {
    if n < 16 then [HexDigit(n)] else Hex(n / 16) + [HexDigit(n % 16)]
  }

  /**
   A chunk as it may be sent: its size in hexadecimal digits, an extension, the data, and the two bytes that end it.
   */
  datatype Coded = Coded(size: string, ext: string, data: string, end: string)

  function ChunkText(c: Coded): string {
    (c.size + c.ext) + ("\r\n" + (c.data + c.end))
  }

  function ChunksText(chunks: seq<Coded>): string {
    if chunks == [] then [] else ChunkText(chunks[0]) + ChunksText(chunks[1..])
  }

  function TrailersText(lines: seq<string>): string {
    if lines == [] then [] else lines[0] + "\r\n" + TrailersText(lines[1..])
  }

  /** The chunks, the line of the last chunk, the trailer lines and the empty line */
  function BodyText(chunks: seq<Coded>, last: string, trailers: seq<string>): string {
    ChunksText(chunks) + (last + ("\r\n" + (TrailersText(trailers) + "\r\n")))
  }

  predicate HexOnly(s: string) {
    s != [] && forall i :: 0 <= i < |s| ==> HexValue(s[i]) >= 0
  }

  /** What may follow the size: blanks and extensions, which start with a semicolon. */
  predicate Extension(s: string) {
    (s != [] ==> s[0] == ';' || IsBlank(s[0])) && forall i :: 0 <= i < |s| ==> s[i] != '\r'
  }

  /** A size line: a size of n and an extension, within the limit of the parser. */
  predicate SizeLine(size: string, ext: string, n: nat) {
    HexOnly(size) && Extension(ext) && HexDigits(size, 0) == n && |size| + |ext| < HTTP_CHUNK_LINE_MAX
  }

  /** The two bytes behind the data may be any. */
  predicate ChunkFits(c: Coded) {
    SizeLine(c.size, c.ext, |c.data|) && 0 < |c.data| < CHUNK_SIZE_MAX && |c.end| == 2
  }

  ghost predicate LastFits(last: string) {
    exists size, ext :: SizeLine(size, ext, 0) && last == size + ext
  }

  predicate TrailerFits(line: string) {
    0 < |line| < HTTP_TRAILER_LINE_MAX && forall i :: 0 <= i < |line| ==> line[i] != '\r'
  }

  // ----- the size line -----

  lemma {:induction false} HexAppend(s: string, acc: nat, c: char)
    requires (forall i :: 0 <= i < |s| ==> HexValue(s[i]) >= 0) && HexValue(c) >= 0
    ensures HexDigits(s + [c], acc) == 16 * HexDigits(s, acc) + HexValue(c)
    decreases |s|
  {
    if s == [] {
      assert s + [c] == [c];
      assert HexDigits([c][1..], 16 * acc + HexValue(c)) == 16 * acc + HexValue(c);
    } else {
      assert (s + [c])[1..] == s[1..] + [c];
      HexAppend(s[1..], 16 * acc + HexValue(s[0]), c);
    }
  }

  lemma {:induction false} HexReads(n: nat)
    ensures HexDigits(Hex(n), 0) == n
    decreases n
  {
    if n < 16 {
      var c := HexDigit(n);
      assert HexDigits([c][1..], n) == n;
    } else {
      HexReads(n / 16);
      HexAppend(Hex(n / 16), 0, HexDigit(n % 16));
    }
  }

  lemma {:induction false} DigitsStop(s: string, ext: string, acc: nat)
    requires (forall i :: 0 <= i < |s| ==> HexValue(s[i]) >= 0) && Extension(ext)
    ensures HexDigits(s + ext, acc) == HexDigits(s, acc)
    decreases |s|
  {
    if s == [] {
      assert s + ext == ext;
    } else {
      assert (s + ext)[1..] == s[1..] + ext;
      DigitsStop(s[1..], ext, 16 * acc + HexValue(s[0]));
    }
  }

  lemma {:induction false} HexStarts(c: char)
    requires HexValue(c) >= 0
    ensures !IsSpace(c) && c != '-' && c != '+' && Lower(c) != 'x' && c != '\r'
  {
  }

  /** Not a number, from which strtol could not go on either */
  predicate NoDigit(s: string) {
    s == [] || HexValue(s[0]) < 0
  }

  /** What may stand in front of the digits */
  predicate Prefix(spaces: string, sign: string, zeroX: string) {
    && (forall i :: 0 <= i < |spaces| ==> spaces[i] in [' ', '\t', '\n', '\r', 11 as char, 12 as char])
    && (sign == "" || sign == "+" || sign == "-") && (zeroX == "" || zeroX == "0x" || zeroX == "0X")
  }

  /** A zero behind which the x of a prefix stands */
  predicate ZeroBeforeX(digits: string, tail: string) {
    digits == "0" && |tail| > 1 && (tail[0] == 'x' || tail[0] == 'X') && HexValue(tail[1]) >= 0
  }

  lemma {:induction false} Unspaced(spaces: string, s: string)
    requires forall i :: 0 <= i < |spaces| ==> IsSpace(spaces[i])
    ensures Strtol16(spaces + s) == Strtol16(s)
    decreases |spaces|
  {
    if spaces == [] {
      assert spaces + s == s;
    } else {
      assert (spaces + s)[1..] == spaces[1..] + s;
      Unspaced(spaces[1..], s);
    }
  }

  lemma {:induction false} DigitsEnd(s: string, tail: string, acc: nat)
    requires (forall i :: 0 <= i < |s| ==> HexValue(s[i]) >= 0) && NoDigit(tail)
    ensures HexDigits(s + tail, acc) == HexDigits(s, acc)
    decreases |s|
  {
    if s == [] {
      assert s + tail == tail;
    } else {
      assert (s + tail)[1..] == s[1..] + tail;
      DigitsEnd(s[1..], tail, 16 * acc + HexValue(s[0]));
    }
  }

  lemma {:induction false} UnsignedReads(t: string, zeroX: string, digits: string, tail: string)
    requires t == zeroX + (digits + tail) && (zeroX == "" || zeroX == "0x" || zeroX == "0X") && HexOnly(digits)
    requires NoDigit(tail) && (zeroX == "" ==> !ZeroBeforeX(digits, tail))
    ensures |t| > 0 && HexValue(t[0]) >= 0
    ensures var u := if |t| > 2 && t[0] == '0' && Lower(t[1]) == 'x' && HexValue(t[2]) >= 0 then t[2..] else t;
            HexDigits(u, 0) == HexDigits(digits, 0)
  {
    DigitsEnd(digits, tail, 0);
    if zeroX == "" {
      assert t == digits + tail;
      HexStarts(digits[0]);
      if |digits| > 1 {
        HexStarts(digits[1]);
        assert t[1] == digits[1];
      } else if |tail| > 1 {
        assert t[1] == tail[0] && t[2] == tail[1];
      }
    } else {
      assert t[0] == zeroX[0] && t[1] == zeroX[1] && t[2] == digits[0];
      assert t[2..] == digits + tail;
    }
  }

  /** strtol with base 16: blanks, a sign, a prefix, and then as many digits as there are. */
  lemma {:induction false} StrtolReads(spaces: string, sign: string, zeroX: string, digits: string, tail: string)
    requires Prefix(spaces, sign, zeroX) && HexOnly(digits)
    requires NoDigit(tail) && (zeroX == "" ==> !ZeroBeforeX(digits, tail))
    ensures var v: int := HexDigits(digits, 0);
            Strtol16(spaces + (sign + (zeroX + (digits + tail)))) == Some(if sign == "-" then -v else v)
  {
    var t := zeroX + (digits + tail);
    var s := sign + t;
    Unspaced(spaces, s);
    UnsignedReads(t, zeroX, digits, tail);
    HexStarts(t[0]);
    if sign == "" {
      assert s == t;
    } else {
      assert s[0] == sign[0] && s[1..] == t;
    }
  }

  /** Without a digit there is no number. */
  lemma {:induction false} StrtolRefuses(spaces: string, sign: string, tail: string)
    requires Prefix(spaces, sign, "") && NoDigit(tail)
    requires sign == "" && tail != [] ==> !IsSpace(tail[0]) && tail[0] != '+' && tail[0] != '-'
    ensures Strtol16(spaces + (sign + tail)) == None
  {
    var s := sign + tail;
    Unspaced(spaces, s);
    if sign == "" {
      assert s == tail;
    } else {
      assert s[0] == sign[0] && s[1..] == tail;
    }
  }

  /** strtol reads the size in front of an extension. */
  lemma {:induction false} SizeReads(size: string, ext: string)
    requires HexOnly(size) && Extension(ext)
    ensures Strtol16(size + ext) == Some(HexDigits(size, 0))
  {
    var s := size + ext;
    DigitsStop(size, ext, 0);
    HexStarts(size[0]);
    assert s[0] == size[0];
    if |size| > 1 {
      HexStarts(size[1]);
      assert s[1] == size[1];
    } else if |s| > 1 {
      assert s[1] == ext[0];
    }
  }

  /** Every size can be written, without leading zeros. */
  lemma {:induction false} SizeWritten(n: nat)
    ensures HexOnly(Hex(n)) && HexDigits(Hex(n), 0) == n && Strtol16(Hex(n)) == Some(n)
  {
    HexReads(n);
    SizeReads(Hex(n), []);
    assert Hex(n) + [] == Hex(n);
  }

  // ----- the units -----

  /** A line without a carriage return is found by the scan. */
  lemma {:induction false} LineFound(line: string, rest: string, limit: nat)
    requires (forall i :: 0 <= i < |line| ==> !StopCr(line[i])) && |line| < limit
    ensures var s := line + ("\r\n" + rest);
            Scan(s, 0, limit, StopCr) == |line| && |line| + 1 < |s| && s[|line| + 1] == '\n' && s[..|line|] == line
  {
    var s := line + ("\r\n" + rest);
    forall k | 0 <= k < |line|
      ensures !StopCr(s[k])
    {
      assert s[k] == line[k];
    }
    assert s[|line|] == '\r';
    ScanIs(s, 0, |line|, limit, StopCr);
    assert s[..|line|] == line;
  }

  lemma {:induction false} SizeLineFound(size: string, ext: string, n: nat, rest: string)
    requires SizeLine(size, ext, n)
    ensures var line := size + ext;
            var s := line + ("\r\n" + rest);
            && Scan(s, 0, HTTP_CHUNK_LINE_MAX, StopCr) == |line| && |line| + 1 < |s|
            && s[|line| + 1] == '\n' && s[..|line|] == line
            && Strtol16(line) == Some(n)
  {
    var line := size + ext;
    forall i | 0 <= i < |line|
      ensures !StopCr(line[i])
    {
      if i < |size| {
        HexStarts(size[i]);
      } else {
        assert line[i] == ext[i - |size|];
      }
    }
    LineFound(line, rest, HTTP_CHUNK_LINE_MAX);
    SizeReads(size, ext);
  }

  lemma {:induction false} ChunkReads(c: Chunk, coded: Coded, rest: string)
    requires c.state.CpsChunkData? && ChunkFits(coded)
    ensures ParseChunkData(c, ChunkText(coded) + rest) == Done(c.(offset := c.offset + |ChunkText(coded)|))
  {
    var line, tail := coded.size + coded.ext, coded.data + coded.end + rest;
    SizeLineFound(coded.size, coded.ext, |coded.data|, tail);
    assert ChunkText(coded) + rest == line + ("\r\n" + tail);
  }

  lemma {:induction false} LastChunkReads(c: Chunk, last: string, rest: string)
    requires c.state.CpsChunkData? && LastFits(last)
    ensures ParseChunkData(c, last + ("\r\n" + rest)) == Done(Chunk(CpsTrailerPart, c.offset + |last| + 2))
  {
    var size, ext :| SizeLine(size, ext, 0) && last == size + ext;
    SizeLineFound(size, ext, 0, rest);
  }

  lemma {:induction false} TrailerReads(c: Chunk, line: string, rest: string)
    requires |line| < HTTP_TRAILER_LINE_MAX && forall i :: 0 <= i < |line| ==> line[i] != '\r'
    ensures ParseTrailerPart(c, line + "\r\n" + rest)
            == Done(Chunk(if line == [] then CpsChunkComplete else c.state, c.offset + |line| + 2))
  {
    LineFound(line, rest, HTTP_TRAILER_LINE_MAX);
    assert line + "\r\n" + rest == line + ("\r\n" + rest);
  }

  // ----- the body -----

  /** One unit of the body is read and the parser stands behind it. */
  lemma {:induction false} UnitStep(c: Chunk, c': Chunk, msg: string, text: string, rest: string)
    requires !c.state.CpsChunkComplete? && c.offset <= |msg| && msg[c.offset..] == text + rest
    requires ParseChunkUnit(c, text + rest) == Done(c') && c'.offset == c.offset + |text|
    ensures c'.offset <= |msg| && msg[c'.offset..] == rest && ParseChunk(c, msg) == ParseChunk(c', msg)
  {
    assert msg[c'.offset..] == msg[c.offset..][|text|..] == rest;
  }

  lemma {:induction false} TrailersParse(c: Chunk, msg: string, lines: seq<string>, rest: string)
    requires c.state.CpsTrailerPart? && c.offset <= |msg| && msg[c.offset..] == TrailersText(lines) + ("\r\n" + rest)
    requires forall l :: l in lines ==> TrailerFits(l)
    ensures ParseChunk(c, msg) == (Chunk(CpsChunkComplete, |msg| - |rest|), Finished)
    decreases |lines|
  {
    if lines == [] {
      var c' := Chunk(CpsChunkComplete, c.offset + 2);
      TrailerReads(c, [], rest);
      assert [] + "\r\n" + rest == "\r\n" + rest == msg[c.offset..];
      UnitStep(c, c', msg, "\r\n", rest);
    } else {
      var tail := TrailersText(lines[1..]) + ("\r\n" + rest);
      var c' := Chunk(CpsTrailerPart, c.offset + |lines[0]| + 2);
      assert TrailerFits(lines[0]);
      TrailerReads(c, lines[0], tail);
      assert msg[c.offset..] == lines[0] + "\r\n" + tail;
      UnitStep(c, c', msg, lines[0] + "\r\n", tail);
      TrailersParse(c', msg, lines[1..], rest);
    }
  }

  lemma {:induction false} LastText(last: string, t: string, rest: string)
    ensures ([] + (last + ("\r\n" + (t + "\r\n")))) + rest == last + ("\r\n" + (t + ("\r\n" + rest)))
    ensures last + ("\r\n" + (t + ("\r\n" + rest))) == (last + "\r\n") + (t + ("\r\n" + rest))
  {
  }

  lemma {:induction false} LastParse(c: Chunk, msg: string, last: string, trailers: seq<string>, rest: string)
    requires c.state.CpsChunkData? && c.offset <= |msg| && msg[c.offset..] == BodyText([], last, trailers) + rest
    requires LastFits(last) && (forall l :: l in trailers ==> TrailerFits(l))
    ensures ParseChunk(c, msg) == (Chunk(CpsChunkComplete, |msg| - |rest|), Finished)
  {
    var tail := TrailersText(trailers) + ("\r\n" + rest);
    var c' := Chunk(CpsTrailerPart, c.offset + |last| + 2);
    LastChunkReads(c, last, tail);
    LastText(last, TrailersText(trailers), rest);
    UnitStep(c, c', msg, last + "\r\n", tail);
    TrailersParse(c', msg, trailers, rest);
  }

  lemma {:induction false} MoreText(x: string, y: string, z: string, rest: string)
    ensures ((x + y) + z) + rest == x + ((y + z) + rest)
  {
  }

  /** The chunk parser finishes exactly behind a chunked body, whatever follows it. */
  lemma {:induction false} ChunksParse(c: Chunk, msg: string, chunks: seq<Coded>, last: string, trailers: seq<string>,
                                       rest: string)
    requires c.state.CpsChunkData? && c.offset <= |msg| && msg[c.offset..] == BodyText(chunks, last, trailers) + rest
    requires (forall d :: d in chunks ==> ChunkFits(d)) && LastFits(last)
    requires (forall l :: l in trailers ==> TrailerFits(l))
    ensures ParseChunk(c, msg) == (Chunk(CpsChunkComplete, |msg| - |rest|), Finished)
    decreases |chunks|
  {
    if chunks == [] {
      LastParse(c, msg, last, trailers, rest);
    } else {
      var c' := FirstParse(c, msg, chunks, last, trailers, rest);
      ChunksParse(c', msg, chunks[1..], last, trailers, rest);
    }
  }

  lemma {:induction false} FirstParse(c: Chunk, msg: string, chunks: seq<Coded>, last: string, trailers: seq<string>,
                                      rest: string)
    returns (c': Chunk)
    requires c.state.CpsChunkData? && c.offset <= |msg| && msg[c.offset..] == BodyText(chunks, last, trailers) + rest
    requires chunks != [] && ChunkFits(chunks[0])
    ensures c'.state.CpsChunkData? && c'.offset <= |msg|
    ensures msg[c'.offset..] == BodyText(chunks[1..], last, trailers) + rest
    ensures ParseChunk(c, msg) == ParseChunk(c', msg)
  {
    var text, tail := ChunkText(chunks[0]), BodyText(chunks[1..], last, trailers) + rest;
    c' := c.(offset := c.offset + |text|);
    ChunkReads(c, chunks[0], tail);
    MoreText(text, ChunksText(chunks[1..]), last + ("\r\n" + (TrailersText(trailers) + "\r\n")), rest);
    UnitStep(c, c', msg, text, tail);
  }

  /**
   A chunked message reads back and is consumed exactly, whatever bytes of a next message follow it,
   for every division of the data into chunks, all extensions and trailer lines, and any two bytes behind the data.
   */
  lemma {:induction false} ChunkedRoundTrip(isResp: bool, a: string, b: string, c: string, hs: seq<Header>,
                                            chunks: seq<Coded>, last: string, trailers: seq<string>, rest: string)
    requires WellFormedLine(a, b, c) && forall f :: f in hs ==> WellFormedHeader(f)
    requires FramingOf(isResp, false, b, hs).ByChunks?
    requires (forall d :: d in chunks ==> ChunkFits(d)) && LastFits(last)
    requires (forall l :: l in trailers ==> TrailerFits(l))
    ensures var body := BodyText(chunks, last, trailers);
            var msg := MessageText(a, b, c, hs, body);
            Complete(Feed(Init(isResp, false), msg + rest), msg, LineOf(isResp, a, b, c), hs,
                     FlagsOf(if isResp then a else c, hs), body)
  {
    MessageMeans(isResp, false, a, b, c, hs);
    hide FramingOf;
    hide FlagsOf;
    var body := BodyText(chunks, last, trailers);
    var msg := MessageText(a, b, c, hs, body);
    Suffix(LineText(a, b, c), HeadersText(hs), body);
    BodyBeforeRest(msg, body, rest, chunks, last, trailers);
    ChunkedFrom(Init(isResp, false), a, b, c, hs, rest, body, msg);
  }

  /** One Transfer-Encoding field that says chunked, among fields that do not frame the message */
  lemma {:induction false} ChunkedFieldRoundTrip(isResp: bool, a: string, b: string, c: string, pre: seq<Header>,
                                                 name: string, post: seq<Header>, chunks: seq<Coded>, last: string,
                                                 trailers: seq<string>, rest: string)
    requires WellFormedLine(a, b, c) && (isResp ==> !BodylessCode(b))
    requires FreeOfFraming(post) && SameIgnoringCase(name, "Transfer-Encoding")
    requires forall f :: f in pre + ([Header(name, "chunked")] + post) ==> WellFormedHeader(f)
    requires (forall d :: d in chunks ==> ChunkFits(d)) && LastFits(last)
    requires (forall l :: l in trailers ==> TrailerFits(l))
    ensures var hs := pre + ([Header(name, "chunked")] + post);
            var body := BodyText(chunks, last, trailers);
            var msg := MessageText(a, b, c, hs, body);
            Complete(Feed(Init(isResp, false), msg + rest), msg, LineOf(isResp, a, b, c), hs,
                     FlagsOf(if isResp then a else c, hs), body)
  {
    var f := Header(name, "chunked");
    var hs := pre + ([f] + post);
    CaseOfNames(name);
    LastBefore(pre, f, post);
    ChunkedRoundTrip(isResp, a, b, c, hs, chunks, last, trailers, rest);
  }

  lemma {:induction false} LastBefore(pre: seq<Header>, f: Header, post: seq<Header>)
    requires FreeOfFraming(post) && SameIgnoringCase(f.name, "transfer-encoding")
    ensures LastValue(pre + ([f] + post), "transfer-encoding", AnyValue) == Some(f.value)
    decreases |post|
  {
    var hs := pre + ([f] + post);
    if post == [] {
      assert hs[|hs| - 1] == f;
    } else {
      var n := |post| - 1;
      CaseOfNames(post[n].name);
      assert hs[|hs| - 1] == post[n] && post[n] in post;
      assert hs[..|hs| - 1] == pre + ([f] + post[..n]);
      LastBefore(pre, f, post[..n]);
    }
  }

  lemma {:induction false} BodyBeforeRest(msg: string, body: string, rest: string, chunks: seq<Coded>, last: string,
                                          trailers: seq<string>)
    requires body == BodyText(chunks, last, trailers) && |body| <= |msg| && msg[|msg| - |body|..] == body
    requires (forall d :: d in chunks ==> ChunkFits(d)) && LastFits(last)
    requires (forall l :: l in trailers ==> TrailerFits(l))
    ensures ParseChunk(Chunk(CpsChunkData, |msg| - |body|), msg + rest) == (Chunk(CpsChunkComplete, |msg|), Finished)
  {
    var o := |msg| - |body|;
    assert (msg + rest)[o..] == msg[o..] + rest == body + rest;
    ChunksParse(Chunk(CpsChunkData, o), msg + rest, chunks, last, trailers, rest);
  }

  /** A message whose body ends by itself */
  lemma {:induction false} ChunkedFrom(p: Parser, a: string, b: string, c: string, hs: seq<Header>, rest: string,
                                       body: string, msg: string)
    requires p.msgbuf == [] && !p.complete && InRange(p.core, p.msgbuf) && p.core.head.state.HpsStartLine?
    requires p.core.head.name == [] && p.core.head.headers == []
    requires WellFormedLine(a, b, c) && forall f :: f in hs ==> WellFormedHeader(f)
    requires ByItself(AddAll(MatchLine(p.isResp, a, b, c, p.core.head), hs))
    requires msg == MessageText(a, b, c, hs, body) && |body| <= |msg|
    requires ParseChunk(Chunk(CpsChunkData, |msg| - |body|), msg + rest) == (Chunk(CpsChunkComplete, |msg|), Finished)
    ensures Complete(Feed(p, msg + rest), msg, LineOf(p.isResp, a, b, c), hs,
                     AddAll(MatchLine(p.isResp, a, b, c, p.core.head), hs).flags, body)
  {
    var h := MatchLine(p.isResp, a, b, c, p.core.head);
    HeadBeforeRest(p.isResp, p.core.head, a, b, c, hs, body, rest, msg);
    AddAllHeaders(h, hs);
    ChunkedEnd(p, msg, body, rest, AddAll(h, hs));
  }

  /** The header of a message that other bytes follow */
  lemma {:induction false} HeadBeforeRest(isResp: bool, h: Head, a: string, b: string, c: string, hs: seq<Header>,
                                          body: string,
                                          rest: string, msg: string)
    requires h.state.HpsStartLine? && h.offset == 0 && h.name == []
    requires WellFormedLine(a, b, c) && forall f :: f in hs ==> WellFormedHeader(f)
    requires msg == MessageText(a, b, c, hs, body)
    ensures |body| <= |msg| && msg[|msg| - |body|..] == body
    ensures ParseHead(isResp, h, msg + rest)
            == (AddAll(MatchLine(isResp, a, b, c, h), hs).(offset := |msg| - |body|, state := HpsHeaderComplete),
                Finished)
  {
    hide AddAll;
    hide ParseHead;
    hide MatchLine;
    hide WellFormedHeader;
    hide WellFormedLine;
    TextAppend(a, b, c, hs, body, rest);
    hide HeadersText;
    Suffix(LineText(a, b, c), HeadersText(hs), body);
    HeadRoundTrip(isResp, h, a, b, c, hs, body + rest, msg + rest);
    assert |msg + rest| - |body + rest| == |msg| - |body|;
  }

  lemma {:induction false} TextAppend(a: string, b: string, c: string, hs: seq<Header>, body: string, rest: string)
    ensures MessageText(a, b, c, hs, body + rest) == MessageText(a, b, c, hs, body) + rest
  {
    assert "\r\n" + (body + rest) == "\r\n" + body + rest;
    assert HeadersText(hs) + ("\r\n" + body + rest) == HeadersText(hs) + ("\r\n" + body) + rest;
  }

  lemma {:induction false} CutBack(msg: string, rest: string)
    ensures (msg + rest)[..|msg|] == msg
  {
  }

  lemma {:induction false} StillByItself(e: Head, o: nat)
    requires ByItself(e)
    ensures ByItself(e.(offset := o, state := HpsHeaderComplete))
  {
  }

  lemma {:induction false} ChunkedEnd(p: Parser, msg: string, body: string, rest: string, e: Head)
    requires p.msgbuf == [] && !p.complete && InRange(p.core, p.msgbuf) && !p.core.head.state.HpsHeaderComplete?
    requires ByItself(e) && |body| <= |msg| && msg[|msg| - |body|..] == body
    requires ParseHead(p.isResp, p.core.head, msg + rest)
             == (e.(offset := |msg| - |body|, state := HpsHeaderComplete), Finished)
    requires ParseChunk(Chunk(CpsChunkData, |msg| - |body|), msg + rest) == (Chunk(CpsChunkComplete, |msg|), Finished)
    ensures Complete(Feed(p, msg + rest), msg, e.line, e.headers, e.flags, body)
  {
    hide *;
    var h := e.(offset := |msg| - |body|, state := HpsHeaderComplete);
    StillByItself(e, |msg| - |body|);
    CutBack(msg, rest);
    FeedChunked(p, msg + rest, h, |msg|);
    ReadsExactly(Feed(p, msg + rest), msg, h, body);
  }

  lemma {:induction false} ReadsExactly(f: Fed, msg: string, h: Head, body: string)
    requires f.outcome.Finished? && f.n == |msg| && f.parser.msgbuf == msg && f.parser.core.head == h
    requires h.offset <= |msg| && msg[h.offset..] == body
    ensures Complete(f, msg, h.line, h.headers, h.flags, body)
  {
  }

  lemma {:induction false} FeedChunked(p: Parser, all: string, h: Head, end: nat)
    requires p.msgbuf == [] && !p.complete && InRange(p.core, p.msgbuf) && !p.core.head.state.HpsHeaderComplete?
    requires ByItself(h) && h.offset <= |all| && end <= |all|
    requires ParseHead(p.isResp, p.core.head, all) == (h, Finished)
    requires ParseChunk(Chunk(CpsChunkData, h.offset), all) == (Chunk(CpsChunkComplete, end), Finished)
    ensures Feed(p, all) == Fed(Parser(p.isResp, Core(h, Chunk(CpsChunkComplete, end)), all[..end], true),
            Finished, end)
  {
    FeedFresh(p, all, h);
    ChunkedBody(p.core.(head := h), all, end);
  }

  lemma {:induction false} ChunkedBody(k: Core, all: string, end: nat)
    requires ByItself(k.head) && k.head.offset <= |all| && end <= |all|
    requires k.chunk.offset <= |all|
    requires ParseChunk(Chunk(CpsChunkData, k.head.offset), all) == (Chunk(CpsChunkComplete, end), Finished)
    ensures DriveBody(BeginBody(k), all) == (k.(chunk := Chunk(CpsChunkComplete, end)), Finished)
    ensures End(k.(chunk := Chunk(CpsChunkComplete, end))) == end
  {
  }
}
