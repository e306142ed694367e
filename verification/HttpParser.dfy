/**
 The incremental HTTP/1.1 parser of src/protocol/http_parser.c.

 A C char is a Dafny char with a code below 256; a string argument is the memory between
 `ptr` and `ptr + len`.  The unit parsers are functions of the parser fields and of the
 bytes not yet consumed; they return More (0), Bad (-2) or Done (1).  Class ParserT
 holds the struct's fields, with the loops of the C code.
 */
module HttpParser {
  import opened Basics

  const HTTP_START_LINE_MAX: nat := 8192
  const HTTP_HEADER_NAME_MAX: nat := 64
  const HTTP_HEADER_VALUE_MAX: nat := 8192
  const HTTP_CHUNK_LINE_MAX: nat := 1024
  const HTTP_TRAILER_LINE_MAX: nat := 8192
  const CHUNK_SIZE_MAX: nat := 2 * 1024 * 1024 * 1024 - HTTP_CHUNK_LINE_MAX - 4

  // ----- characters and C string functions -----

  predicate IsBlank(c: char) {
    c == ' ' || c == '\t'
  }

  /** (signed char)c <= 0 */
  predicate NotPositive(c: char) {
    c == '\0' || c as int >= 128
  }

  predicate IsDigit(c: char) {
    '0' <= c <= '9'
  }

  function Lower(c: char): char {
    if 'A' <= c <= 'Z' then c + 32 as char else c
  }

  /** Equal lengths and strncasecmp == 0 */
  predicate SameIgnoringCase(a: string, b: string) {
    |a| == |b| && forall i :: 0 <= i < |a| ==> Lower(a[i]) == Lower(b[i])
  }

  predicate StartsWith(s: string, p: string) {
    |p| <= |s| && s[..|p|] == p
  }

  /** The first index from i on where `stop` holds, or the end of the scanned range. */
  function Scan(s: string, i: nat, limit: nat, stop: char -> bool): (j: nat)
    ensures i <= j && (j == i || (j <= |s| && j <= limit))
    ensures forall k :: i <= k < j ==> !stop(s[k])
    ensures j < |s| && j < limit ==> stop(s[j])
    decreases |s| - i
  {
    if i < |s| && i < limit && !stop(s[i]) then Scan(s, i + 1, limit, stop) else i
  }

  /** atol, on a string that starts with a digit */
  function Atol(s: string, acc: nat): nat
    decreases |s|
  {
    if |s| > 0 && IsDigit(s[0]) then Atol(s[1..], 10 * acc + (s[0] as int - '0' as int)) else acc
  }

  function HexValue(c: char): int {
    if IsDigit(c) then c as int - '0' as int
    else if 'a' <= Lower(c) <= 'f' then Lower(c) as int - 'a' as int + 10
    else -1
  }

  function HexDigits(s: string, acc: nat): nat
    decreases |s|
  {
    if |s| > 0 && HexValue(s[0]) >= 0 then HexDigits(s[1..], 16 * acc + HexValue(s[0])) else acc
  }

  predicate IsSpace(c: char) {
    c == ' ' || 9 <= c as int <= 13
  }

  /** strtol(s, &end, 16), unbounded; None when end == s */
  function Strtol16(s: string): Option<int>
    decreases |s|
  {
    if |s| > 0 && IsSpace(s[0]) then Strtol16(s[1..])
    else
      var neg := |s| > 0 && s[0] == '-';
      var t := if neg || (|s| > 0 && s[0] == '+') then s[1..] else s;
      if |t| == 0 || HexValue(t[0]) < 0 then None
      else
        var u := if |t| > 2 && t[0] == '0' && Lower(t[1]) == 'x' && HexValue(t[2]) >= 0 then t[2..] else t;
        var v: int := HexDigits(u, 0);
        Some(if neg then -v else v)
  }

  // ----- parser fields -----

  datatype HState = HpsStartLine | HpsHeaderName | HpsHeaderValue | HpsHeaderComplete
  datatype CState = CpsChunkData | CpsTrailerPart | CpsChunkComplete

  datatype StartLine =
    | NoLine
    | Request(verb: string, uri: string, version: string)
    | Status(version: string, code: string, phrase: string)

  datatype Header = Header(name: string, value: string)

  datatype Flags = Flags(hasConnection: bool, hasContentLength: bool, hasKeepAlive: bool,
                         expectContinue: bool, keepAlive: bool, chunked: bool)

  /** The fields that parsing the message header writes; a length of (size_t)-1 is None. */
  datatype Head = Head(state: HState, offset: nat, line: StartLine, headers: seq<Header>, name: string,
                       contentLength: Option<nat>, transferLength: Option<nat>, flags: Flags)

  datatype Chunk = Chunk(state: CState, offset: nat)

  datatype Unit<+T> = More | Bad | Done(next: T)

  // ----- the unit parsers -----

  function OldVersion(version: string, flags: Flags): Flags {
    if version == "HTTP/1.0" || StartsWith(version, "HTTP/0") then flags.(keepAlive := false) else flags
  }

  /** __match_request_line and __match_status_line */
  function MatchLine(isResp: bool, a: string, b: string, c: string, h: Head): Head {
    if isResp then
      h.(line := Status(a, b, c), flags := OldVersion(a, h.flags),
         transferLength := if StartsWith(b, "1") || b == "204" || b == "304" then Some(0) else h.transferLength)
    else
      h.(line := Request(a, b, c), flags := OldVersion(c, h.flags))
  }

  predicate StopStart(c: char) {
    c == '\r' || c == '\0'
  }

  predicate StopSpace(c: char) {
    c == ' '
  }

  /** A start line is cut at its first two spaces. */
  function SplitLine(line: string): Option<(string, string, string)> {
    var j := Scan(line, 0, |line|, StopSpace);
    if j == |line| then None
    else
      var k := Scan(line, j + 1, |line|, StopSpace);
      if k == |line| then None else Some((line[..j], line[j + 1..k], line[k + 1..]))
  }

  /** __parse_start_line */
  function ParseStartLine(isResp: bool, h: Head, s: string): (r: Unit<Head>)
    ensures r.Done? ==> h.offset + 2 <= r.next.offset <= h.offset + |s|
  {
    if |s| >= 2 && s[0] == '\r' && s[1] == '\n' then Done(h.(offset := h.offset + 2))
    else
      var i := Scan(s, 0, HTTP_START_LINE_MAX, StopStart);
      if i == HTTP_START_LINE_MAX then Bad
      else if i == |s| then More
      else if s[i] == '\0' then Bad
      else if i == |s| - 1 then More
      else if s[i + 1] != '\n' then Bad
      else
        match SplitLine(s[..i])
        case None => Bad
        case Some((a, b, c)) => Done(MatchLine(isResp, a, b, c, h).(offset := h.offset + i + 2, state := HpsHeaderName))
  }

  predicate StopName(c: char) {
    c == ':' || NotPositive(c)
  }

  /** __parse_header_name */
  function ParseHeaderName(h: Head, s: string): (r: Unit<Head>)
    ensures r.Done? ==> h.offset + 1 <= r.next.offset <= h.offset + |s|
  {
    if |s| >= 2 && s[0] == '\r' && s[1] == '\n' then Done(h.(offset := h.offset + 2, state := HpsHeaderComplete))
    else
      var i := Scan(s, 0, HTTP_HEADER_NAME_MAX, StopName);
      if i == HTTP_HEADER_NAME_MAX then Bad
      else if i == |s| then More
      else if s[i] == ':' then Done(h.(name := s[..i], offset := h.offset + i + 1, state := HpsHeaderValue))
      else Bad
  }

  function Trim(value: string): string {
    if |value| > 0 && IsBlank(value[|value| - 1]) then Trim(value[..|value| - 1]) else value
  }

  datatype Value = Value(text: string, end: nat)

  /** __parse_header_value at index i of s, in the loop that skips blanks, with `value` read so far */
  function ValueBlanks(s: string, i: nat, value: string): (r: Unit<Value>)
    requires i <= |s| && |value| <= HTTP_HEADER_VALUE_MAX
    ensures r.Done? ==> i + 2 <= r.next.end <= |s|
    decreases |s| - i, 1
  {
    if i == |s| then More
    else if IsBlank(s[i]) then ValueBlanks(s, i + 1, value)
    else ValueText(s, i, value)
  }

  /** ... in the loop that reads text */
  function ValueText(s: string, i: nat, value: string): (r: Unit<Value>)
    requires i < |s| && |value| <= HTTP_HEADER_VALUE_MAX
    ensures r.Done? ==> i + 2 <= r.next.end <= |s|
    decreases |s| - i, 0
  {
    if |value| == HTTP_HEADER_VALUE_MAX then Bad
    else if i + 1 == |s| then More
    else if s[i] == '\r' then ValueLineEnd(s, i + 1, value)
    else if NotPositive(s[i]) then Bad
    else ValueText(s, i + 1, value + [s[i]])
  }

  /** ... after a carriage return: the value ends unless the next line starts with a blank */
  function ValueLineEnd(s: string, i: nat, value: string): (r: Unit<Value>)
    requires i < |s| && |value| < HTTP_HEADER_VALUE_MAX
    ensures r.Done? ==> i + 1 <= r.next.end <= |s|
    decreases |s| - i, 2
  {
    TrimShorter(value);
    if s[i] != '\n' then Bad
    else if i + 1 == |s| then More
    else if IsBlank(s[i + 1]) then ValueBlanks(s, i + 2, Trim(value) + [' '])
    else Done(Value(Trim(value), i + 1))
  }

  lemma {:induction false} TrimShorter(value: string)
    ensures |Trim(value)| <= |value|
  {
    if |value| > 0 && IsBlank(value[|value| - 1]) {
      TrimShorter(value[..|value| - 1]);
    }
  }

  /** __check_message_header */
  function CheckHeader(name: string, value: string, h: Head): Head {
    if SameIgnoringCase(name, "Expect") then
      if SameIgnoringCase(value, "100-continue") then h.(flags := h.flags.(expectContinue := true)) else h
    else if SameIgnoringCase(name, "Connection") then
      var f := h.flags.(hasConnection := true);
      if SameIgnoringCase(value, "Keep-Alive") then h.(flags := f.(keepAlive := true))
      else if SameIgnoringCase(value, "close") then h.(flags := f.(keepAlive := false))
      else h.(flags := f)
    else if SameIgnoringCase(name, "Keep-Alive") then h.(flags := h.flags.(hasKeepAlive := true))
    else if SameIgnoringCase(name, "Content-Length") then
      var g := h.(flags := h.flags.(hasContentLength := true));
      if 0 < |value| <= 15 && IsDigit(value[0]) then g.(contentLength := Some(Atol(value, 0))) else g
    else if SameIgnoringCase(name, "Transfer-Encoding") then
      h.(flags := h.flags.(chunked := !SameIgnoringCase(value, "identity")))
    else h
  }

  /** http_parser_add_header */
  function AddHeader(name: string, value: string, h: Head): Head {
    CheckHeader(name, value, h.(headers := h.headers + [Header(name, value)]))
  }

  /** __parse_header_value */
  function ParseHeaderValue(h: Head, s: string): (r: Unit<Head>)
    ensures r.Done? ==> h.offset + 2 <= r.next.offset <= h.offset + |s|
  {
    match ValueBlanks(s, 0, [])
    case More => More
    case Bad => Bad
    case Done(v) =>
      Done(AddHeader(h.name, v.text, h).(offset := h.offset + v.end, state := HpsHeaderName, name := []))
  }

  function ParseUnit(isResp: bool, h: Head, s: string): (r: Unit<Head>)
    requires !h.state.HpsHeaderComplete?
    ensures r.Done? ==> h.offset + 1 <= r.next.offset <= h.offset + |s|
  {
    match h.state
    case HpsStartLine => ParseStartLine(isResp, h, s)
    case HpsHeaderValue => ParseHeaderValue(h, s)
    case _ => ParseHeaderName(h, s)
  }

  datatype Outcome = Incomplete | Finished | Malformed

  /** __parse_message_header */
  function ParseHead(isResp: bool, h: Head, msg: string): (r: (Head, Outcome))
    requires h.offset <= |msg|
    ensures h.offset <= r.0.offset <= |msg|
    ensures r.1.Finished? <==> r.0.state.HpsHeaderComplete?
    decreases |msg| - h.offset
  {
    if h.state.HpsHeaderComplete? then (h, Finished)
    else
      match ParseUnit(isResp, h, msg[h.offset..])
      case More => (h, Incomplete)
      case Bad => (h, Malformed)
      case Done(h') => ParseHead(isResp, h', msg)
  }

  /** Parsing goes on from g as it does from h. */
  ghost predicate SameParse(isResp: bool, h: Head, g: Head, msg: string) {
    h.offset <= |msg| && g.offset <= |msg| && ParseHead(isResp, h, msg) == ParseHead(isResp, g, msg)
  }

  predicate StopCr(c: char) {
    c == '\r'
  }

  /** __parse_chunk_data */
  function ParseChunkData(c: Chunk, s: string): (r: Unit<Chunk>)
    ensures r.Done? ==> c.offset + 2 <= r.next.offset <= c.offset + |s|
  {
    var i := Scan(s, 0, HTTP_CHUNK_LINE_MAX, StopCr);
    if i == HTTP_CHUNK_LINE_MAX then Bad
    else if i == |s| then More
    else if i == |s| - 1 then More
    else if s[i + 1] != '\n' then Bad
    else
      match Strtol16(s[..i])
      case None => Bad
      case Some(size) =>
        if size == 0 then Done(Chunk(CpsTrailerPart, c.offset + i + 2))
        else if 0 < size < CHUNK_SIZE_MAX then
          if |s| < size + i + 4 then More else Done(c.(offset := c.offset + size + i + 4))
        else Bad
  }

  /** __parse_trailer_part */
  function ParseTrailerPart(c: Chunk, s: string): (r: Unit<Chunk>)
    ensures r.Done? ==> c.offset + 2 <= r.next.offset <= c.offset + |s|
  {
    var i := Scan(s, 0, HTTP_TRAILER_LINE_MAX, StopCr);
    if i == HTTP_TRAILER_LINE_MAX then Bad
    else if i == |s| then More
    else if i == |s| - 1 then More
    else if s[i + 1] != '\n' then Bad
    else Done(Chunk(if i == 0 then CpsChunkComplete else c.state, c.offset + i + 2))
  }

  function ParseChunkUnit(c: Chunk, s: string): (r: Unit<Chunk>)
    ensures r.Done? ==> c.offset + 2 <= r.next.offset <= c.offset + |s|
  {
    if c.state.CpsChunkData? then ParseChunkData(c, s) else ParseTrailerPart(c, s)
  }

  /** __parse_chunk */
  function ParseChunk(c: Chunk, msg: string): (r: (Chunk, Outcome))
    requires c.offset <= |msg|
    ensures c.offset <= r.0.offset <= |msg|
    ensures r.1.Finished? <==> r.0.state.CpsChunkComplete?
    decreases |msg| - c.offset
  {
    if c.state.CpsChunkComplete? then (c, Finished)
    else
      match ParseChunkUnit(c, msg[c.offset..])
      case More => (c, Incomplete)
      case Bad => (c, Malformed)
      case Done(c') => ParseChunk(c', msg)
  }

  // ----- the parser -----

  datatype Core = Core(head: Head, chunk: Chunk)

  datatype Parser = Parser(isResp: bool, core: Core, msgbuf: string, complete: bool)

  /** http_parser_init; zeroBody is HttpResponse::parse_zero_body, for the reply to a HEAD request */
  function Init(isResp: bool, zeroBody: bool): Parser {
    var head := Head(HpsStartLine, 0, NoLine, [], [],
                     if isResp then None else Some(0), if zeroBody then Some(0) else None,
                     Flags(false, false, false, false, true, false));
    Parser(isResp, Core(head, Chunk(CpsChunkData, 0)), [], false)
  }

  predicate InRange(c: Core, msg: string) {
    c.head.offset <= |msg| && c.chunk.offset <= |msg|
  }

  /** The fields set when the message header is complete. */
  function BeginBody(c: Core): Core {
    if c.head.flags.chunked then c.(chunk := Chunk(CpsChunkData, c.head.offset))
    else if c.head.transferLength.None? then c.(head := c.head.(transferLength := c.head.contentLength))
    else c
  }

  /** Where a finished message ends. */
  function End(c: Core): nat {
    if c.head.transferLength.Some? then c.head.offset + c.head.transferLength.value else c.chunk.offset
  }

  function DriveBody(c: Core, msg: string): (r: (Core, Outcome))
    requires InRange(c, msg)
    ensures InRange(r.0, msg) && (r.1.Finished? ==> End(r.0) <= |msg|)
  {
    if c.head.transferLength.Some? then (c, if |msg| >= End(c) then Finished else Incomplete)
    else if !c.head.flags.chunked then (c, Incomplete)
    else var (k, r) := ParseChunk(c.chunk, msg); (c.(chunk := k), r)
  }

  /** The parsing done by a call of http_parser_append_message, on all the bytes held. */
  function Drive(isResp: bool, c: Core, msg: string): (r: (Core, Outcome))
    requires InRange(c, msg)
    ensures InRange(r.0, msg) && (r.1.Finished? ==> End(r.0) <= |msg|)
  {
    if c.head.state.HpsHeaderComplete? then DriveBody(c, msg)
    else
      var (h, r) := ParseHead(isResp, c.head, msg);
      if r.Finished? then DriveBody(BeginBody(c.(head := h)), msg) else (c.(head := h), r)
  }

  /** What a call of http_parser_append_message leaves, returns and stores in *n. */
  datatype Fed = Fed(parser: Parser, outcome: Outcome, n: int)

  /** http_parser_append_message */
  function Feed(p: Parser, buf: string): (f: Fed)
    requires p.complete || InRange(p.core, p.msgbuf)
    ensures f.parser.complete || InRange(f.parser.core, f.parser.msgbuf)
    ensures f.parser.complete <==> f.outcome.Finished?
  {
    if p.complete then Fed(p, Finished, 0)
    else
      var msg := p.msgbuf + buf;
      var (c, r) := Drive(p.isResp, p.core, msg);
      if r.Finished? then Fed(Parser(p.isResp, c, msg[..End(c)], true), Finished, |buf| - (|msg| - End(c)))
      else Fed(Parser(p.isResp, c, msg, false), r, |buf|)
  }

  /** The chunks of a chunked message are behind its header. */
  predicate BodyBehind(c: Core) {
    c.head.state.HpsHeaderComplete? && c.head.flags.chunked && c.head.transferLength.None? ==>
      c.head.offset <= c.chunk.offset
  }

  /**
   A complete message is what its framing says: the header and a body of the announced length, or the header and the
   chunks.
   */
  predicate Framed(c: Core, msg: string) {
    && c.head.state.HpsHeaderComplete? && c.head.offset <= End(c) == |msg|
    && (c.head.transferLength.Some? || c.chunk.state.CpsChunkComplete?)
  }

  /** A finished message ends behind its header, where its framing says. */
  lemma {:induction false} EndsBehind(isResp: bool, c: Core, msg: string)
    requires InRange(c, msg) && BodyBehind(c)
    ensures var (k, r) := Drive(isResp, c, msg); BodyBehind(k) && (r.Finished? ==> Framed(k, msg[..End(k)]))
  {
  }

  /** What every parser in use satisfies. */
  predicate Sound(p: Parser) {
    if p.complete then Framed(p.core, p.msgbuf) else InRange(p.core, p.msgbuf) && BodyBehind(p.core)
  }

  lemma {:induction false} FeedSound(p: Parser, buf: string)
    requires Sound(p)
    ensures Sound(Feed(p, buf).parser) && |Feed(p, buf).parser.msgbuf| <= |p.msgbuf| + |buf|
  {
    if !p.complete {
      EndsBehind(p.isResp, p.core, p.msgbuf + buf);
    }
  }

  // ----- more bytes do not change what has been decided -----

  lemma {:induction false} ScanExtend(s: string, q: string, i: nat, limit: nat, stop: char -> bool)
    requires Scan(s, i, limit, stop) < |s| || Scan(s, i, limit, stop) >= limit
    ensures Scan(s + q, i, limit, stop) == Scan(s, i, limit, stop)
    decreases |s| - i
  {
    if i < |s| && i < limit && !stop(s[i]) {
      ScanExtend(s, q, i + 1, limit, stop);
    }
  }

  lemma {:induction false} StartLineExtend(isResp: bool, h: Head, s: string, q: string)
    requires !ParseStartLine(isResp, h, s).More?
    ensures ParseStartLine(isResp, h, s + q) == ParseStartLine(isResp, h, s)
  {
    if !(|s| >= 2 && s[0] == '\r' && s[1] == '\n') {
      var i := Scan(s, 0, HTTP_START_LINE_MAX, StopStart);
      ScanExtend(s, q, 0, HTTP_START_LINE_MAX, StopStart);
      if i < HTTP_START_LINE_MAX {
        assert (s + q)[..i] == s[..i];
      }
    }
  }

  lemma {:induction false} HeaderNameExtend(h: Head, s: string, q: string)
    requires !ParseHeaderName(h, s).More?
    ensures ParseHeaderName(h, s + q) == ParseHeaderName(h, s)
  {
    if !(|s| >= 2 && s[0] == '\r' && s[1] == '\n') {
      var i := Scan(s, 0, HTTP_HEADER_NAME_MAX, StopName);
      ScanExtend(s, q, 0, HTTP_HEADER_NAME_MAX, StopName);
      if i < HTTP_HEADER_NAME_MAX {
        assert (s + q)[..i] == s[..i];
      }
    }
  }

  lemma {:induction false} ValueBlanksExtend(s: string, q: string, i: nat, value: string)
    requires i <= |s| && |value| <= HTTP_HEADER_VALUE_MAX && !ValueBlanks(s, i, value).More?
    ensures ValueBlanks(s + q, i, value) == ValueBlanks(s, i, value)
    decreases |s| - i, 1
  {
    if IsBlank(s[i]) {
      ValueBlanksExtend(s, q, i + 1, value);
    } else {
      ValueTextExtend(s, q, i, value);
    }
  }

  lemma {:induction false} ValueTextExtend(s: string, q: string, i: nat, value: string)
    requires i < |s| && |value| <= HTTP_HEADER_VALUE_MAX && !ValueText(s, i, value).More?
    ensures ValueText(s + q, i, value) == ValueText(s, i, value)
    decreases |s| - i, 0
  {
    if |value| < HTTP_HEADER_VALUE_MAX {
      if s[i] == '\r' {
        ValueLineEndExtend(s, q, i + 1, value);
      } else if !NotPositive(s[i]) {
        ValueTextExtend(s, q, i + 1, value + [s[i]]);
      }
    }
  }

  lemma {:induction false} ValueLineEndExtend(s: string, q: string, i: nat, value: string)
    requires i < |s| && |value| < HTTP_HEADER_VALUE_MAX && !ValueLineEnd(s, i, value).More?
    ensures ValueLineEnd(s + q, i, value) == ValueLineEnd(s, i, value)
    decreases |s| - i, 2
  {
    TrimShorter(value);
    if s[i] == '\n' && IsBlank(s[i + 1]) {
      ValueBlanksExtend(s, q, i + 2, Trim(value) + [' ']);
    }
  }

  lemma {:induction false} UnitExtend(isResp: bool, h: Head, s: string, q: string)
    requires !h.state.HpsHeaderComplete? && !ParseUnit(isResp, h, s).More?
    ensures ParseUnit(isResp, h, s + q) == ParseUnit(isResp, h, s)
  {
    match h.state
    case HpsStartLine => StartLineExtend(isResp, h, s, q);
    case HpsHeaderName => HeaderNameExtend(h, s, q);
    case HpsHeaderValue => ValueBlanksExtend(s, q, 0, []);
  }

  /** Parsing the header of p and then of p + q is parsing it of p + q. */
  lemma {:induction false} ParseHeadExtend(isResp: bool, h: Head, p: string, q: string)
    requires h.offset <= |p|
    ensures var (h', r) := ParseHead(isResp, h, p);
            ParseHead(isResp, h, p + q) == if r.Incomplete? then ParseHead(isResp, h', p + q) else (h', r)
    decreases |p| - h.offset
  {
    if !h.state.HpsHeaderComplete? {
      hide ParseUnit;
      var s := p[h.offset..];
      assert (p + q)[h.offset..] == s + q;
      var u := ParseUnit(isResp, h, s);
      if !u.More? {
        UnitExtend(isResp, h, s, q);
      }
      if u.Done? {
        ParseHeadExtend(isResp, u.next, p, q);
      }
    }
  }

  lemma {:induction false} ChunkUnitExtend(c: Chunk, s: string, q: string)
    requires !ParseChunkUnit(c, s).More?
    ensures ParseChunkUnit(c, s + q) == ParseChunkUnit(c, s)
  {
    var limit := if c.state.CpsChunkData? then HTTP_CHUNK_LINE_MAX else HTTP_TRAILER_LINE_MAX;
    var i := Scan(s, 0, limit, StopCr);
    ScanExtend(s, q, 0, limit, StopCr);
    if i < limit {
      assert (s + q)[..i] == s[..i];
    }
  }

  lemma {:induction false} ParseChunkExtend(c: Chunk, p: string, q: string)
    requires c.offset <= |p|
    ensures var (c', r) := ParseChunk(c, p);
            ParseChunk(c, p + q) == if r.Incomplete? then ParseChunk(c', p + q) else (c', r)
    decreases |p| - c.offset
  {
    if !c.state.CpsChunkComplete? {
      var s := p[c.offset..];
      assert (p + q)[c.offset..] == s + q;
      var u := ParseChunkUnit(c, s);
      if !u.More? {
        ChunkUnitExtend(c, s, q);
      }
      if u.Done? {
        ParseChunkExtend(u.next, p, q);
      }
    }
  }

  lemma {:induction false} DriveBodyExtend(c: Core, p: string, q: string)
    requires InRange(c, p)
    ensures var (c', r) := DriveBody(c, p);
            DriveBody(c, p + q) == (if r.Incomplete? then DriveBody(c', p + q) else (c', r))
    ensures DriveBody(c, p).0.head == c.head
  {
    if c.head.transferLength.None? && c.head.flags.chunked {
      ParseChunkExtend(c.chunk, p, q);
    }
  }

  lemma {:induction false} DriveExtend(isResp: bool, c: Core, p: string, q: string)
    requires InRange(c, p)
    ensures var (c', r) := Drive(isResp, c, p);
            Drive(isResp, c, p + q) == if r.Incomplete? then Drive(isResp, c', p + q) else (c', r)
  {
    if c.head.state.HpsHeaderComplete? {
      DriveBodyExtend(c, p, q);
    } else {
      ParseHeadExtend(isResp, c.head, p, q);
      var (h, r) := ParseHead(isResp, c.head, p);
      if r.Finished? {
        DriveBodyExtend(BeginBody(c.(head := h)), p, q);
      }
    }
  }

  // ----- what needs more bytes uses them -----

  lemma {:induction false} ScanEarly(s: string, q: string, i: nat, limit: nat, stop: char -> bool)
    requires i <= |s| && Scan(s + q, i, limit, stop) < |s|
    ensures Scan(s, i, limit, stop) == Scan(s + q, i, limit, stop)
  {
    var j := Scan(s, i, limit, stop);
    if j < |s| || j >= limit {
      ScanExtend(s, q, i, limit, stop);
    }
  }

  lemma {:induction false} ValueBlanksLate(s: string, q: string, i: nat, value: string)
    requires i <= |s| && |value| <= HTTP_HEADER_VALUE_MAX && ValueBlanks(s, i, value).More?
    ensures var r := ValueBlanks(s + q, i, value); r.Done? ==> r.next.end >= |s|
    decreases |s| - i, 1
  {
    if i < |s| {
      if IsBlank(s[i]) {
        ValueBlanksLate(s, q, i + 1, value);
      } else {
        ValueTextLate(s, q, i, value);
      }
    }
  }

  lemma {:induction false} ValueTextLate(s: string, q: string, i: nat, value: string)
    requires i < |s| && |value| <= HTTP_HEADER_VALUE_MAX && ValueText(s, i, value).More?
    ensures var r := ValueText(s + q, i, value); r.Done? ==> r.next.end >= |s|
    decreases |s| - i, 0
  {
    if i + 1 < |s| {
      if s[i] == '\r' {
        ValueLineEndLate(s, q, i + 1, value);
      } else {
        ValueTextLate(s, q, i + 1, value + [s[i]]);
      }
    }
  }

  lemma {:induction false} ValueLineEndLate(s: string, q: string, i: nat, value: string)
    requires i < |s| && |value| < HTTP_HEADER_VALUE_MAX && ValueLineEnd(s, i, value).More?
    ensures var r := ValueLineEnd(s + q, i, value); r.Done? ==> r.next.end >= |s|
    decreases |s| - i, 2
  {
    TrimShorter(value);
    if i + 1 < |s| {
      ValueBlanksLate(s, q, i + 2, Trim(value) + [' ']);
    }
  }

  lemma {:induction false} UnitLate(isResp: bool, h: Head, s: string, q: string)
    requires !h.state.HpsHeaderComplete? && ParseUnit(isResp, h, s).More? && ParseUnit(isResp, h, s + q).Done?
    ensures var h' := ParseUnit(isResp, h, s + q).next;
            h'.offset > h.offset + |s| || (h'.offset == h.offset + |s| && !h'.state.HpsHeaderComplete?)
  {
    match h.state
    case HpsStartLine =>
      var i := Scan(s + q, 0, HTTP_START_LINE_MAX, StopStart);
      assert i <= |s| ==> (s + q)[..i] == s[..i];
      if i + 2 <= |s| {
        ScanEarly(s, q, 0, HTTP_START_LINE_MAX, StopStart);
      }
    case HpsHeaderName =>
      var i := Scan(s + q, 0, HTTP_HEADER_NAME_MAX, StopName);
      if i + 1 <= |s| {
        ScanEarly(s, q, 0, HTTP_HEADER_NAME_MAX, StopName);
      }
    case HpsHeaderValue =>
      ValueBlanksLate(s, q, 0, []);
  }

  lemma {:induction false} ParseHeadLate(isResp: bool, h: Head, p: string, q: string)
    requires h.offset <= |p| && ParseHead(isResp, h, p) == (h, Incomplete) && ParseHead(isResp, h, p + q).1.Finished?
    ensures ParseHead(isResp, h, p + q).0.offset > |p|
  {
    assert (p + q)[h.offset..] == p[h.offset..] + q;
    ParseHeadStuck(isResp, h, p);
    UnitLate(isResp, h, p[h.offset..], q);
  }

  lemma {:induction false} ParseHeadStuck(isResp: bool, h: Head, p: string)
    requires h.offset <= |p| && ParseHead(isResp, h, p) == (h, Incomplete)
    ensures !h.state.HpsHeaderComplete? && ParseUnit(isResp, h, p[h.offset..]).More?
  {
  }

  lemma {:induction false} ParseChunkLate(c: Chunk, p: string, q: string)
    requires c.offset <= |p| && ParseChunk(c, p) == (c, Incomplete) && ParseChunk(c, p + q).1.Finished?
    ensures ParseChunk(c, p + q).0.offset > |p|
  {
    var s := p[c.offset..];
    assert (p + q)[c.offset..] == s + q;
    assert ParseChunkUnit(c, s).More?;
    var limit := if c.state.CpsChunkData? then HTTP_CHUNK_LINE_MAX else HTTP_TRAILER_LINE_MAX;
    var i := Scan(s + q, 0, limit, StopCr);
    assert i <= |s| ==> (s + q)[..i] == s[..i];
    if i + 2 <= |s| {
      ScanEarly(s, q, 0, limit, StopCr);
    }
  }

  lemma {:induction false} DriveLate(isResp: bool, c: Core, p: string, q: string)
    requires InRange(c, p) && Drive(isResp, c, p) == (c, Incomplete) && Drive(isResp, c, p + q).1.Finished?
    ensures End(Drive(isResp, c, p + q).0) > |p|
  {
    if c.head.state.HpsHeaderComplete? {
      if c.head.transferLength.None? {
        ParseChunkLate(c.chunk, p, q);
      }
    } else {
      assert ParseHead(isResp, c.head, p) == (c.head, Incomplete);
      ParseHeadLate(isResp, c.head, p, q);
    }
  }

  // ----- split invariance -----

  /** The bytes held so far decide nothing: true initially and after every call that returns 0. */
  ghost predicate Waiting(p: Parser) {
    !p.complete && InRange(p.core, p.msgbuf) && Drive(p.isResp, p.core, p.msgbuf) == (p.core, Incomplete)
  }

  lemma {:induction false} InitWaiting(isResp: bool, zeroBody: bool)
    ensures Waiting(Init(isResp, zeroBody))
  {
  }

  /** A call never takes back bytes of earlier calls, and an inconclusive one leaves the parser waiting. */
  lemma {:induction false} FeedConsumes(p: Parser, buf: string)
    requires Waiting(p)
    ensures var f := Feed(p, buf);
            0 <= f.n <= |buf|
            && (f.outcome.Incomplete? ==> Waiting(f.parser) && f.n == |buf|)
            && (f.outcome.Finished? ==> f.parser.complete && f.parser.msgbuf == p.msgbuf + buf[..f.n] && f.n > 0)
  {
    var msg := p.msgbuf + buf;
    assert msg + [] == msg;
    DriveExtend(p.isResp, p.core, msg, []);
    if Feed(p, buf).outcome.Finished? {
      DriveLate(p.isResp, p.core, p.msgbuf, buf);
    }
  }

  function Concat(pieces: seq<string>): string {
    if pieces == [] then [] else pieces[0] + Concat(pieces[1..])
  }

  /** Appending the pieces in turn, up to a malformed one; n is the total consumed. */
  function FeedAll(p: Parser, pieces: seq<string>): (f: Fed)
    requires p.complete || InRange(p.core, p.msgbuf)
    ensures f.parser.complete || InRange(f.parser.core, f.parser.msgbuf)
    decreases |pieces|
  {
    if pieces == [] then Fed(p, if p.complete then Finished else Incomplete, 0)
    else
      var f := Feed(p, pieces[0]);
      if f.outcome.Malformed? then f
      else var g := FeedAll(f.parser, pieces[1..]); g.(n := f.n + g.n)
  }

  lemma {:induction false} FeedAllComplete(p: Parser, pieces: seq<string>)
    requires p.complete
    ensures FeedAll(p, pieces) == Fed(p, Finished, 0)
    decreases |pieces|
  {
    if pieces != [] {
      FeedAllComplete(p, pieces[1..]);
    }
  }

  lemma {:induction false} FeedTwo(p: Parser, a: string, b: string)
    requires Waiting(p)
    ensures var f, w := Feed(p, a), Feed(p, a + b);
            match f.outcome
            case Incomplete => var g := Feed(f.parser, b); w == g.(n := |a| + g.n)
            case Finished => w == f
            case Malformed => w.outcome.Malformed? && w.parser.core == f.parser.core
  {
    var msg := p.msgbuf + a;
    assert p.msgbuf + (a + b) == msg + b;
    DriveExtend(p.isResp, p.core, msg, b);
    var (c, r) := Drive(p.isResp, p.core, msg);
    if r.Finished? {
      assert (msg + b)[..End(c)] == msg[..End(c)];
    }
  }

  /** The same start line, headers, lengths and flags; the same bytes held unless malformed. */
  ghost predicate SameResult(f: Fed, g: Fed) {
    f.outcome == g.outcome && f.parser.core == g.parser.core && (!f.outcome.Malformed? ==> f == g)
  }

  lemma {:induction false} FeedPieces(p: Parser, pieces: seq<string>)
    requires Waiting(p)
    ensures SameResult(FeedAll(p, pieces), Feed(p, Concat(pieces)))
    decreases |pieces|
  {
    if pieces == [] {
      assert p.msgbuf + [] == p.msgbuf;
    } else {
      var a, rest := pieces[0], pieces[1..];
      FeedConsumes(p, a);
      FeedTwo(p, a, Concat(rest));
      var f := Feed(p, a);
      if f.outcome.Incomplete? {
        FeedPieces(f.parser, rest);
      } else if f.outcome.Finished? {
        FeedAllComplete(f.parser, rest);
      }
    }
  }

  /** However a byte string is cut, feeding the pieces gives what feeding it whole gives. */
  lemma {:induction false} SplitInvariance(isResp: bool, zeroBody: bool, pieces: seq<string>)
    ensures SameResult(FeedAll(Init(isResp, zeroBody), pieces), Feed(Init(isResp, zeroBody), Concat(pieces)))
  {
    InitWaiting(isResp, zeroBody);
    FeedPieces(Init(isResp, zeroBody), pieces);
  }

  /** Every call made while the message is cut in any way reports a count between 0 and what it was given. */
  lemma {:induction false} NoUnderflow(isResp: bool, zeroBody: bool, pieces: seq<string>, buf: string)
    ensures var f := FeedAll(Init(isResp, zeroBody), pieces);
            !f.outcome.Malformed? ==> 0 <= Feed(f.parser, buf).n <= |buf|
  {
    InitWaiting(isResp, zeroBody);
    FeedAllWaiting(Init(isResp, zeroBody), pieces);
    var f := FeedAll(Init(isResp, zeroBody), pieces);
    if f.outcome.Incomplete? {
      FeedConsumes(f.parser, buf);
    }
  }

  lemma {:induction false} FeedAllWaiting(p: Parser, pieces: seq<string>)
    requires p.complete || Waiting(p)
    ensures var f := FeedAll(p, pieces);
            (f.outcome.Incomplete? ==> Waiting(f.parser)) && (f.outcome.Finished? ==> f.parser.complete)
    decreases |pieces|
  {
    if pieces != [] {
      if !p.complete {
        FeedConsumes(p, pieces[0]);
      }
      if !Feed(p, pieces[0]).outcome.Malformed? {
        FeedAllWaiting(Feed(p, pieces[0]).parser, pieces[1..]);
      }
    }
  }

  // ----- the code -----

  lemma {:induction false} ScanIs(s: string, i: nat, j: nat, limit: nat, stop: char -> bool)
    requires i <= j <= |s| && j <= limit && forall k :: i <= k < j ==> !stop(s[k])
    requires j == |s| || j == limit || stop(s[j])
    ensures Scan(s, i, limit, stop) == j
    decreases j - i
  {
    if i < j {
      ScanIs(s, i + 1, j, limit, stop);
    }
  }

  const HTTP_MSGBUF_INIT_SIZE: nat := 2048

  function Max(x: nat, y: nat): nat {
    if x >= y then x else y
  }

  /** Return value and fields after a unit parser. */
  ghost predicate Agrees<T>(r: Unit<T>, before: T, ret: int, after: T) {
    match r
    case More => ret == 0 && after == before
    case Bad => ret == -2 && after == before
    case Done(next) => ret == 1 && after == next
  }

  function Code(o: Outcome): int {
    match o
    case Incomplete => 0
    case Finished => 1
    case Malformed => -2
  }

  /** http_parser_t */
  class ParserT {
    const isResp: bool
    var headerState: HState
    var headerOffset: nat
    var line: StartLine
    var headerList: seq<Header>
    var namebuf: string
    var contentLength: Option<nat>
    var transferLength: Option<nat>
    var flags: Flags
    var chunkState: CState
    var chunkOffset: nat
    var msgbuf: string
    var bufsize: nat
    var complete: bool

    function HeadValue(): Head
      reads this
    {
      Head(headerState, headerOffset, line, headerList, if headerState.HpsHeaderValue? then namebuf else [],
           contentLength, transferLength, flags)
    }

    function ChunkValue(): Chunk
      reads this
    {
      Chunk(chunkState, chunkOffset)
    }

    function ParserValue(): Parser
      reads this
    {
      Parser(isResp, Core(HeadValue(), ChunkValue()), msgbuf, complete)
    }

    ghost predicate Valid()
      reads this
    {
      Sound(ParserValue()) && (complete || msgbuf != [] ==> |msgbuf| < bufsize)
    }

    /** http_parser_init */
    constructor (isResp: bool, zeroBody: bool)
      ensures ParserValue() == Init(isResp, zeroBody) && Valid()
    {
      this.isResp := isResp;
      headerState, headerOffset, line, headerList, namebuf := HpsStartLine, 0, NoLine, [], [];
      contentLength := if isResp then None else Some(0);
      transferLength := if zeroBody then Some(0) else None;
      flags := Flags(false, false, false, false, true, false);
      chunkState, chunkOffset := CpsChunkData, 0;
      msgbuf, bufsize, complete := [], 0, false;
    }

    /** __match_request_line, __match_status_line */
    method Match(a: string, b: string, c: string)
      modifies `line, `flags, `transferLength
      ensures HeadValue() == MatchLine(isResp, a, b, c, old(HeadValue()))
    {
      flags := OldVersion(if isResp then a else c, flags);
      if isResp {
        if StartsWith(b, "1") || b == "204" || b == "304" {
          transferLength := Some(0);
        }
        line := Status(a, b, c);
      } else {
        line := Request(a, b, c);
      }
    }

    /** strchr(s + from, ' '), with |s| for null */
    static method FindSpace(s: string, from: nat) returns (i: nat)
      requires from <= |s|
      ensures i == Scan(s, from, |s|, StopSpace)
    {
      i := from;
      while i < |s| && s[i] != ' '
        invariant from <= i <= |s| && forall k :: from <= k < i ==> !StopSpace(s[k])
      {
        i := i + 1;
      }
      ScanIs(s, from, i, |s|, StopSpace);
    }

    /** The part of __parse_start_line that cuts a complete start line. */
    method Cut(startLine: string) returns (ret: int)
      modifies `line, `flags, `transferLength
      ensures match SplitLine(startLine)
              case None => ret == -2 && HeadValue() == old(HeadValue())
              case Some((a, b, c)) => ret == 1 && HeadValue() == MatchLine(isResp, a, b, c, old(HeadValue()))
    {
      var p2 := FindSpace(startLine, 0);
      if p2 == |startLine| {
        return -2;
      }
      var p3 := FindSpace(startLine, p2 + 1);
      if p3 == |startLine| {
        return -2;
      }
      Match(startLine[..p2], startLine[p2 + 1..p3], startLine[p3 + 1..]);
      ret := 1;
    }

    /** __parse_start_line */
    method StartLineUnit(ptr: string) returns (ret: int)
      requires headerState.HpsStartLine?
      modifies `line, `flags, `transferLength, `headerOffset, `headerState
      ensures Agrees(ParseStartLine(isResp, old(HeadValue()), ptr), old(HeadValue()), ret, HeadValue())
    {
      var min := Min(HTTP_START_LINE_MAX, |ptr|);
      if |ptr| >= 2 && ptr[0] == '\r' && ptr[1] == '\n' {
        headerOffset := headerOffset + 2;
        return 1;
      }
      var i := 0;
      while i < min
        invariant i <= min && forall k :: 0 <= k < i ==> !StopStart(ptr[k])
      {
        if ptr[i] == '\r' {
          ScanIs(ptr, 0, i, HTTP_START_LINE_MAX, StopStart);
          if i == |ptr| - 1 {
            return 0;
          }
          if ptr[i + 1] != '\n' {
            return -2;
          }
          ret := Cut(ptr[..i]);
          if ret > 0 {
            headerOffset := headerOffset + i + 2;
            headerState := HpsHeaderName;
          }
          return;
        }
        if ptr[i] == '\0' {
          ScanIs(ptr, 0, i, HTTP_START_LINE_MAX, StopStart);
          return -2;
        }
        i := i + 1;
      }
      ScanIs(ptr, 0, i, HTTP_START_LINE_MAX, StopStart);
      ret := if i == HTTP_START_LINE_MAX then -2 else 0;
    }

    /** __parse_header_name */
    method HeaderNameUnit(ptr: string) returns (ret: int)
      requires headerState.HpsHeaderName?
      modifies `namebuf, `headerOffset, `headerState
      ensures Agrees(ParseHeaderName(old(HeadValue()), ptr), old(HeadValue()), ret, HeadValue())
    {
      var min := Min(HTTP_HEADER_NAME_MAX, |ptr|);
      if |ptr| >= 2 && ptr[0] == '\r' && ptr[1] == '\n' {
        headerOffset := headerOffset + 2;
        headerState := HpsHeaderComplete;
        return 1;
      }
      namebuf := [];
      var i := 0;
      while i < min
        invariant i <= min && namebuf == ptr[..i] && forall k :: 0 <= k < i ==> !StopName(ptr[k])
        invariant headerOffset == old(headerOffset) && headerState == old(headerState)
      {
        if ptr[i] == ':' {
          ScanIs(ptr, 0, i, HTTP_HEADER_NAME_MAX, StopName);
          headerOffset := headerOffset + i + 1;
          headerState := HpsHeaderValue;
          return 1;
        }
        if NotPositive(ptr[i]) {
          ScanIs(ptr, 0, i, HTTP_HEADER_NAME_MAX, StopName);
          return -2;
        }
        namebuf := namebuf + [ptr[i]];
        i := i + 1;
      }
      ScanIs(ptr, 0, i, HTTP_HEADER_NAME_MAX, StopName);
      ret := if i == HTTP_HEADER_NAME_MAX then -2 else 0;
    }

    /** http_parser_add_header */
    method Add(name: string, value: string)
      modifies `headerList, `flags, `contentLength
      ensures HeadValue() == AddHeader(name, value, old(HeadValue()))
    {
      headerList := headerList + [Header(name, value)];
      var h := CheckHeader(name, value, HeadValue());
      flags, contentLength := h.flags, h.contentLength;
    }

    /** __parse_header_value */
    method HeaderValueUnit(ptr: string) returns (ret: int)
      requires headerState.HpsHeaderValue?
      modifies `headerList, `flags, `contentLength, `headerOffset, `headerState
      ensures Agrees(ParseHeaderValue(old(HeadValue()), ptr), old(HeadValue()), ret, HeadValue())
    {
      var value := [];
      var p := 0;
      ghost var spec := ValueBlanks(ptr, 0, []);
      while true
        invariant p <= |ptr| && |value| <= HTTP_HEADER_VALUE_MAX && spec == ValueBlanks(ptr, p, value)
        decreases |ptr| - p
      {
        while p < |ptr| && IsBlank(ptr[p])
          invariant p <= |ptr| && spec == ValueBlanks(ptr, p, value)
        {
          p := p + 1;
        }
        if p == |ptr| {
          return 0;
        }
        while true
          invariant p < |ptr| && |value| <= HTTP_HEADER_VALUE_MAX && spec == ValueText(ptr, p, value)
          decreases |ptr| - p
        {
          if |value| == HTTP_HEADER_VALUE_MAX {
            return -2;
          }
          var c := ptr[p];
          p := p + 1;
          if p == |ptr| {
            return 0;
          }
          if c == '\r' {
            break;
          }
          if NotPositive(c) {
            return -2;
          }
          value := value + [c];
        }
        assert spec == ValueLineEnd(ptr, p, value);
        if ptr[p] == '\n' {
          p := p + 1;
        } else {
          return -2;
        }
        if p == |ptr| {
          return 0;
        }
        ghost var full := value;
        while |value| > 0 && IsBlank(value[|value| - 1])
          invariant Trim(value) == Trim(full) && |value| <= |full|
        {
          value := value[..|value| - 1];
        }
        if !IsBlank(ptr[p]) {
          break;
        }
        p := p + 1;
        value := value + [' '];
      }
      Add(namebuf, value);
      headerOffset := headerOffset + p;
      headerState := HpsHeaderName;
      ret := 1;
    }

    /** __parse_message_header */
    method MessageHeader() returns (ret: int)
      requires !headerState.HpsHeaderComplete? && headerOffset <= |msgbuf|
      modifies `line, `headerList, `namebuf, `flags, `contentLength, `transferLength, `headerOffset, `headerState
      ensures var (h, r) := ParseHead(isResp, old(HeadValue()), msgbuf);
              ret == Code(r) && HeadValue() == h
    {
      ret := 1;
      while ret > 0
        invariant headerOffset <= |msgbuf| && !headerState.HpsHeaderComplete?
        invariant ret > 0 ==> ParseHead(isResp, HeadValue(), msgbuf) == ParseHead(isResp, old(HeadValue()), msgbuf)
        invariant ret <= 0 ==> ParseHead(isResp, old(HeadValue()), msgbuf)
                               == (HeadValue(), if ret == 0 then Incomplete else Malformed)
        invariant ret == 1 || ret == 0 || ret == -2
        decreases ret, |msgbuf| - headerOffset
      {
        var ptr := msgbuf[headerOffset..];
        if headerState == HpsStartLine {
          ret := StartLineUnit(ptr);
        } else if headerState == HpsHeaderValue {
          ret := HeaderValueUnit(ptr);
        } else {
          ret := HeaderNameUnit(ptr);
          if headerState == HpsHeaderComplete {
            return 1;
          }
        }
      }
    }

    /** __parse_chunk_data */
    method ChunkDataUnit(ptr: string) returns (ret: int)
      requires chunkState.CpsChunkData?
      modifies `chunkState, `chunkOffset
      ensures Agrees(ParseChunkUnit(old(ChunkValue()), ptr), old(ChunkValue()), ret, ChunkValue())
    {
      var i := FindCr(ptr, HTTP_CHUNK_LINE_MAX);
      if i < Min(HTTP_CHUNK_LINE_MAX, |ptr|) {
        if i == |ptr| - 1 {
          return 0;
        }
        if ptr[i + 1] != '\n' {
          return -2;
        }
        var size := Strtol16(ptr[..i]);
        if size.None? {
          return -2;
        }
        var chunkSize := size.value;
        if chunkSize == 0 {
          chunkSize := i + 2;
          chunkState := CpsTrailerPart;
        } else if 0 < chunkSize < CHUNK_SIZE_MAX {
          chunkSize := chunkSize + i + 4;
          if |ptr| < chunkSize {
            return 0;
          }
        } else {
          return -2;
        }
        chunkOffset := chunkOffset + chunkSize;
        return 1;
      }
      ret := if i == HTTP_CHUNK_LINE_MAX then -2 else 0;
    }

    /** The loops of __parse_chunk_data and __parse_trailer_part */
    static method FindCr(ptr: string, limit: nat) returns (i: nat)
      ensures i == Scan(ptr, 0, limit, StopCr)
    {
      i := 0;
      while i < Min(limit, |ptr|) && ptr[i] != '\r'
        invariant i <= Min(limit, |ptr|) && forall k :: 0 <= k < i ==> !StopCr(ptr[k])
      {
        i := i + 1;
      }
      ScanIs(ptr, 0, i, limit, StopCr);
    }

    /** __parse_trailer_part */
    method TrailerUnit(ptr: string) returns (ret: int)
      requires chunkState.CpsTrailerPart?
      modifies `chunkState, `chunkOffset
      ensures Agrees(ParseChunkUnit(old(ChunkValue()), ptr), old(ChunkValue()), ret, ChunkValue())
    {
      var i := FindCr(ptr, HTTP_TRAILER_LINE_MAX);
      if i < Min(HTTP_TRAILER_LINE_MAX, |ptr|) {
        if i == |ptr| - 1 {
          return 0;
        }
        if ptr[i + 1] != '\n' {
          return -2;
        }
        chunkOffset := chunkOffset + i + 2;
        if i == 0 {
          chunkState := CpsChunkComplete;
        }
        return 1;
      }
      ret := if i == HTTP_TRAILER_LINE_MAX then -2 else 0;
    }

    /** __parse_chunk */
    method ChunkBody() returns (ret: int)
      requires !chunkState.CpsChunkComplete? && chunkOffset <= |msgbuf|
      modifies `chunkState, `chunkOffset
      ensures var (c, r) := ParseChunk(old(ChunkValue()), msgbuf);
              ret == Code(r) && ChunkValue() == c
    {
      ret := 1;
      while ret > 0
        invariant chunkOffset <= |msgbuf| && !chunkState.CpsChunkComplete?
        invariant ret > 0 ==> ParseChunk(ChunkValue(), msgbuf) == ParseChunk(old(ChunkValue()), msgbuf)
        invariant ret <= 0 ==> ParseChunk(old(ChunkValue()), msgbuf)
                               == (ChunkValue(), if ret == 0 then Incomplete else Malformed)
        invariant ret == 1 || ret == 0 || ret == -2
        decreases ret, |msgbuf| - chunkOffset
      {
        var ptr := msgbuf[chunkOffset..];
        if chunkState == CpsChunkData {
          ret := ChunkDataUnit(ptr);
        } else {
          ret := TrailerUnit(ptr);
          if chunkState == CpsChunkComplete {
            return 1;
          }
        }
      }
    }

    /** The buffer growth of http_parser_append_message. */
    method Reserve(n: nat)
      modifies `bufsize
      ensures |msgbuf| + n + 1 <= bufsize && bufsize >= old(bufsize)
    {
      if |msgbuf| + n + 1 > bufsize {
        var newSize := Max(HTTP_MSGBUF_INIT_SIZE, 2 * bufsize);
        while newSize < |msgbuf| + n + 1
          invariant newSize >= 1 && newSize >= bufsize
          decreases |msgbuf| + n + 1 - newSize
        {
          newSize := newSize * 2;
        }
        bufsize := newSize;
      }
    }

    /** http_parser_append_message: ret is its result, n what it leaves in *n. */
    method AppendMessage(buf: string) returns (ret: int, n: int)
      requires Valid()
      modifies this
      ensures Valid()
      ensures var f := Feed(old(ParserValue()), buf);
              ParserValue() == f.parser && ret == Code(f.outcome) && n == f.n
    {
      FeedSound(ParserValue(), buf);
      if complete {
        return 1, 0;
      }
      ret, n := Receive(buf);
    }

    /** http_parser_append_message for a message that is not complete */
    method Receive(buf: string) returns (ret: int, n: int)
      requires !complete && InRange(ParserValue().core, msgbuf)
      modifies this
      ensures |old(msgbuf)| + |buf| < bufsize
      ensures var f := Feed(old(ParserValue()), buf);
              ParserValue() == f.parser && ret == Code(f.outcome) && n == f.n
    {
      n := |buf|;
      Reserve(|buf|);
      msgbuf := msgbuf + buf;
      ret, n := Process(n);
    }

    /** The parsing part of http_parser_append_message. */
    method Process(given: nat) returns (ret: int, n: int)
      requires InRange(ParserValue().core, msgbuf) && !complete
      modifies `line, `headerList, `namebuf, `flags, `contentLength, `transferLength, `headerOffset, `headerState,
               `chunkState, `chunkOffset, `msgbuf, `complete
      ensures var (c, r) := Drive(isResp, old(ParserValue().core), old(msgbuf));
              ret == Code(r) && ParserValue().core == c && complete == r.Finished?
              && msgbuf == (if r.Finished? then old(msgbuf)[..End(c)] else old(msgbuf))
              && n == if r.Finished? then given - (|old(msgbuf)| - End(c)) else given
    {
      n := given;
      if headerState == HpsHeaderComplete {
        ret, n := AppendBody(n);
      } else {
        ret := MessageHeader();
        if ret > 0 {
          StartBody();
          ret, n := AppendBody(n);
        }
      }
    }

    /** The fields set when the message header has just been completed. */
    method StartBody()
      modifies `chunkOffset, `chunkState, `transferLength
      ensures ParserValue().core == BeginBody(old(ParserValue().core))
    {
      if flags.chunked {
        chunkOffset := headerOffset;
        chunkState := CpsChunkData;
      } else if transferLength.None? {
        transferLength := contentLength;
      }
    }

    /** The end of http_parser_append_message, once the message header is complete. */
    method AppendBody(given: nat) returns (ret: int, n: int)
      requires headerState.HpsHeaderComplete? && headerOffset <= |msgbuf| && chunkOffset <= |msgbuf|
      modifies `chunkState, `chunkOffset, `msgbuf, `complete
      ensures var (c, r) := DriveBody(old(ParserValue().core), old(msgbuf));
              ret == Code(r) && ParserValue().core == c && complete == (r.Finished? || old(complete))
              && msgbuf == (if r.Finished? then old(msgbuf)[..End(c)] else old(msgbuf))
              && n == if r.Finished? then given - (|old(msgbuf)| - End(c)) else given
    {
      n := given;
      if transferLength.Some? {
        var total := headerOffset + transferLength.value;
        if |msgbuf| >= total {
          n := n - (|msgbuf| - total);
          msgbuf := msgbuf[..total];
          complete := true;
          return 1, n;
        }
        return 0, n;
      }
      if !flags.chunked {
        return 0, n;
      }
      if chunkState != CpsChunkComplete {
        ret := ChunkBody();
        if ret <= 0 {
          return;
        }
      }
      n := n - (|msgbuf| - chunkOffset);
      msgbuf := msgbuf[..chunkOffset];
      complete := true;
      ret := 1;
    }

    /**
     http_parser_get_body: a complete message is its header and this body, whose length is the one announced or
     that of the chunks; the byte behind it is in the buffer, so the terminator can be stored.
     */
    method GetBody() returns (body: Option<string>)
      requires Valid()
      ensures body.Some? <==> complete
      ensures body.Some? ==> headerOffset <= |msgbuf| < bufsize && msgbuf[..headerOffset] + body.value == msgbuf
      ensures body.Some? ==> |body.value| == if transferLength.Some? then transferLength.value
                             else chunkOffset - headerOffset
    {
      body := if complete && headerState == HpsHeaderComplete then Some(msgbuf[headerOffset..]) else None;
    }
  }
}
