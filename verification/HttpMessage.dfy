/**
 Encoding of HTTP messages (src/protocol/HttpMessage.cc) and the round trip through the parser.
 */
module HttpMessage {
  import opened Basics
  import opened HttpParser
  import opened HttpFields

  function HeaderText(h: Header): string {
    h.name + ": " + h.value + "\r\n"
  }

  function HeadersText(hs: seq<Header>): string {
    if hs == [] then [] else HeaderText(hs[0]) + HeadersText(hs[1..])
  }

  function LineText(a: string, b: string, c: string): string {
    a + " " + b + " " + c + "\r\n"
  }

  function MessageText(a: string, b: string, c: string, hs: seq<Header>, body: string): string {
    LineText(a, b, c) + (HeadersText(hs) + ("\r\n" + body))
  }

  // ----- parsing the encoded form -----

  predicate PlainWord(s: string) {
    forall i :: 0 <= i < |s| ==> !StopStart(s[i]) && s[i] != ' '
  }

  /** A start line the parser can read back: only the last part may contain spaces. */
  predicate WellFormedLine(a: string, b: string, c: string) {
    PlainWord(a) && PlainWord(b) && (forall i :: 0 <= i < |c| ==> !StopStart(c[i]))
    && |a| + |b| + |c| + 2 < HTTP_START_LINE_MAX
  }

  predicate WellFormedHeader(h: Header) {
    && |h.name| < HTTP_HEADER_NAME_MAX && (forall i :: 0 <= i < |h.name| ==> !StopName(h.name[i]))
    && (h.name != [] ==> !IsBlank(h.name[0])) && !StartsWith(h.name, "\r\n")
    && |h.value| < HTTP_HEADER_VALUE_MAX
    && (forall i :: 0 <= i < |h.value| ==> h.value[i] != '\r' && !NotPositive(h.value[i]))
    && (h.value != [] ==> !IsBlank(h.value[0]) && !IsBlank(h.value[|h.value| - 1]))
  }

  lemma {:induction false} LineParses(isResp: bool, h: Head, a: string, b: string, c: string, rest: string)
    requires WellFormedLine(a, b, c)
    ensures ParseStartLine(isResp, h, LineText(a, b, c) + rest)
            == Done(MatchLine(isResp, a, b, c, h).(offset := h.offset + |LineText(a, b, c)|, state := HpsHeaderName))
  {
    var line := a + " " + b + " " + c;
    var s := LineText(a, b, c) + rest;
    var i := |line|;
    assert s[..i] == line && s[i] == '\r' && s[i + 1] == '\n';
    forall k | 0 <= k < i ensures !StopStart(s[k]) {
      assert s[k] == line[k];
    }
    ScanIs(s, 0, i, HTTP_START_LINE_MAX, StopStart);
    SplitParses(a, b, c);
  }

  lemma {:induction false} SplitParses(a: string, b: string, c: string)
    requires PlainWord(a) && PlainWord(b)
    ensures SplitLine(a + " " + b + " " + c) == Some((a, b, c))
  {
    var line := a + " " + b + " " + c;
    var j, k := |a|, |a| + 1 + |b|;
    forall x | 0 <= x < j ensures !StopSpace(line[x]) {
      assert line[x] == a[x];
    }
    ScanIs(line, 0, j, |line|, StopSpace);
    forall x | j + 1 <= x < k ensures !StopSpace(line[x]) {
      assert line[x] == b[x - (j + 1)];
    }
    ScanIs(line, j + 1, k, |line|, StopSpace);
    assert line[..j] == a && line[j + 1..k] == b && line[k + 1..] == c;
  }

  lemma {:induction false} NameParses(h: Head, name: string, rest: string)
    requires |name| < HTTP_HEADER_NAME_MAX && (forall i :: 0 <= i < |name| ==> !StopName(name[i]))
    requires !StartsWith(name, "\r\n")
    ensures ParseHeaderName(h, name + ":" + rest)
            == Done(h.(name := name, offset := h.offset + |name| + 1, state := HpsHeaderValue))
  {
    var s := name + ":" + rest;
    if |name| >= 2 {
      assert name[..2] == [name[0], name[1]];
      assert s[0] == name[0] && s[1] == name[1];
    }
    forall k | 0 <= k < |name| ensures !StopName(s[k]) {
      assert s[k] == name[k];
    }
    ScanIs(s, 0, |name|, HTTP_HEADER_NAME_MAX, StopName);
    assert s[..|name|] == name;
  }

  lemma {:induction false} TextParses(s: string, i: nat, value: string, rest: string)
    requires i + |rest| + 2 < |s| && s[i..] == rest + "\r\n" + s[i + |rest| + 2..]
    requires |value| + |rest| < HTTP_HEADER_VALUE_MAX
    requires forall k :: 0 <= k < |rest| ==> rest[k] != '\r' && !NotPositive(rest[k])
    requires !IsBlank(s[i + |rest| + 2])
    ensures ValueText(s, i, value) == Done(Value(Trim(value + rest), i + |rest| + 2))
    decreases |rest|
  {
    assert s[i] == s[i..][0];
    assert s[i + 1] == s[i..][1];
    if rest == [] {
      assert value + rest == value;
      assert s[i + 1] == '\n' && s[i] == '\r';
    } else {
      assert s[i + 1..] == rest[1..] + "\r\n" + s[i + 1 + |rest[1..]| + 2..];
      TextParses(s, i + 1, value + [rest[0]], rest[1..]);
      assert value + [rest[0]] + rest[1..] == value + rest;
    }
  }

  lemma {:induction false} ValueParses(value: string, rest: string)
    requires |value| < HTTP_HEADER_VALUE_MAX
    requires (forall i :: 0 <= i < |value| ==> value[i] != '\r' && !NotPositive(value[i]))
    requires value != [] ==> !IsBlank(value[0]) && !IsBlank(value[|value| - 1])
    requires rest != [] && !IsBlank(rest[0])
    ensures ValueBlanks(" " + value + "\r\n" + rest, 0, []) == Done(Value(value, |value| + 3))
  {
    var s := " " + value + "\r\n" + rest;
    assert s[1] == (value + "\r\n" + rest)[0];
    assert !IsBlank(s[1]);
    assert s[1 + |value| + 2..] == rest;
    assert s[1..] == value + "\r\n" + s[1 + |value| + 2..];
    TextParses(s, 1, [], value);
    assert [] + value == value;
    assert Trim(value) == value;
  }

  /** The header effects do not depend on where the parser stands. */
  lemma {:induction false} AddMoved(h: Head, name: string, value: string, o: nat, st: HState, n: string)
    ensures AddHeader(name, value, h.(offset := o, state := st, name := n))
            == AddHeader(name, value, h).(offset := o, state := st, name := n)
  {
  }

  lemma {:induction false} AddAllMoved(h: Head, hs: seq<Header>, o: nat, st: HState, n: string)
    ensures AddAll(h.(offset := o, state := st, name := n), hs) == AddAll(h, hs).(offset := o, state := st, name := n)
    decreases |hs|
  {
    if hs != [] {
      AddMoved(h, hs[0].name, hs[0].value, o, st, n);
      AddAllMoved(AddHeader(hs[0].name, hs[0].value, h), hs[1..], o, st, n);
    }
  }

  lemma {:induction false} AddAllHeaders(h: Head, hs: seq<Header>)
    ensures AddAll(h, hs).headers == h.headers + hs && AddAll(h, hs).line == h.line
    decreases |hs|
  {
    if hs != [] {
      AddAllHeaders(AddHeader(hs[0].name, hs[0].value, h), hs[1..]);
      assert hs == [hs[0]] + hs[1..];
    }
  }

  lemma {:induction false} NameStep(isResp: bool, h: Head, msg: string, name: string, tail: string)
    requires h.state.HpsHeaderName? && h.offset <= |msg| && msg[h.offset..] == name + ":" + tail
    requires ParseHeaderName(h, name + ":" + tail)
             == Done(h.(name := name, offset := h.offset + |name| + 1, state := HpsHeaderValue))
    ensures var h' := h.(name := name, offset := h.offset + |name| + 1, state := HpsHeaderValue);
            SameParse(isResp, h, h', msg) && msg[h'.offset..] == tail
  {
    var h' := h.(name := name, offset := h.offset + |name| + 1, state := HpsHeaderValue);
    assert msg[h'.offset..] == (name + ":" + tail)[|name| + 1..] == tail;
  }

  lemma {:induction false} ValueStep(isResp: bool, h: Head, msg: string, value: string, rest: string)
    requires h.state.HpsHeaderValue? && h.offset <= |msg| && msg[h.offset..] == " " + value + "\r\n" + rest
    requires ParseHeaderValue(h, " " + value + "\r\n" + rest)
             == Done(AddHeader(h.name, value, h).(offset := h.offset + |value| + 3, state := HpsHeaderName, name := []))
    ensures var h' := AddHeader(h.name, value, h).(offset := h.offset + |value| + 3,
            state := HpsHeaderName, name := []);
            SameParse(isResp, h, h', msg) && msg[h'.offset..] == rest
  {
    var o := h.offset + |value| + 3;
    assert msg[o..] == (" " + value + "\r\n" + rest)[|value| + 3..] == rest;
  }

  lemma {:induction false} FieldParses(isResp: bool, h: Head, msg: string, f: Header, rest: string) returns (h': Head)
    requires h.state.HpsHeaderName? && h.offset <= |msg| && msg[h.offset..] == HeaderText(f) + rest
    requires WellFormedHeader(f) && rest != [] && !IsBlank(rest[0])
    ensures h' == AddHeader(f.name, f.value, h).(offset := h.offset + |HeaderText(f)|,
            state := HpsHeaderName, name := [])
    ensures SameParse(isResp, h, h', msg) && msg[h'.offset..] == rest
  {
    FieldText(f, rest);
    var h1 := NameOf(isResp, h, msg, f, " " + f.value + "\r\n" + rest);
    h' := ValueOf(isResp, h1, msg, f, rest);
    SameOn(isResp, h, h1, h', msg);
    AddAtEnd(h, f, h1.offset, h'.offset);
  }

  lemma {:induction false} NameOf(isResp: bool, h: Head, msg: string, f: Header, tail: string) returns (h': Head)
    requires h.state.HpsHeaderName? && h.offset <= |msg| && msg[h.offset..] == f.name + ":" + tail
    requires WellFormedHeader(f)
    ensures h' == h.(name := f.name, offset := h.offset + |f.name| + 1, state := HpsHeaderValue)
    ensures SameParse(isResp, h, h', msg) && msg[h'.offset..] == tail
  {
    NameParses(h, f.name, tail);
    NameStep(isResp, h, msg, f.name, tail);
    h' := h.(name := f.name, offset := h.offset + |f.name| + 1, state := HpsHeaderValue);
  }

  lemma {:induction false} SameOn(isResp: bool, h: Head, g: Head, k: Head, msg: string)
    requires SameParse(isResp, h, g, msg) && SameParse(isResp, g, k, msg)
    ensures SameParse(isResp, h, k, msg)
  {
  }

  lemma {:induction false} FieldText(f: Header, rest: string)
    ensures HeaderText(f) + rest == f.name + ":" + (" " + f.value + "\r\n" + rest)
    ensures |HeaderText(f)| == |f.name| + 1 + |f.value| + 3
  {
  }

  lemma {:induction false} ValueOf(isResp: bool, h: Head, msg: string, f: Header, rest: string) returns (h': Head)
    requires h.state.HpsHeaderValue? && h.name == f.name && h.offset <= |msg|
    requires msg[h.offset..] == " " + f.value + "\r\n" + rest
    requires WellFormedHeader(f) && rest != [] && !IsBlank(rest[0])
    ensures h' == AddHeader(f.name, f.value, h).(offset := h.offset + |f.value| + 3, state := HpsHeaderName, name := [])
    ensures SameParse(isResp, h, h', msg) && msg[h'.offset..] == rest
  {
    ValueParses(f.value, rest);
    ValueStep(isResp, h, msg, f.value, rest);
    h' := AddHeader(f.name, f.value, h).(offset := h.offset + |f.value| + 3, state := HpsHeaderName, name := []);
  }

  /** The head after a field, whatever the position from which its value was read. */
  lemma {:induction false} AddAtEnd(h: Head, f: Header, o: nat, end: nat)
    ensures AddHeader(f.name, f.value, h.(name := f.name, offset := o, state := HpsHeaderValue)).(offset := end,
            state := HpsHeaderName, name := [])
            == AddHeader(f.name, f.value, h).(offset := end, state := HpsHeaderName, name := [])
  {
    AddMoved(h, f.name, f.value, o, HpsHeaderValue, f.name);
  }

  lemma {:induction false} AddAllAtEnd(g: Head, hs: seq<Header>, o: nat, end: nat)
    requires g.name == []
    ensures AddAll(g.(offset := o, state := HpsHeaderName, name := []), hs).(offset := end, state := HpsHeaderComplete)
            == AddAll(g, hs).(offset := end, state := HpsHeaderComplete)
  {
    AddAllMoved(g, hs, o, HpsHeaderName, []);
    AddAllName(g, hs);
  }

  lemma {:induction false} AddKeepsName(h: Head, f: Header)
    ensures AddHeader(f.name, f.value, h).name == h.name
  {
  }

  /** What follows a header field is another field or the empty line, and does not start with a blank. */
  lemma {:induction false} AfterField(hs: seq<Header>, body: string)
    requires forall f :: f in hs ==> WellFormedHeader(f)
    ensures var rest := HeadersText(hs) + ("\r\n" + body); rest != [] && !IsBlank(rest[0])
  {
    var rest := HeadersText(hs) + ("\r\n" + body);
    if hs != [] {
      assert WellFormedHeader(hs[0]);
      assert rest[0] == HeaderText(hs[0])[0];
    }
  }

  lemma {:induction false} HeadersParse(isResp: bool, h: Head, msg: string, hs: seq<Header>, body: string)
    requires h.state.HpsHeaderName? && h.name == [] && h.offset <= |msg| && |body| <= |msg|
    requires msg[h.offset..] == HeadersText(hs) + ("\r\n" + body)
    requires forall f :: f in hs ==> WellFormedHeader(f)
    ensures ParseHead(isResp, h, msg)
            == (AddAll(h, hs).(offset := |msg| - |body|, state := HpsHeaderComplete), Finished)
    decreases |hs|
  {
    if hs == [] {
      EmptyLine(isResp, h, msg, body);
    } else {
      var rest := HeadersText(hs[1..]) + ("\r\n" + body);
      assert HeadersText(hs) + ("\r\n" + body) == HeaderText(hs[0]) + rest;
      AfterField(hs[1..], body);
      var h' := FieldParses(isResp, h, msg, hs[0], rest);
      HeadersParse(isResp, h', msg, hs[1..], body);
      FirstOf(h, hs, h'.offset, |msg| - |body|);
    }
  }

  lemma {:induction false} FirstOf(h: Head, hs: seq<Header>, o: nat, end: nat)
    requires hs != [] && h.name == []
    ensures AddAll(AddHeader(hs[0].name, hs[0].value, h).(offset := o, state := HpsHeaderName, name := []), hs[1..])
            .(offset := end, state := HpsHeaderComplete) == AddAll(h, hs).(offset := end, state := HpsHeaderComplete)
  {
    AddKeepsName(h, hs[0]);
    AddAllAtEnd(AddHeader(hs[0].name, hs[0].value, h), hs[1..], o, end);
  }

  lemma {:induction false} EmptyLine(isResp: bool, h: Head, msg: string, body: string)
    requires h.state.HpsHeaderName? && h.offset <= |msg| && |body| <= |msg| && msg[h.offset..] == "\r\n" + body
    ensures ParseHead(isResp, h, msg) == (h.(offset := |msg| - |body|, state := HpsHeaderComplete), Finished)
  {
    assert |msg[h.offset..]| == |msg| - h.offset;
  }

  lemma {:induction false} AddAllName(h: Head, hs: seq<Header>)
    ensures AddAll(h, hs).name == h.name
    decreases |hs|
  {
    if hs != [] {
      AddAllName(AddHeader(hs[0].name, hs[0].value, h), hs[1..]);
    }
  }

  lemma {:induction false} HeadRoundTrip(isResp: bool, h: Head, a: string, b: string, c: string, hs: seq<Header>,
                                         body: string, msg: string)
    requires h.state.HpsStartLine? && h.offset == 0 && h.name == []
    requires WellFormedLine(a, b, c) && forall f :: f in hs ==> WellFormedHeader(f)
    requires msg == MessageText(a, b, c, hs, body) && |body| <= |msg|
    ensures ParseHead(isResp, h, msg)
            == (AddAll(MatchLine(isResp, a, b, c, h), hs).(offset := |msg| - |body|, state := HpsHeaderComplete),
                Finished)
  {
    var h1 := LineStep(isResp, h, a, b, c, HeadersText(hs) + ("\r\n" + body), msg);
    HeadersParse(isResp, h1, msg, hs, body);
    AddAllAtEnd(MatchLine(isResp, a, b, c, h), hs, h1.offset, |msg| - |body|);
  }

  lemma {:induction false} LineStep(isResp: bool, h: Head, a: string, b: string, c: string, rest: string, msg: string)
    returns (h': Head)
    requires WellFormedLine(a, b, c) && h.state.HpsStartLine? && h.offset == 0 && h.name == []
    requires msg == LineText(a, b, c) + rest
    ensures h' == MatchLine(isResp, a, b, c, h).(offset := |LineText(a, b, c)|, state := HpsHeaderName, name := [])
    ensures h'.offset <= |msg| && ParseHead(isResp, h, msg) == ParseHead(isResp, h', msg) && msg[h'.offset..] == rest
  {
    h' := MatchLine(isResp, a, b, c, h).(offset := |LineText(a, b, c)|, state := HpsHeaderName, name := []);
    LineParses(isResp, h, a, b, c, rest);
    assert msg[0..] == msg;
  }

  lemma {:induction false} FeedFresh(p: Parser, msg: string, h: Head)
    requires p.msgbuf == [] && !p.complete && InRange(p.core, p.msgbuf) && !p.core.head.state.HpsHeaderComplete?
    requires ParseHead(p.isResp, p.core.head, msg) == (h, Finished)
    ensures var (c, r) := DriveBody(BeginBody(p.core.(head := h)), msg);
            Feed(p, msg) ==
            if r.Finished? then Fed(Parser(p.isResp, c, msg[..End(c)], true), Finished, End(c))
            else Fed(Parser(p.isResp, c, msg, false), r, |msg|)
  {
    assert [] + msg == msg;
  }

  /**
   The parser holds this start line, these headers and these flags; it has finished and consumed all of msg exactly
   when `announced` is the length of the body, and then it holds the body.
   */
  ghost predicate ReadsBack(f: Fed, msg: string, line: StartLine, hs: seq<Header>, flags: Flags, body: string,
                            announced: Option<nat>) {
    var h := f.parser.core.head;
    h.line == line && h.headers == hs && h.flags == flags
    && (f.outcome.Finished? && f.n == |msg| <==> announced == Some(|body|))
    && (f.outcome.Finished? && f.n == |msg| ==> f.parser.msgbuf == msg && h.offset <= |msg| && msg[h.offset..] == body)
  }

  /** The parser has read exactly this message: its start line, headers and body. */
  ghost predicate Complete(f: Fed, msg: string, line: StartLine, hs: seq<Header>, flags: Flags, body: string) {
    var h := f.parser.core.head;
    f.outcome.Finished? && f.n == |msg| && f.parser.msgbuf == msg
    && h.line == line && h.headers == hs && h.flags == flags
    && h.offset <= |msg| && msg[h.offset..] == body
  }

  function LineOf(isResp: bool, a: string, b: string, c: string): StartLine {
    if isResp then Status(a, b, c) else Request(a, b, c)
  }

  /** What a receiver has read after msg, or after vectors that are msg. */
  ghost predicate Arrives(f: Fed, isResp: bool, zeroBody: bool, a: string, b: string, c: string, hs: seq<Header>,
                          body: string) {
    ReadsBack(f, MessageText(a, b, c, hs, body), LineOf(isResp, a, b, c), hs, FlagsOf(if isResp then a else c, hs),
              body, KnownLength(FramingOf(isResp, zeroBody, b, hs)))
  }

  /**
   Parsing an encoded message gives back the start line and the headers, with the flags that version and fields mean;
   it gives back the body and consumes every byte exactly when the length that status code and fields announce is
   that of the body, for all well-formed fields that do not make the message chunked.
   */
  lemma {:induction false} RoundTrip(isResp: bool, zeroBody: bool, a: string, b: string, c: string, hs: seq<Header>,
                                     body: string)
    requires WellFormedLine(a, b, c) && forall f :: f in hs ==> WellFormedHeader(f)
    requires !FramingOf(isResp, zeroBody, b, hs).ByChunks?
    ensures Arrives(Feed(Init(isResp, zeroBody), MessageText(a, b, c, hs, body)), isResp, zeroBody, a, b, c, hs, body)
  {
    MessageMeans(isResp, zeroBody, a, b, c, hs);
    hide FramingOf;
    hide FlagsOf;
    RoundTripFrom(Init(isResp, zeroBody), a, b, c, hs, body, MessageText(a, b, c, hs, body));
  }

  /**
   The vectors of an encoded message, fed one by one as they are sent, give back what RoundTrip says: start line,
   headers, and the body exactly when the announced length is right.
   */
  lemma {:induction false} VectorsReadBack(isResp: bool, zeroBody: bool, a: string, b: string, c: string,
                                           hs: seq<Header>, body: string, vectors: seq<string>)
    requires WellFormedLine(a, b, c) && forall f :: f in hs ==> WellFormedHeader(f)
    requires !FramingOf(isResp, zeroBody, b, hs).ByChunks? && Concat(vectors) == MessageText(a, b, c, hs, body)
    ensures Arrives(FeedAll(Init(isResp, zeroBody), vectors), isResp, zeroBody, a, b, c, hs, body)
  {
    RoundTrip(isResp, zeroBody, a, b, c, hs, body);
    SplitInvariance(isResp, zeroBody, vectors);
    hide FramingOf;
    hide FlagsOf;
    SameReadsBack(FeedAll(Init(isResp, zeroBody), vectors), Feed(Init(isResp, zeroBody), Concat(vectors)),
                  Concat(vectors), LineOf(isResp, a, b, c), hs, FlagsOf(if isResp then a else c, hs), body,
                  KnownLength(FramingOf(isResp, zeroBody, b, hs)));
  }

  /** A receiver of requests, or of responses, reads these vectors back, unless their fields make them chunked. */
  ghost predicate Received(vectors: seq<string>, isResp: bool, a: string, b: string, c: string, hs: seq<Header>,
                           body: string) {
    forall zeroBody ::
      WellFormedLine(a, b, c) && (forall f :: f in hs ==> WellFormedHeader(f))
      && !FramingOf(isResp, zeroBody, b, hs).ByChunks? ==>
        Arrives(FeedAll(Init(isResp, zeroBody), vectors), isResp, zeroBody, a, b, c, hs, body)
  }

  lemma {:induction false} AllReceived(vectors: seq<string>, isResp: bool, a: string, b: string, c: string,
                                       hs: seq<Header>, body: string)
    requires Concat(vectors) == MessageText(a, b, c, hs, body)
    ensures Received(vectors, isResp, a, b, c, hs, body)
  {
    hide Arrives;
    hide FeedAll;
    hide MessageText;
    hide FramingOf;
    hide WellFormedHeader;
    hide WellFormedLine;
    forall zeroBody | WellFormedLine(a, b, c) && (forall f :: f in hs ==> WellFormedHeader(f))
      && !FramingOf(isResp, zeroBody, b, hs).ByChunks?
      ensures Arrives(FeedAll(Init(isResp, zeroBody), vectors), isResp, zeroBody, a, b, c, hs, body)
    {
      VectorsReadBack(isResp, zeroBody, a, b, c, hs, body, vectors);
    }
  }

  lemma {:induction false} SameReadsBack(f: Fed, g: Fed, msg: string, line: StartLine, hs: seq<Header>, flags: Flags,
                                         body: string, announced: Option<nat>)
    requires SameResult(f, g) && ReadsBack(g, msg, line, hs, flags, body, announced)
    ensures ReadsBack(f, msg, line, hs, flags, body, announced)
  {
  }

  lemma {:induction false} RoundTripFrom(p: Parser, a: string, b: string, c: string, hs: seq<Header>, body: string,
                                         msg: string)
    requires p.msgbuf == [] && !p.complete && InRange(p.core, p.msgbuf) && p.core.head.state.HpsStartLine?
    requires p.core.head.name == [] && p.core.head.headers == []
    requires WellFormedLine(a, b, c) && forall f :: f in hs ==> WellFormedHeader(f)
    requires !ByItself(AddAll(MatchLine(p.isResp, a, b, c, p.core.head), hs))
    requires msg == MessageText(a, b, c, hs, body)
    ensures var e := AddAll(MatchLine(p.isResp, a, b, c, p.core.head), hs);
            ReadsBack(Feed(p, msg), msg, LineOf(p.isResp, a, b, c), hs, e.flags, body, Announced(e))
  {
    hide AddAll;
    hide ParseHead;
    hide Feed;
    hide ReadsBack;
    hide WellFormedHeader;
    hide WellFormedLine;
    hide HeadersText;
    hide LineText;
    Suffix(LineText(a, b, c), HeadersText(hs), body);
    HeadRoundTrip(p.isResp, p.core.head, a, b, c, hs, body, msg);
    AddAllHeaders(MatchLine(p.isResp, a, b, c, p.core.head), hs);
    assert p.core.head.headers + hs == hs;
    Conclude(p, msg, AddAll(MatchLine(p.isResp, a, b, c, p.core.head), hs), body);
  }

  lemma {:induction false} Conclude(p: Parser, msg: string, e: Head, body: string)
    requires p.msgbuf == [] && !p.complete && InRange(p.core, p.msgbuf) && !p.core.head.state.HpsHeaderComplete?
    requires !ByItself(e)
    requires |body| <= |msg| && msg[|msg| - |body|..] == body && msg[..|msg|] == msg
    requires ParseHead(p.isResp, p.core.head, msg)
             == (e.(offset := |msg| - |body|, state := HpsHeaderComplete), Finished)
    ensures ReadsBack(Feed(p, msg), msg, e.line, e.headers, e.flags, body, Announced(e))
  {
    hide ParseHead;
    hide Feed;
    hide DriveBody;
    hide BeginBody;
    var h := e.(offset := |msg| - |body|, state := HpsHeaderComplete);
    FeedFresh(p, msg, h);
    BodyRoundTrip(p.core.(head := h), msg, |body|);
  }

  lemma {:induction false} Suffix(x: string, y: string, body: string)
    ensures var msg := x + (y + ("\r\n" + body));
            |body| <= |msg| && msg[|msg| - |body|..] == body && msg[..|msg|] == msg
  {
  }

  lemma {:induction false} BodyRoundTrip(k: Core, msg: string, n: nat)
    requires k.head.flags.chunked ==> k.head.transferLength.Some?
    requires n <= |msg| && k.head.offset == |msg| - n && k.chunk.offset == 0
    ensures var (c, r) := DriveBody(BeginBody(k), msg);
            var announced := Announced(k.head);
            c.head == k.head.(transferLength := announced)
            && (r.Finished? <==> announced.Some? && announced.value <= n) && !r.Malformed?
            && (r.Finished? ==> End(c) == |msg| - n + announced.value)
  {
  }

  // ----- a message delimited by Content-Length -----

  function Digit(d: nat): char
    requires d < 10
  {
    '0' + d as char
  }

  /** The decimal digits of n, without leading zeros. */
  function Decimal(n: nat): (s: string)
    ensures s != [] && forall i :: 0 <= i < |s| ==> IsDigit(s[i])
  {
    if n < 10 then [Digit(n)] else Decimal(n / 10) + [Digit(n % 10)]
  }

  lemma {:induction false} DecimalLength(n: nat, k: nat)
    requires k > 0 && n < PowN(k)
    ensures |Decimal(n)| <= k
    decreases k
  {
    if n >= 10 {
      assert PowN(1) == 10 * PowN(0);
      DecimalLength(n / 10, k - 1);
    }
  }

  lemma {:induction false} AtolLast(s: string, d: char, acc: nat)
    requires IsDigit(d) && forall i :: 0 <= i < |s| ==> IsDigit(s[i])
    ensures Atol(s + [d], acc) == 10 * Atol(s, acc) + (d as int - '0' as int)
    decreases |s|
  {
    if s == [] {
      assert [d][1..] == [];
      assert (s + [d])[1..] == [];
    } else {
      assert (s + [d])[1..] == s[1..] + [d];
      AtolLast(s[1..], d, 10 * acc + (s[0] as int - '0' as int));
    }
  }

  /** atol reads back what decimal printing writes. */
  lemma {:induction false} AtolDecimal(n: nat)
    ensures Atol(Decimal(n), 0) == n
    decreases n
  {
    if n < 10 {
      assert [Digit(n)] == [] + [Digit(n)];
      AtolLast([], Digit(n), 0);
    } else {
      AtolDecimal(n / 10);
      AtolLast(Decimal(n / 10), Digit(n % 10), 0);
    }
  }

  /** Header names that do not say where the message ends. */
  predicate FreeOfFraming(hs: seq<Header>) {
    forall f :: f in hs ==> !SameIgnoringCase(f.name, "Content-Length")
                            && !SameIgnoringCase(f.name, "Transfer-Encoding")
  }

  lemma {:induction false} AddFree(h: Head, f: Header)
    requires !SameIgnoringCase(f.name, "Content-Length") && !SameIgnoringCase(f.name, "Transfer-Encoding")
    ensures var r := AddHeader(f.name, f.value, h);
            r.contentLength == h.contentLength && r.transferLength == h.transferLength
            && r.flags.chunked == h.flags.chunked
  {
  }

  lemma {:induction false} AddAllFree(h: Head, hs: seq<Header>)
    requires FreeOfFraming(hs)
    ensures var r := AddAll(h, hs);
            r.contentLength == h.contentLength && r.transferLength == h.transferLength
            && r.flags.chunked == h.flags.chunked
    decreases |hs|
  {
    if hs != [] {
      var g := AddHeader(hs[0].name, hs[0].value, h);
      AddFree(h, hs[0]);
      AddAllFree(g, hs[1..]);
    }
  }

  lemma {:induction false} ContentLengthRead(name: string, n: nat, h: Head)
    requires SameIgnoringCase(name, "Content-Length") && n < PowN(15)
    ensures var r := AddHeader(name, Decimal(n), h);
            r.contentLength == Some(n) && r.transferLength == h.transferLength && r.flags.chunked == h.flags.chunked
  {
    DecimalLength(n, 15);
    AtolDecimal(n);
    assert |name| == 14;
    assert Lower(name[1]) == 'o' && Lower(name[2]) == 'n' && Lower("Connection"[9]) == 'n';
  }

  /** The length announced by a single Content-Length field among fields that do not frame the message. */
  lemma {:induction false} OneContentLength(h: Head, pre: seq<Header>, name: string, n: nat, post: seq<Header>)
    requires FreeOfFraming(pre) && FreeOfFraming(post)
    requires SameIgnoringCase(name, "Content-Length") && n < PowN(15)
    ensures var r := AddAll(h, pre + ([Header(name, Decimal(n))] + post));
            r.contentLength == Some(n) && r.transferLength == h.transferLength && r.flags.chunked == h.flags.chunked
  {
    var f := [Header(name, Decimal(n))];
    var h1 := AddAll(h, pre);
    AddAllAppend(h, pre, f + post);
    AddAllFree(h, pre);
    ContentLengthRead(name, n, h1);
    assert (f + post)[1..] == post && (f + post)[0] == f[0];
    AddAllFree(AddHeader(name, Decimal(n), h1), post);
  }

  /**
   The round trip as promised: a message whose Content-Length is the length of its body is read
   back with the same start line, headers and body, and every byte is consumed.
   */
  lemma {:induction false} DelimitedRoundTrip(isResp: bool, a: string, b: string, c: string, pre: seq<Header>,
                                              name: string,
                                              post: seq<Header>, body: string)
    requires WellFormedLine(a, b, c) && FreeOfFraming(pre) && FreeOfFraming(post)
    requires SameIgnoringCase(name, "Content-Length") && |body| < PowN(15)
    requires isResp ==> !BodylessCode(b)
    requires forall f :: f in pre + ([Header(name, Decimal(|body|))] + post) ==> WellFormedHeader(f)
    ensures var hs := pre + ([Header(name, Decimal(|body|))] + post);
            var msg := MessageText(a, b, c, hs, body);
            var f := Feed(Init(isResp, false), msg);
            && f.outcome.Finished? && f.n == |msg| && f.parser.msgbuf == msg
            && f.parser.core.head.line == (if isResp then Status(a, b, c) else Request(a, b, c))
            && f.parser.core.head.headers == hs
            && f.parser.core.head.offset <= |msg| && msg[f.parser.core.head.offset..] == body
  {
    var hs := pre + ([Header(name, Decimal(|body|))] + post);
    var h := MatchLine(isResp, a, b, c, Init(isResp, false).core.head);
    assert StartsWith(b, "1") <==> b != [] && b[0] == '1';
    assert h.transferLength == None && !h.flags.chunked;
    OneContentLength(h, pre, name, |body|, post);
    assert Effects(isResp, false, a, b, c, hs) == AddAll(h, hs);
    MessageMeans(isResp, false, a, b, c, hs);
    hide FramingOf;
    RoundTrip(isResp, false, a, b, c, hs, body);
  }

  // ----- the encoder -----

  lemma {:induction false} ConcatAppend(x: seq<string>, y: seq<string>)
    ensures Concat(x + y) == Concat(x) + Concat(y)
    decreases |x|
  {
    if x == [] {
      assert x + y == y;
    } else {
      assert (x + y)[1..] == x[1..] + y;
      ConcatAppend(x[1..], y);
    }
  }

  lemma {:induction false} ConcatOne(x: seq<string>, s: string)
    ensures Concat(x + [s]) == Concat(x) + s
  {
    ConcatAppend(x, [s]);
    assert Concat([s]) == s + Concat([]);
  }

  lemma {:induction false} HeadersTextNext(hs: seq<Header>, k: nat)
    requires k < |hs|
    ensures HeadersText(hs[..k + 1]) == HeadersText(hs[..k]) + HeaderText(hs[k])
    decreases k
  {
    if k > 0 {
      HeadersTextNext(hs[1..], k - 1);
      assert hs[..k + 1][1..] == hs[1..][..k] && hs[..k][1..] == hs[1..][..k - 1];
    } else {
      assert hs[..1][1..] == [];
    }
  }

  /** The parts of class HttpMessage used for sending. */
  class OutMessage {
    var verb: Option<string>
    var uri: Option<string>
    var version: Option<string>
    var code: Option<string>
    var phrase: Option<string>
    var headerList: seq<Header>
    var outputBody: seq<string>
    var outputBodySize: nat

    ghost predicate Valid()
      reads this
    {
      outputBodySize == |Concat(outputBody)|
    }

    /** A request without its uri or version, or a response without its version, code or phrase */
    predicate Incomplete()
      reads this
    {
      if verb.Some? then uri.None? || version.None? else version.None? || code.None? || phrase.None?
    }

    /** encode, the choice of the start line */
    method StartLine() returns (ok: bool, a: string, b: string, c: string)
      ensures ok == !Incomplete()
      ensures ok && verb.Some? ==> a == verb.value && b == uri.value && c == version.value
      ensures ok && verb.None? ==> a == version.value && b == code.value && c == phrase.value
    {
      var x, y, z := verb, uri, version;
      if verb.None? {
        x, y, z := version, code, phrase;
      }
      if x.None? || y.None? || z.None? {
        return false, "", "", "";
      }
      return true, x.value, y.value, z.value;
    }

    /** append_output_body */
    method AppendOutputBody(buf: string)
      requires Valid()
      modifies `outputBody, `outputBodySize
      ensures Valid() && Concat(outputBody) == old(Concat(outputBody)) + buf
    {
      ConcatOne(outputBody, buf);
      outputBody := outputBody + [buf];
      outputBodySize := outputBodySize + |buf|;
    }

    /** combine_from: the blocks from pos on are copied into one block of exactly `size` bytes. */
    method CombineFrom(pos: nat, size: nat)
      requires pos < |outputBody| && size == |Concat(outputBody[pos..])|
      modifies `outputBody
      ensures outputBody == old(outputBody[..pos]) + [old(Concat(outputBody[pos..]))]
    {
      var block := [];
      while pos < |outputBody|
        invariant pos <= |outputBody| && outputBody[..pos] == old(outputBody[..pos])
        invariant block + Concat(outputBody[pos..]) == old(Concat(outputBody[pos..])) && |block| <= size
        decreases |outputBody|
      {
        var entry := outputBody[pos];
        ghost var rest := outputBody[pos..];
        outputBody := outputBody[..pos] + outputBody[pos + 1..];
        assert outputBody[pos..] == rest[1..];
        block := block + entry;
      }
      assert outputBody == outputBody[..pos] && Concat(outputBody[pos..]) == [];
      assert block == block + [];
      outputBody := outputBody + [block];
    }

    /** The vectors of the header lines. */
    method EncodeHeaders(vectors: array<string>, max: int) returns (i: int)
      requires 6 <= max <= vectors.Length
      modifies vectors
      ensures i == (if 6 + |headerList| < max then 6 + |headerList| else max)
      ensures vectors[..6] == old(vectors[..6])
      ensures 6 + |headerList| < max ==> Concat(vectors[..i]) == Concat(vectors[..6]) + HeadersText(headerList)
    {
      i := 6;
      var k := 0;
      assert headerList[..0] == [];
      while k < |headerList| && i != max
        invariant i == 6 + k <= max && k <= |headerList|
        invariant vectors[..6] == old(vectors[..6])
        invariant Concat(vectors[..i]) == Concat(vectors[..6]) + HeadersText(headerList[..k])
      {
        var h := headerList[k];
        ghost var before := vectors[..i];
        vectors[i] := h.name + ": " + h.value + "\r\n";
        assert vectors[..i + 1] == before + [HeaderText(h)];
        ConcatOne(before, HeaderText(h));
        HeadersTextNext(headerList, k);
        i, k := i + 1, k + 1;
      }
      assert headerList[..|headerList|] == headerList;
    }

    /** The vectors of the body: when only one is left the remaining blocks are combined. */
    method EncodeBody(vectors: array<string>, start: nat, max: nat) returns (i: nat)
      requires Valid() && start < max <= vectors.Length
      modifies `outputBody, vectors
      ensures Valid() && Concat(outputBody) == old(Concat(outputBody))
      ensures start <= i <= max && Concat(vectors[..i]) == old(Concat(vectors[..start])) + Concat(outputBody)
    {
      i := start;
      var size := outputBodySize;
      var k := 0;
      assert outputBody[0..] == outputBody && outputBody[..0] == [];
      while k < |outputBody|
        invariant start <= i <= max && k <= |outputBody| && (k < |outputBody| ==> i < max)
        invariant Valid() && Concat(outputBody) == old(Concat(outputBody))
        invariant size == |Concat(outputBody[k..])|
        invariant Concat(vectors[..i]) == old(Concat(vectors[..start])) + Concat(outputBody[..k])
        decreases |outputBody| - k
      {
        if i + 1 == max && k != |outputBody| - 1 {
          Combined(outputBody, k);
          CombineFrom(k, size);
        }
        var block := outputBody[k];
        ghost var before := vectors[..i];
        vectors[i] := block;
        assert vectors[..i + 1] == before + [block];
        BlockDone(before, old(Concat(vectors[..start])), outputBody, k);
        size := size - |block|;
        i, k := i + 1, k + 1;
      }
      assert outputBody[..|outputBody|] == outputBody;
    }

    /** The vectors of encode behind the start line: -1 without room for the header, else the number of vectors used. */
    method Fill(vectors: array<string>, max: nat, a: string, b: string, c: string) returns (ret: int)
      requires Valid() && 6 <= max <= vectors.Length
      modifies `outputBody, vectors
      ensures Valid() && Concat(outputBody) == old(Concat(outputBody))
      ensures ret == -1 <==> 7 + |headerList| >= max
      ensures ret != -1 ==>
                6 < ret <= max && Concat(vectors[..ret]) == MessageText(a, b, c, headerList, Concat(outputBody))
    {
      vectors[0], vectors[1], vectors[2], vectors[3], vectors[4], vectors[5] := a, " ", b, " ", c, "\r\n";
      LineVectors(vectors[..6], a, b, c);
      var i := EncodeHeaders(vectors, max);
      if i + 1 >= max {
        return -1;
      }
      ghost var before := vectors[..i];
      vectors[i] := "\r\n";
      assert vectors[..i + 1] == before + ["\r\n"];
      ConcatOne(before, "\r\n");
      i := i + 1;
      i := EncodeBody(vectors, i, max);
      Regroup(LineText(a, b, c), HeadersText(headerList), Concat(outputBody));
      ret := i;
    }

    /** The vectors are this message, and a receiver that is fed them one by one reads it back, as RoundTrip says. */
    ghost predicate Sent(vectors: seq<string>, isResp: bool, a: string, b: string, c: string)
      reads this
    {
      && Concat(vectors) == MessageText(a, b, c, headerList, Concat(outputBody))
      && Received(vectors, isResp, a, b, c, headerList, Concat(outputBody))
    }

    /**
     encode: a request of method, uri and version if there is a method, otherwise a response of version, code and
     phrase; -1 exactly if one of them is missing or there is no room for the header.
     */
    method Encode(vectors: array<string>, max: nat) returns (ret: int)
      requires Valid() && 6 <= max <= vectors.Length
      modifies `outputBody, vectors
      ensures Valid() && Concat(outputBody) == old(Concat(outputBody))
      ensures ret == -1 <==> Incomplete() || 7 + |headerList| >= max
      ensures ret != -1 ==> 6 < ret <= max
      ensures ret != -1 && verb.Some? ==> Sent(vectors[..ret], false, verb.value, uri.value, version.value)
      ensures ret != -1 && verb.None? ==> Sent(vectors[..ret], true, version.value, code.value, phrase.value)
    {
      hide Received;
      hide MessageText;
      var ok, a, b, c := StartLine();
      if !ok {
        return -1;
      }
      ret := Fill(vectors, max, a, b, c);
      if ret != -1 {
        AllReceived(vectors[..ret], verb.None?, a, b, c, headerList, Concat(outputBody));
      }
    }
  }

  lemma {:induction false} Regroup(x: string, y: string, body: string)
    ensures x + y + "\r\n" + body == x + (y + ("\r\n" + body))
  {
  }

  lemma {:induction false} LineVectors(v: seq<string>, a: string, b: string, c: string)
    requires v == [a, " ", b, " ", c, "\r\n"]
    ensures Concat(v) == LineText(a, b, c)
  {
    ConcatOne([], a);
    ConcatOne([a], " ");
    ConcatOne([a, " "], b);
    ConcatOne([a, " ", b], " ");
    ConcatOne([a, " ", b, " "], c);
    ConcatOne([a, " ", b, " ", c], "\r\n");
    assert [a, " "] == [a] + [" "] && [a, " ", b] == [a, " "] + [b] && [a, " ", b, " "] == [a, " ", b] + [" "];
    assert [a, " ", b, " ", c] == [a, " ", b, " "] + [c] && v == [a, " ", b, " ", c] + ["\r\n"];
  }

  lemma {:induction false} BlockDone(before: seq<string>, head: string, blocks: seq<string>, k: nat)
    requires k < |blocks| && Concat(before) == head + Concat(blocks[..k])
    ensures Concat(before + [blocks[k]]) == head + Concat(blocks[..k + 1])
    ensures Concat(blocks[k..]) == blocks[k] + Concat(blocks[k + 1..])
  {
    ConcatOne(before, blocks[k]);
    assert blocks[..k + 1] == blocks[..k] + [blocks[k]];
    ConcatOne(blocks[..k], blocks[k]);
    assert blocks[k..][1..] == blocks[k + 1..];
  }

  /** Combining the tail of a block list keeps the bytes. */
  lemma {:induction false} Combined(blocks: seq<string>, k: nat)
    requires k <= |blocks|
    ensures Concat(blocks[..k] + [Concat(blocks[k..])]) == Concat(blocks)
    ensures (blocks[..k] + [Concat(blocks[k..])])[..k] == blocks[..k]
    ensures |Concat((blocks[..k] + [Concat(blocks[k..])])[k..])| == |Concat(blocks[k..])|
  {
    ConcatOne(blocks[..k], Concat(blocks[k..]));
    ConcatAppend(blocks[..k], blocks[k..]);
    assert blocks[..k] + blocks[k..] == blocks;
    assert (blocks[..k] + [Concat(blocks[k..])])[k..] == [] + [Concat(blocks[k..])];
    ConcatOne([], Concat(blocks[k..]));
  }
}
