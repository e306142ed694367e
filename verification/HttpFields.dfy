/**
 What the start line and the header fields of a message mean: of several fields with one name the last that can be
 read counts.  The effects of adding fields one by one, as the parser does, are those of the whole list.
 */
module HttpFields {
  import opened Basics
  import opened HttpParser

  function AddAll(h: Head, hs: seq<Header>): Head
    decreases |hs|
  {
    if hs == [] then h else AddAll(AddHeader(hs[0].name, hs[0].value, h), hs[1..])
  }

  lemma {:induction false} AddAllAppend(h: Head, x: seq<Header>, y: seq<Header>)
    ensures AddAll(h, x + y) == AddAll(AddAll(h, x), y)
    decreases |x|
  {
    if x == [] {
      assert x + y == y;
    } else {
      assert (x + y)[1..] == x[1..] + y;
      AddAllAppend(AddHeader(x[0].name, x[0].value, h), x[1..], y);
    }
  }

  lemma {:induction false} AddAllLast(h: Head, hs: seq<Header>)
    requires hs != []
    ensures var f := hs[|hs| - 1]; AddAll(h, hs) == AddHeader(f.name, f.value, AddAll(h, hs[..|hs| - 1]))
  {
    var x, f := hs[..|hs| - 1], hs[|hs| - 1];
    assert hs == x + [f];
    AddAllAppend(h, x, [f]);
    assert [f][1..] == [];
  }

  // ----- what fields mean -----

  /** The value of the last field with this name whose value can be read. */
  function LastValue(hs: seq<Header>, name: string, readable: string -> bool): Option<string> {
    if hs == [] then None
    else
      var f := hs[|hs| - 1];
      if SameIgnoringCase(f.name, name) && readable(f.value) then Some(f.value)
      else LastValue(hs[..|hs| - 1], name, readable)
  }

  predicate AnyValue(v: string) {
    true
  }

  /** A length has at most 15 characters and starts with a digit. */
  predicate IsLength(v: string) {
    |v| in {1, 2, 3, 4, 5, 6, 7, 8, 9, 10, 11, 12, 13, 14, 15} && v[0] in "0123456789"
  }

  predicate IsContinue(v: string) {
    SameIgnoringCase(v, "100-continue")
  }

  predicate IsPersistence(v: string) {
    SameIgnoringCase(v, "keep-alive") || SameIgnoringCase(v, "close")
  }

  /** Any coding but the identity is taken for chunked. */
  predicate IsChunked(hs: seq<Header>) {
    var v := LastValue(hs, "transfer-encoding", AnyValue);
    v.Some? && !SameIgnoringCase(v.value, "identity")
  }

  function LengthField(hs: seq<Header>): Option<nat> {
    var v := LastValue(hs, "content-length", IsLength);
    if v.Some? then Some(Atol(v.value, 0)) else None
  }

  /** Persistent unless the version is below 1.1; the last Connection field that says so decides. */
  predicate IsPersistent(version: string, hs: seq<Header>) {
    var v := LastValue(hs, "connection", IsPersistence);
    if v.Some? then SameIgnoringCase(v.value, "keep-alive") else !BelowOneOne(version)
  }

  predicate BelowOneOne(version: string) {
    version == "HTTP/1.0" || (|version| >= 6 && version[..6] == "HTTP/0")
  }

  predicate Has(hs: seq<Header>, name: string) {
    exists i :: 0 <= i < |hs| && SameIgnoringCase(hs[i].name, name)
  }

  function FlagsOf(version: string, hs: seq<Header>): Flags {
    Flags(Has(hs, "connection"), Has(hs, "content-length"), Has(hs, "keep-alive"),
          LastValue(hs, "expect", IsContinue).Some?, IsPersistent(version, hs), IsChunked(hs))
  }

  datatype Framing = ByLength(n: nat) | ByChunks | ByClose

  predicate BodylessCode(code: string) {
    (code != [] && code[0] == '1') || code == "204" || code == "304"
  }

  /** How the end of a message is found: section 6.3 of RFC 9112, as far as the parser follows it. */
  function FramingOf(isResp: bool, zeroBody: bool, code: string, hs: seq<Header>): Framing {
    if zeroBody || (isResp && BodylessCode(code)) then ByLength(0)
    else if IsChunked(hs) then ByChunks
    else if LengthField(hs).Some? then ByLength(LengthField(hs).value)
    else if isResp then ByClose
    else ByLength(0)
  }

  /** The length that is known before the body is read */
  function KnownLength(f: Framing): Option<nat> {
    if f.ByLength? then Some(f.n) else None
  }

  // ----- adding one field -----

  lemma {:induction false} CaseOfNames(name: string)
    ensures SameIgnoringCase(name, "Expect") <==> SameIgnoringCase(name, "expect")
    ensures SameIgnoringCase(name, "Connection") <==> SameIgnoringCase(name, "connection")
    ensures SameIgnoringCase(name, "Keep-Alive") <==> SameIgnoringCase(name, "keep-alive")
    ensures SameIgnoringCase(name, "Content-Length") <==> SameIgnoringCase(name, "content-length")
    ensures SameIgnoringCase(name, "Transfer-Encoding") <==> SameIgnoringCase(name, "transfer-encoding")
  {
    CaseOf("Expect", "expect", name);
    CaseOf("Connection", "connection", name);
    CaseOf("Keep-Alive", "keep-alive", name);
    CaseOf("Content-Length", "content-length", name);
    CaseOf("Transfer-Encoding", "transfer-encoding", name);
  }

  lemma {:induction false} CaseOf(a: string, b: string, name: string)
    requires |a| == |b| && forall i :: 0 <= i < |a| ==> Lower(a[i]) == Lower(b[i])
    ensures SameIgnoringCase(name, a) <==> SameIgnoringCase(name, b)
  {
  }

  /** No name is two of the names that mean something. */
  lemma {:induction false} NamesApart(name: string)
    ensures SameIgnoringCase(name, "connection") ==> !SameIgnoringCase(name, "keep-alive")
  {
    assert "connection"[0] != "keep-alive"[0];
  }

  lemma {:induction false} AddCodings(h: Head, name: string, value: string)
    ensures var r := AddHeader(name, value, h);
            && r.flags.chunked == (if SameIgnoringCase(name, "transfer-encoding")
                                   then !SameIgnoringCase(value, "identity") else h.flags.chunked)
            && r.transferLength == h.transferLength && r.line == h.line
            && r.headers == h.headers + [Header(name, value)]
  {
    CaseOfNames(name);
    hide SameIgnoringCase;
    Lengths(name);
  }

  lemma {:induction false} AddLength(h: Head, name: string, value: string)
    ensures var r := AddHeader(name, value, h);
            && r.contentLength == (if SameIgnoringCase(name, "content-length") && IsLength(value)
                                   then Some(Atol(value, 0)) else h.contentLength)
            && r.flags.hasContentLength == (h.flags.hasContentLength || SameIgnoringCase(name, "content-length"))
  {
    CaseOfNames(name);
    LengthIs(value);
    hide SameIgnoringCase;
    hide IsLength;
    Lengths(name);
  }

  lemma {:induction false} LengthIs(v: string)
    ensures IsLength(v) <==> 0 < |v| <= 15 && IsDigit(v[0])
  {
  }

  lemma {:induction false} AddConnection(h: Head, name: string, value: string)
    ensures var r := AddHeader(name, value, h);
            && r.flags.keepAlive == (if SameIgnoringCase(name, "connection") && IsPersistence(value)
                                     then SameIgnoringCase(value, "keep-alive") else h.flags.keepAlive)
            && r.flags.hasConnection == (h.flags.hasConnection || SameIgnoringCase(name, "connection"))
            && r.flags.hasKeepAlive == (h.flags.hasKeepAlive || SameIgnoringCase(name, "keep-alive"))
            && r.flags.expectContinue == (h.flags.expectContinue ||
                                          (SameIgnoringCase(name, "expect") && IsContinue(value)))
  {
    CaseOfNames(name);
    CaseOfNames(value);
    NamesApart(name);
    assert |value| == 5 ==> !SameIgnoringCase(value, "keep-alive");
    hide SameIgnoringCase;
    Lengths(name);
  }

  lemma {:induction false} Lengths(name: string)
    ensures SameIgnoringCase(name, "expect") ==> |name| == 6
    ensures SameIgnoringCase(name, "connection") || SameIgnoringCase(name, "keep-alive") ==> |name| == 10
    ensures SameIgnoringCase(name, "content-length") ==> |name| == 14
    ensures SameIgnoringCase(name, "transfer-encoding") ==> |name| == 17
  {
  }

  // ----- adding all fields -----

  lemma {:induction false} HasLast(hs: seq<Header>, name: string)
    requires hs != []
    ensures Has(hs, name) <==> Has(hs[..|hs| - 1], name) || SameIgnoringCase(hs[|hs| - 1].name, name)
  {
    var x := hs[..|hs| - 1];
    if Has(x, name) {
      var i :| 0 <= i < |x| && SameIgnoringCase(x[i].name, name);
      assert hs[i] == x[i];
    }
    if Has(hs, name) && !SameIgnoringCase(hs[|hs| - 1].name, name) {
      var i :| 0 <= i < |hs| && SameIgnoringCase(hs[i].name, name);
      assert x[i] == hs[i];
    }
  }

  /** The fields h had before, with those of hs added */
  ghost predicate Meant(h: Head, hs: seq<Header>, r: Head) {
    var coding, length := LastValue(hs, "transfer-encoding", AnyValue), LastValue(hs, "content-length", IsLength);
    var persistence := LastValue(hs, "connection", IsPersistence);
    && r.line == h.line && r.headers == h.headers + hs && r.transferLength == h.transferLength
    && r.flags.chunked == (if coding.Some? then !SameIgnoringCase(coding.value, "identity") else h.flags.chunked)
    && r.contentLength == (if length.Some? then Some(Atol(length.value, 0)) else h.contentLength)
    && r.flags.keepAlive == (if persistence.Some? then SameIgnoringCase(persistence.value, "keep-alive")
                             else h.flags.keepAlive)
    && r.flags.hasConnection == (h.flags.hasConnection || Has(hs, "connection"))
    && r.flags.hasContentLength == (h.flags.hasContentLength || Has(hs, "content-length"))
    && r.flags.hasKeepAlive == (h.flags.hasKeepAlive || Has(hs, "keep-alive"))
    && r.flags.expectContinue == (h.flags.expectContinue || LastValue(hs, "expect", IsContinue).Some?)
  }

  lemma {:induction false} MeantMore(h: Head, hs: seq<Header>, r: Head)
    requires hs != [] && Meant(h, hs[..|hs| - 1], r)
    ensures var f := hs[|hs| - 1]; Meant(h, hs, AddHeader(f.name, f.value, r))
  {
    var f := hs[|hs| - 1];
    AddCodings(r, f.name, f.value);
    AddLength(r, f.name, f.value);
    AddConnection(r, f.name, f.value);
    HasLast(hs, "connection");
    HasLast(hs, "content-length");
    HasLast(hs, "keep-alive");
    assert hs == hs[..|hs| - 1] + [f];
    hide AddHeader;
    hide SameIgnoringCase;
    hide Has;
    hide IsLength;
    hide IsContinue;
    hide IsPersistence;
  }

  /** Adding the fields one by one has the effects of the last field of each name that can be read. */
  lemma {:induction false} FieldsMean(h: Head, hs: seq<Header>)
    ensures Meant(h, hs, AddAll(h, hs))
    decreases |hs|
  {
    if hs == [] {
      assert h.headers + hs == h.headers;
    } else {
      FieldsMean(h, hs[..|hs| - 1]);
      AddAllLast(h, hs);
      hide Meant;
      MeantMore(h, hs, AddAll(h, hs[..|hs| - 1]));
    }
  }

  // ----- the whole message header -----

  /** The header fields as the parser leaves them after this start line and these headers. */
  function Effects(isResp: bool, zeroBody: bool, a: string, b: string, c: string, hs: seq<Header>): Head {
    AddAll(MatchLine(isResp, a, b, c, Init(isResp, zeroBody).core.head), hs)
  }

  /** The body length that a head announces. */
  function Announced(h: Head): Option<nat> {
    if h.transferLength.Some? then h.transferLength else h.contentLength
  }

  predicate ByItself(h: Head) {
    h.flags.chunked && h.transferLength.None?
  }

  lemma {:induction false} FlagsMean(isResp: bool, zeroBody: bool, a: string, b: string, c: string, hs: seq<Header>)
    ensures Effects(isResp, zeroBody, a, b, c, hs).flags == FlagsOf(if isResp then a else c, hs)
  {
    FieldsMean(MatchLine(isResp, a, b, c, Init(isResp, zeroBody).core.head), hs);
    hide SameIgnoringCase;
    hide Has;
    hide LastValue;
    hide AddAll;
  }

  lemma {:induction false} FramingMeans(isResp: bool, zeroBody: bool, a: string, b: string, c: string, hs: seq<Header>)
    ensures var e, framing := Effects(isResp, zeroBody, a, b, c, hs), FramingOf(isResp, zeroBody, b, hs);
            && (framing.ByChunks? <==> ByItself(e)) && (!framing.ByChunks? ==> Announced(e) == KnownLength(framing))
  {
    FieldsMean(MatchLine(isResp, a, b, c, Init(isResp, zeroBody).core.head), hs);
    assert StartsWith(b, "1") <==> b != [] && b[0] == '1';
    hide SameIgnoringCase;
    hide Has;
    hide LastValue;
    hide AddAll;
    hide StartsWith;
    hide OldVersion;
  }

  /** Flags and framing of a message are those of its version, status code and fields. */
  lemma {:induction false} MessageMeans(isResp: bool, zeroBody: bool, a: string, b: string, c: string, hs: seq<Header>)
    ensures var e, framing := Effects(isResp, zeroBody, a, b, c, hs), FramingOf(isResp, zeroBody, b, hs);
            && e.flags == FlagsOf(if isResp then a else c, hs)
            && (framing.ByChunks? <==> ByItself(e)) && (!framing.ByChunks? ==> Announced(e) == KnownLength(framing))
  {
    FlagsMean(isResp, zeroBody, a, b, c, hs);
    FramingMeans(isResp, zeroBody, a, b, c, hs);
  }

  // ----- letters -----

  const UPPER := "ABCDEFGHIJKLMNOPQRSTUVWXYZ"
  const LOWER := "abcdefghijklmnopqrstuvwxyz"

  /** The two cases of one letter */
  predicate TwoCases(a: char, b: char) {
    exists k :: 0 <= k < 26 && a == UPPER[k] && b == LOWER[k]
  }

  lemma {:induction false} Alphabet(k: nat)
    requires k < 26
    ensures UPPER[k] as int == 'A' as int + k && LOWER[k] as int == 'a' as int + k
  {
  }

  lemma {:induction false} CasesLower(a: char, b: char)
    requires TwoCases(a, b)
    ensures Lower(a) == Lower(b)
  {
    var k :| 0 <= k < 26 && a == UPPER[k] && b == LOWER[k];
    Alphabet(k);
  }

  lemma {:induction false} LowerCases(a: char, b: char)
    requires Lower(a) == Lower(b) && 'A' <= a <= 'Z' && a != b
    ensures TwoCases(a, b)
  {
    var k := a as int - 'A' as int;
    Alphabet(k);
    assert a == UPPER[k] && b == LOWER[k];
  }

  lemma {:induction false} LetterCases(a: char, b: char)
    ensures Lower(a) == Lower(b) <==> a == b || TwoCases(a, b) || TwoCases(b, a)
  {
    hide TwoCases;
    if TwoCases(a, b) {
      CasesLower(a, b);
    } else if TwoCases(b, a) {
      CasesLower(b, a);
    } else if Lower(a) == Lower(b) && a != b {
      if 'A' <= a <= 'Z' {
        LowerCases(a, b);
      } else {
        LowerCases(b, a);
      }
    }
  }

  /** Names are compared letter by letter, the two cases of a letter being the same. */
  lemma {:induction false} SameLetters(x: string, y: string)
    ensures SameIgnoringCase(x, y) <==>
            |x| == |y| && forall i :: 0 <= i < |x| ==> x[i] == y[i] || TwoCases(x[i], y[i]) || TwoCases(y[i], x[i])
  {
    hide Lower;
    if |x| == |y| {
      forall i | 0 <= i < |x|
        ensures Lower(x[i]) == Lower(y[i]) <==> x[i] == y[i] || TwoCases(x[i], y[i]) || TwoCases(y[i], x[i])
      {
        LetterCases(x[i], y[i]);
      }
    }
  }
}
