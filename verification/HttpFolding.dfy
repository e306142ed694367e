/**
 Header values that are folded over several lines: they are read back as their lines joined by single spaces, without
 the blanks around them.
 */
module HttpFolding {
  import opened HttpParser

  /** One line of a value: blanks, text, blanks */
  datatype Piece = Piece(lead: string, text: string, trail: string)

  predicate Blanks(s: string) {
    forall i :: 0 <= i < |s| ==> IsBlank(s[i])
  }

  predicate ValueChars(s: string) {
    forall i :: 0 <= i < |s| ==> s[i] != '\r' && !NotPositive(s[i])
  }

  predicate GoodPiece(p: Piece) {
    && Blanks(p.lead) && Blanks(p.trail) && ValueChars(p.text)
    && p.text != [] && !IsBlank(p.text[0]) && !IsBlank(p.text[|p.text| - 1])
  }

  function PieceText(p: Piece): string {
    p.lead + (p.text + p.trail) + "\r\n"
  }

  function FoldedText(ps: seq<Piece>): string {
    if ps == [] then [] else PieceText(ps[0]) + FoldedText(ps[1..])
  }

  function Joined(ps: seq<Piece>): string {
    if ps == [] then [] else if |ps| == 1 then ps[0].text else ps[0].text + " " + Joined(ps[1..])
  }

  /** What is held while a line is read, behind `held` characters, stays within the limit. */
  predicate Fits(ps: seq<Piece>, held: nat) {
    ps == [] || (held + |ps[0].text| + |ps[0].trail| < HTTP_HEADER_VALUE_MAX && Fits(ps[1..], held + |ps[0].text| + 1))
  }

  /** Lines behind the first start with a blank. */
  predicate Folded(ps: seq<Piece>) {
    (forall p :: p in ps ==> GoodPiece(p)) && forall i :: 0 < i < |ps| ==> ps[i].lead != []
  }

  lemma {:induction false} SkipBlanks(s: string, i: nat, lead: string, value: string)
    requires i + |lead| < |s| && Blanks(lead) && s[i..i + |lead|] == lead && |value| <= HTTP_HEADER_VALUE_MAX
    requires !IsBlank(s[i + |lead|])
    ensures ValueBlanks(s, i, value) == ValueText(s, i + |lead|, value)
    decreases |lead|
  {
    if lead != [] {
      assert s[i] == s[i..i + |lead|][0] == lead[0];
      assert s[i + 1..i + 1 + |lead[1..]|] == lead[1..];
      SkipBlanks(s, i + 1, lead[1..], value);
    }
  }

  lemma {:induction false} ReadText(s: string, i: nat, text: string, value: string)
    requires i + |text| + 1 < |s| && ValueChars(text) && s[i..i + |text|] == text && s[i + |text|] == '\r'
    requires |value| + |text| < HTTP_HEADER_VALUE_MAX
    ensures ValueText(s, i, value) == ValueLineEnd(s, i + |text| + 1, value + text)
    decreases |text|
  {
    if text == [] {
      assert value + text == value;
    } else {
      assert s[i] == s[i..i + |text|][0] == text[0];
      assert s[i + 1..i + 1 + |text[1..]|] == text[1..];
      ReadText(s, i + 1, text[1..], value + [text[0]]);
      assert value + [text[0]] + text[1..] == value + text;
    }
  }

  lemma {:induction false} TrimBlanks(value: string, trail: string)
    requires Blanks(trail) && value != [] && !IsBlank(value[|value| - 1])
    ensures Trim(value + trail) == value
    decreases |trail|
  {
    if trail == [] {
      assert value + trail == value;
    } else {
      var n := |trail| - 1;
      assert (value + trail)[|value + trail| - 1] == trail[n];
      assert (value + trail)[..|value + trail| - 1] == value + trail[..n];
      TrimBlanks(value, trail[..n]);
    }
  }

  lemma {:induction false} BlankChars(text: string, trail: string)
    requires ValueChars(text) && Blanks(trail)
    ensures ValueChars(text + trail)
  {
  }

  lemma {:induction false} TrimHeld(held: string, text: string, trail: string)
    requires Blanks(trail) && text != [] && !IsBlank(text[|text| - 1])
    ensures Trim(held + (text + trail)) == held + text
  {
    TrimBlanks(held + text, trail);
    assert held + (text + trail) == held + text + trail;
  }

  /** One line, up to the look at what the next one starts with */
  lemma {:induction false} ReadPiece(s: string, i: nat, p: Piece, held: string)
    requires GoodPiece(p) && i + |PieceText(p)| < |s| && s[i..i + |PieceText(p)|] == PieceText(p)
    requires |held| + |p.text| + |p.trail| < HTTP_HEADER_VALUE_MAX
    ensures var j := i + |PieceText(p)|; var v := held + p.text;
            && (IsBlank(s[j]) ==>
                  |v| < HTTP_HEADER_VALUE_MAX && ValueBlanks(s, i, held) == ValueBlanks(s, j + 1, v + [' ']))
            && (!IsBlank(s[j]) ==> ValueBlanks(s, i, held) == Done(Value(v, j)))
  {
    var line := p.text + p.trail;
    var k, e := i + |p.lead|, i + |p.lead| + |line|;
    BlankChars(p.text, p.trail);
    Cuts(s, i, p.lead, line, k, e);
    assert s[k] == s[k..e][0] == line[0] == p.text[0];
    hide ValueBlanks;
    hide ValueText;
    hide Trim;
    hide ValueChars;
    hide Blanks;
    SkipBlanks(s, i, p.lead, held);
    ReadText(s, k, line, held);
    TrimHeld(held, p.text, p.trail);
    LineEnds(s, e + 1, held + line, held + p.text);
  }

  lemma {:induction false} LineEnds(s: string, i: nat, value: string, v: string)
    requires i + 1 < |s| && s[i] == '\n' && |value| < HTTP_HEADER_VALUE_MAX && Trim(value) == v
    ensures |v| < HTTP_HEADER_VALUE_MAX
    ensures IsBlank(s[i + 1]) ==> ValueLineEnd(s, i, value) == ValueBlanks(s, i + 2, v + [' '])
    ensures !IsBlank(s[i + 1]) ==> ValueLineEnd(s, i, value) == Done(Value(v, i + 1))
  {
    TrimShorter(value);
    hide Trim;
    hide ValueBlanks;
    hide ValueText;
  }

  lemma {:induction false} Cuts(s: string, i: nat, x: string, y: string, k: nat, e: nat)
    requires k == i + |x| && e == k + |y| && e + 2 < |s| && s[i..e + 2] == x + y + "\r\n"
    ensures s[i..k] == x && s[k..e] == y && s[e] == '\r' && s[e + 1] == '\n'
  {
    var t := x + y + "\r\n";
    forall j | 0 <= j < |x|
      ensures s[i..k][j] == x[j]
    {
      assert s[i..e + 2][j] == t[j] == x[j];
    }
    forall j | 0 <= j < |y|
      ensures s[k..e][j] == y[j]
    {
      assert s[i..e + 2][|x| + j] == t[|x| + j] == y[j];
    }
    assert s[i..e + 2][|x| + |y|] == t[|x| + |y|] && s[i..e + 2][|x| + |y| + 1] == t[|x| + |y| + 1];
  }

  lemma {:induction false} FoldedTail(s: string, i: nat, x: string, y: string, rest: string)
    requires i <= |s| && s[i..] == x + y + rest && rest != []
    ensures i + |x| < |s| && s[i..i + |x|] == x && s[i + |x|..] == y + rest
  {
    assert s[i..][..|x|] == s[i..i + |x|] && s[i..][|x|..] == s[i + |x|..];
    assert (x + y + rest)[..|x|] == x && (x + y + rest)[|x|..] == y + rest;
  }

  lemma {:induction false} OnePiece(ps: seq<Piece>, held: string, rest: string)
    requires |ps| == 1
    ensures FoldedText(ps[1..]) + rest == rest && FoldedText(ps) == PieceText(ps[0])
    ensures held + Joined(ps) == held + ps[0].text
  {
    hide PieceText;
    assert ps[1..] == [];
    assert PieceText(ps[0]) + [] == PieceText(ps[0]);
  }

  /** The first line of what is left: where it ends, and how reading goes on there */
  lemma {:induction false} FirstLine(s: string, i: nat, held: string, ps: seq<Piece>, rest: string, j: nat)
    requires ps != [] && Folded(ps) && Fits(ps, |held|) && i <= |s| && s[i..] == FoldedText(ps) + rest
    requires rest != [] && j == i + |PieceText(ps[0])|
    ensures j < |s| && s[j..] == FoldedText(ps[1..]) + rest && |FoldedText(ps)| == j - i + |FoldedText(ps[1..])|
    ensures s[j] == s[j..][0]
    ensures IsBlank(s[j]) ==> ValueBlanks(s, i, held) == ValueBlanks(s, j + 1, held + ps[0].text + [' '])
    ensures !IsBlank(s[j]) ==> ValueBlanks(s, i, held) == Done(Value(held + ps[0].text, j))
  {
    hide ValueBlanks;
    hide PieceText;
    hide GoodPiece;
    hide Folded;
    FirstGood(ps);
    FoldedTail(s, i, PieceText(ps[0]), FoldedText(ps[1..]), rest);
    ReadPiece(s, i, ps[0], held);
  }

  /** The other lines, without the blank that has been looked at */
  lemma {:induction false} OtherLines(s: string, j: nat, held: string, ps: seq<Piece>, rest: string)
    returns (ps': seq<Piece>, held': string)
    requires |ps| > 1 && Folded(ps) && Fits(ps, |held|) && j < |s| && s[j..] == FoldedText(ps[1..]) + rest
    ensures IsBlank(s[j]) && s[j + 1..] == FoldedText(ps') + rest && Folded(ps') && 0 < |ps'| < |ps|
    ensures |FoldedText(ps')| == |FoldedText(ps[1..])| - 1
    ensures held' == held + ps[0].text + [' '] && held' + Joined(ps') == held + Joined(ps)
    ensures Fits(ps', |held'|) && |held'| <= HTTP_HEADER_VALUE_MAX
  {
    FirstGood(ps);
    ps' := [ps[1].(lead := ps[1].lead[1..])] + ps[2..];
    held' := held + ps[0].text + [' '];
    NextLine(ps, ps', rest);
    JoinedMore(held, ps, ps');
    hide *;
    assert s[j + 1..] == s[j..][1..] && s[j] == s[j..][0];
  }

  lemma {:induction false} LastLine(s: string, i: nat, held: string, ps: seq<Piece>, rest: string)
    requires |ps| == 1 && Folded(ps) && Fits(ps, |held|) && i <= |s| && s[i..] == FoldedText(ps) + rest
    requires rest != [] && !IsBlank(rest[0])
    ensures ValueBlanks(s, i, held) == Done(Value(held + Joined(ps), i + |FoldedText(ps)|))
  {
    var j := i + |PieceText(ps[0])|;
    FirstLine(s, i, held, ps, rest, j);
    OnePiece(ps, held, rest);
    hide *;
  }

  lemma {:induction false} FoldedFrom(s: string, i: nat, held: string, ps: seq<Piece>, rest: string)
    requires ps != [] && Folded(ps) && Fits(ps, |held|) && i <= |s| && s[i..] == FoldedText(ps) + rest
    requires rest != [] && !IsBlank(rest[0]) && |held| <= HTTP_HEADER_VALUE_MAX
    ensures ValueBlanks(s, i, held) == Done(Value(held + Joined(ps), i + |FoldedText(ps)|))
    decreases |ps|
  {
    hide *;
    if |ps| == 1 {
      LastLine(s, i, held, ps, rest);
    } else {
      var j := i + |PieceText(ps[0])|;
      FirstLine(s, i, held, ps, rest, j);
      var ps', held' := OtherLines(s, j, held, ps, rest);
      FoldedFrom(s, j + 1, held', ps', rest);
    }
  }

  lemma {:induction false} JoinedMore(held: string, ps: seq<Piece>, ps': seq<Piece>)
    requires |ps| > 1 && Joined(ps') == Joined(ps[1..]) && Fits(ps, |held|)
    requires forall n: nat :: Fits(ps[1..], n) ==> Fits(ps', n)
    ensures held + ps[0].text + [' '] + Joined(ps') == held + Joined(ps)
    ensures Fits(ps', |held + ps[0].text + [' ']|) && |held + ps[0].text + [' ']| <= HTTP_HEADER_VALUE_MAX
    ensures |FoldedText(ps)| == |PieceText(ps[0])| + |FoldedText(ps[1..])|
  {
    assert Fits(ps[1..], |held| + |ps[0].text| + 1);
    assert held + ps[0].text + [' '] + Joined(ps') == held + (ps[0].text + " " + Joined(ps[1..]));
  }

  lemma {:induction false} FirstGood(ps: seq<Piece>)
    requires ps != [] && Folded(ps)
    ensures GoodPiece(ps[0]) && (|ps| > 1 ==> ps[1].lead != [])
  {
    assert ps[0] in ps;
  }

  lemma {:induction false} NextLine(ps: seq<Piece>, ps': seq<Piece>, rest: string)
    requires |ps| > 1 && Folded(ps) && ps[1].lead != [] && ps' == [ps[1].(lead := ps[1].lead[1..])] + ps[2..]
    ensures FoldedText(ps[1..]) != [] && IsBlank(FoldedText(ps[1..])[0])
    ensures FoldedText(ps') + rest == (FoldedText(ps[1..]) + rest)[1..]
    ensures |FoldedText(ps')| == |FoldedText(ps[1..])| - 1
    ensures Folded(ps') && Joined(ps') == Joined(ps[1..])
    ensures forall n: nat :: Fits(ps[1..], n) ==> Fits(ps', n)
  {
    var q := ps[1];
    assert q in ps && ps[1..][0] == q;
    assert FoldedText(ps[1..])[0] == PieceText(q)[0] == q.lead[0];
    ShorterLead(ps, ps', rest);
  }

  /** A line whose first blank has been read */
  lemma {:induction false} ShorterLead(ps: seq<Piece>, ps': seq<Piece>, rest: string)
    requires |ps| > 1 && Folded(ps) && ps[1].lead != [] && ps' == [ps[1].(lead := ps[1].lead[1..])] + ps[2..]
    ensures FoldedText(ps') + rest == (FoldedText(ps[1..]) + rest)[1..]
    ensures |FoldedText(ps')| == |FoldedText(ps[1..])| - 1
    ensures Folded(ps') && Joined(ps') == Joined(ps[1..])
    ensures forall n: nat :: Fits(ps[1..], n) ==> Fits(ps', n)
  {
    var q, r := ps[1], ps'[0];
    assert ps'[1..] == ps[2..] && ps[1..][1..] == ps[2..];
    assert PieceText(r) == PieceText(q)[1..];
    assert q in ps;
    forall p | p in ps'
      ensures GoodPiece(p)
    {
      if p != r {
        assert p in ps[2..] && p in ps;
      }
    }
    forall i | 0 < i < |ps'|
      ensures ps'[i].lead != []
    {
      assert ps'[i] == ps[i + 1];
    }
    assert |ps'| == |ps[1..]|;
  }

  /** A folded value reads back as its lines joined by single spaces. */
  lemma {:induction false} FoldedReads(h: Head, ps: seq<Piece>, rest: string)
    requires ps != [] && Folded(ps) && Fits(ps, 0) && rest != [] && !IsBlank(rest[0])
    ensures ParseHeaderValue(h, FoldedText(ps) + rest)
            == Done(AddHeader(h.name, Joined(ps), h)
                    .(offset := h.offset + |FoldedText(ps)|, state := HpsHeaderName, name := []))
  {
    var s := FoldedText(ps) + rest;
    assert s[0..] == s;
    FoldedFrom(s, 0, [], ps, rest);
    assert [] + Joined(ps) == Joined(ps);
  }
}
