/**
 The numbers of section 6 of RFC 8259, and __parse_json_number of src/util/json_parser.c, which accepts exactly these
 and reads their sign, value and end.
 */
module JsonGrammar {
  import opened Basics
  import opened JsonDecimal
  import opened JsonNumber

  datatype Power = Power(letter: char, sign: string, digits: string)

  datatype Numeral = Numeral(minus: bool, integer: string, fraction: Option<string>, power: Option<Power>)

  function SignText(minus: bool): string {
    if minus then "-" else ""
  }

  function FractionText(f: Option<string>): string {
    if f.Some? then "." + f.value else ""
  }

  function PowerText(e: Option<Power>): string {
    if e.Some? then [e.value.letter] + (e.value.sign + e.value.digits) else ""
  }

  function NumeralText(n: Numeral): string {
    SignText(n.minus) + (n.integer + (FractionText(n.fraction) + PowerText(n.power)))
  }

  predicate Figures(s: string) {
    s != [] && forall i :: 0 <= i < |s| ==> s[i] in "0123456789"
  }

  predicate GoodPower(e: Power) {
    (e.letter == 'e' || e.letter == 'E') && (e.sign == "" || e.sign == "+" || e.sign == "-") && Figures(e.digits)
  }

  /** No leading zero, and no part without a digit */
  predicate Grammatical(n: Numeral) {
    && Figures(n.integer) && (n.integer == "0" || n.integer[0] != '0')
    && (n.fraction.Some? ==> Figures(n.fraction.value)) && (n.power.Some? ==> GoodPower(n.power.value))
  }

  /** The text behind the number does not go on with it. */
  predicate Stops(n: Numeral, rest: string) {
    rest != [] ==>
      && !IsDigit(rest[0])
      && (n.power.None? ==> rest[0] != 'e' && rest[0] != 'E')
      && (n.power.None? && n.fraction.None? ==> rest[0] != '.')
  }

  /** This number stands in the text. */
  predicate Stands(n: Numeral, text: string, cursor: nat) {
    && cursor + |NumeralText(n)| <= |text| && text[cursor..cursor + |NumeralText(n)|] == NumeralText(n)
    && Grammatical(n) && Stops(n, text[cursor + |NumeralText(n)|..])
  }

  function FractionDigits(n: Numeral): string {
    if n.fraction.Some? then n.fraction.value else ""
  }

  function PowerValue(n: Numeral): int {
    if n.power.None? then 0
    else if n.power.value.sign == "-" then -(Nat(n.power.value.digits) as int)
    else Nat(n.power.value.digits)
  }

  /** The absolute value */
  function Magnitude(n: Numeral): real {
    var f := FractionDigits(n);
    Value(Nat(n.integer + f), PowerValue(n) - |f|)
  }

  /** The number of significant figures */
  function FigureCount(n: Numeral): nat {
    var d := n.integer + FractionDigits(n);
    |d| - Zeros(d)
  }

  // ----- where the parts of a number stand -----

  /** The places behind the sign, the integer part, the fraction and the exponent, and in front of its digits */
  function IntegerAt(n: Numeral, o: nat): nat {
    o + |SignText(n.minus)|
  }

  function IntegerEnd(n: Numeral, o: nat): nat {
    IntegerAt(n, o) + |n.integer|
  }

  function FractionEnd(n: Numeral, o: nat): nat {
    IntegerEnd(n, o) + (if n.fraction.Some? then 1 + |n.fraction.value| else 0)
  }

  function PowerAt(n: Numeral, o: nat): nat {
    FractionEnd(n, o) + (if n.power.Some? then 1 + |n.power.value.sign| else 0)
  }

  function NumeralEnd(n: Numeral, o: nat): nat {
    PowerAt(n, o) + (if n.power.Some? then |n.power.value.digits| else 0)
  }

  /** The parts of the number are in the text, one behind the other. */
  predicate Laid(n: Numeral, s: string, o: nat) {
    && NumeralEnd(n, o) <= |s|
    && s[o..IntegerAt(n, o)] == SignText(n.minus) && s[IntegerAt(n, o)..IntegerEnd(n, o)] == n.integer
    && (n.fraction.Some? ==>
          s[IntegerEnd(n, o)] == '.' && s[IntegerEnd(n, o) + 1..FractionEnd(n, o)] == n.fraction.value)
    && (n.power.Some? ==>
          && s[FractionEnd(n, o)] == n.power.value.letter
          && s[FractionEnd(n, o) + 1..PowerAt(n, o)] == n.power.value.sign
          && s[PowerAt(n, o)..NumeralEnd(n, o)] == n.power.value.digits)
  }

  lemma {:induction false} TextLength(n: Numeral, o: nat)
    ensures NumeralEnd(n, o) == o + |NumeralText(n)|
  {
  }

  lemma {:induction false} Glue(s: string, i: nat, j: nat, k: nat, x: string, y: string)
    requires i <= j <= k <= |s| && s[i..j] == x && s[j..k] == y
    ensures s[i..k] == x + y
  {
    assert s[i..k] == s[i..j] + s[j..k];
  }

  lemma {:induction false} Unglue(s: string, i: nat, k: nat, x: string, y: string)
    requires i <= k <= |s| && s[i..k] == x + y
    ensures i + |x| <= k && s[i..i + |x|] == x && s[i + |x|..k] == y
  {
    var t := s[i..k];
    assert t[..|x|] == x && t[|x|..] == y;
    assert t[..|x|] == s[i..i + |x|] && t[|x|..] == s[i + |x|..k];
  }

  lemma {:induction false} GlueOne(s: string, i: nat, k: nat, y: string)
    requires i < k <= |s| && s[i + 1..k] == y
    ensures s[i..k] == [s[i]] + y
  {
    assert s[i..k] == [s[i]] + s[i + 1..k];
  }

  lemma {:induction false} UnglueOne(s: string, i: nat, k: nat, c: char, y: string)
    requires i <= k <= |s| && s[i..k] == [c] + y
    ensures i < k && s[i] == c && s[i + 1..k] == y
  {
    Unglue(s, i, k, [c], y);
    assert s[i] == s[i..i + 1][0];
  }

  lemma {:induction false} FractionLaid(s: string, i: nat, k: nat, f: Option<string>)
    requires i <= k <= |s| && k == i + |FractionText(f)|
    ensures s[i..k] == FractionText(f) <==> (f.Some? ==> s[i] == '.' && s[i + 1..k] == f.value)
  {
    if f.Some? {
      assert FractionText(f) == ['.'] + f.value;
      if s[i] == '.' && s[i + 1..k] == f.value {
        GlueOne(s, i, k, f.value);
      }
      if s[i..k] == FractionText(f) {
        UnglueOne(s, i, k, '.', f.value);
      }
    }
  }

  lemma {:induction false} PowerGlued(s: string, i: nat, x: nat, k: nat, v: Power)
    requires i < x <= k <= |s| && s[i] == v.letter && s[i + 1..x] == v.sign && s[x..k] == v.digits
    ensures s[i..k] == [v.letter] + (v.sign + v.digits)
  {
    Glue(s, i + 1, x, k, v.sign, v.digits);
    GlueOne(s, i, k, v.sign + v.digits);
  }

  lemma {:induction false} PowerUnglued(s: string, i: nat, x: nat, k: nat, v: Power)
    requires i < x <= k <= |s| && x == i + 1 + |v.sign| && s[i..k] == [v.letter] + (v.sign + v.digits)
    ensures s[i] == v.letter && s[i + 1..x] == v.sign && s[x..k] == v.digits
  {
    UnglueOne(s, i, k, v.letter, v.sign + v.digits);
    Unglue(s, i + 1, k, v.sign, v.digits);
  }

  lemma {:induction false} PowerLaid(s: string, i: nat, x: nat, k: nat, e: Option<Power>)
    requires i <= x <= k <= |s| && k == i + |PowerText(e)|
    requires e.Some? ==> x == i + 1 + |e.value.sign|
    ensures s[i..k] == PowerText(e) <==>
            (e.Some? ==> s[i] == e.value.letter && s[i + 1..x] == e.value.sign && s[x..k] == e.value.digits)
  {
    if e.Some? {
      if s[i] == e.value.letter && s[i + 1..x] == e.value.sign && s[x..k] == e.value.digits {
        PowerGlued(s, i, x, k, e.value);
      } else if s[i..k] == PowerText(e) {
        PowerUnglued(s, i, x, k, e.value);
      }
    }
  }

  lemma {:induction false} EndsAre(n: Numeral, o: nat)
    ensures FractionEnd(n, o) == IntegerEnd(n, o) + |FractionText(n.fraction)|
    ensures FractionEnd(n, o) <= PowerAt(n, o) <= NumeralEnd(n, o) == FractionEnd(n, o) + |PowerText(n.power)|
    ensures n.power.Some? ==> PowerAt(n, o) == FractionEnd(n, o) + 1 + |n.power.value.sign|
  {
  }

  /** The text of the number stands there exactly if its parts do. */
  lemma {:induction false} LaidText(n: Numeral, s: string, o: nat)
    ensures Laid(n, s, o) <==> o + |NumeralText(n)| <= |s| && s[o..o + |NumeralText(n)|] == NumeralText(n)
  {
    TextLength(n, o);
    EndsAre(n, o);
    hide FractionText;
    hide PowerText;
    hide FractionEnd;
    hide PowerAt;
    hide NumeralEnd;
    var a, b, c, d := IntegerAt(n, o), IntegerEnd(n, o), FractionEnd(n, o), NumeralEnd(n, o);
    if d <= |s| {
      FractionLaid(s, b, c, n.fraction);
      PowerLaid(s, c, PowerAt(n, o), d, n.power);
      FourParts(s, o, a, b, c, d, SignText(n.minus), n.integer, FractionText(n.fraction), PowerText(n.power));
    }
  }

  lemma {:induction false} FourParts(s: string, o: nat, a: nat, b: nat, c: nat, d: nat,
                                     x: string, y: string, z: string, w: string)
    requires a == o + |x| && b == a + |y| && c == b + |z| && d == c + |w| <= |s|
    ensures s[o..a] == x && s[a..b] == y && s[b..c] == z && s[c..d] == w <==> s[o..d] == x + (y + (z + w))
  {
    if s[o..a] == x && s[a..b] == y && s[b..c] == z && s[c..d] == w {
      Glue(s, b, c, d, z, w);
      Glue(s, a, b, d, y, z + w);
      Glue(s, o, a, d, x, y + (z + w));
    }
    if s[o..d] == x + (y + (z + w)) {
      Unglue(s, o, d, x, y + (z + w));
      Unglue(s, a, d, y, z + w);
      Unglue(s, b, d, z, w);
    }
  }

  lemma {:induction false} FiguresAre(s: string)
    ensures Figures(s) <==> s != [] && Digits(s)
  {
    assert forall c: char :: IsDigit(c) <==> c in "0123456789";
  }

  lemma {:induction false} FirstOf(s: string, i: nat, e: nat, x: string)
    requires i <= e <= |s| && s[i..e] == x && x != []
    ensures i < e && s[i] == x[0]
  {
    assert s[i] == s[i..e][0];
  }

  /** A run of digits up to something else */
  lemma {:induction false} RunIs(s: string, i: nat, e: nat, x: string)
    requires i <= e <= |s| && s[i..e] == x && Figures(x) && !IsDigit(At(s, e))
    ensures DigitsEnd(s, i) == e && Run(s, i) == x && IsDigit(At(s, i)) && i < e && s[i] == x[0]
  {
    FiguresAre(x);
    FirstOf(s, i, e, x);
    assert forall k :: i <= k < e ==> s[k] == s[i..e][k - i];
    AtRunEnd(s, i, e);
  }

  // ----- a number that stands in the text is found -----

  /** What follows the number does not go on with it. */
  predicate StopsAt(n: Numeral, c: char) {
    && !IsDigit(c) && (n.power.None? ==> c != 'e' && c != 'E')
    && (n.power.None? && n.fraction.None? ==> c != '.')
  }

  lemma {:induction false} StopsThere(n: Numeral, s: string, e: nat)
    requires e <= |s|
    ensures Stops(n, s[e..]) <==> StopsAt(n, At(s, e))
  {
    if e < |s| {
      assert s[e..][0] == s[e];
    }
  }

  /** The parts found are those of n. */
  ghost predicate Finds(p: Parts, s: string, cursor: nat, n: Numeral) {
    && p.Parts? && p.integer <= |s| && p.fraction <= |s| && p.expDigits <= |s|
    && p.negative == n.minus && p.end == cursor + |NumeralText(n)|
    && Run(s, p.integer) == n.integer && Run(s, p.fraction) == FractionDigits(n)
    && (n.power.None? ==> Run(s, p.expDigits) == [] && !p.expNegative)
    && (n.power.Some? ==> Run(s, p.expDigits) == n.power.value.digits && (p.expNegative <==> n.power.value.sign == "-"))
  }

  lemma {:induction false} NoRun(s: string)
    ensures Run(s, |s|) == []
  {
  }

  lemma {:induction false} MainIs(s: string, cursor: nat, i: nat, e: nat)
    requires cursor <= |s| && i == (if At(s, cursor) == '-' then cursor + 1 else cursor) && i <= |s|
    requires IsDigit(At(s, i)) && !(At(s, i) == '0' && IsDigit(At(s, i + 1))) && e == DigitsEnd(s, i)
    ensures At(s, e) != '.' ==> SplitMain(s, cursor) == Parts(At(s, cursor) == '-', i, |s|, false, |s|, e)
    ensures At(s, e) == '.' && e < |s| && IsDigit(At(s, e + 1)) ==>
              SplitMain(s, cursor) == Parts(At(s, cursor) == '-', i, e + 1, false, |s|, DigitsEnd(s, e + 1))
  {
    hide DigitsEnd;
    hide IntegerPart;
    hide Run;
  }

  lemma {:induction false} SignFound(s: string, o: nat, i: nat, minus: bool)
    requires i == o + |SignText(minus)| && i < |s| && s[o..i] == SignText(minus) && IsDigit(s[i])
    ensures At(s, o) == '-' <==> minus
  {
    if minus {
      FirstOf(s, o, i, SignText(minus));
    }
  }

  lemma {:induction false} NoLeadingZero(s: string, i: nat, e: nat, integer: string)
    requires i <= e <= |s| && s[i..e] == integer && integer != [] && (integer == "0" || integer[0] != '0')
    requires !IsDigit(At(s, e))
    ensures !(At(s, i) == '0' && IsDigit(At(s, i + 1)))
  {
    FirstOf(s, i, e, integer);
  }

  /** The sign, the integer part and the fraction */
  lemma {:induction false} MainFound(s: string, o: nat, n: Numeral)
    requires Laid(n, s, o) && Grammatical(n) && !IsDigit(At(s, FractionEnd(n, o)))
    requires n.fraction.None? ==> At(s, FractionEnd(n, o)) != '.'
    ensures var p := SplitMain(s, o);
            && p.Parts? && p.integer <= |s| && p.fraction <= |s|
            && p.negative == n.minus && Run(s, p.integer) == n.integer && Run(s, p.fraction) == FractionDigits(n)
            && p.expDigits == |s| && !p.expNegative && p.end == FractionEnd(n, o)
  {
    var i, e, c := IntegerAt(n, o), IntegerEnd(n, o), FractionEnd(n, o);
    hide DigitsEnd;
    hide Run;
    hide SplitMain;
    hide Figures;
    RunIs(s, i, e, n.integer);
    SignFound(s, o, i, n.minus);
    NoLeadingZero(s, i, e, n.integer);
    NoRun(s);
    if n.fraction.Some? {
      RunIs(s, e + 1, c, n.fraction.value);
    }
    MainIs(s, o, i, e);
  }

  lemma {:induction false} PowerIs(s: string, m: Parts, x: nat)
    requires m.Parts? && m.end <= |s| && (At(s, m.end) == 'E' || At(s, m.end) == 'e') && x <= |s| && IsDigit(At(s, x))
    requires x == if At(s, m.end + 1) == '-' || At(s, m.end + 1) == '+' then m.end + 2 else m.end + 1
    ensures WithExponent(s, m) == m.(expNegative := At(s, m.end + 1) == '-', expDigits := x, end := DigitsEnd(s, x))
  {
    hide DigitsEnd;
  }

  lemma {:induction false} PowerSign(s: string, c: nat, x: nat, sign: string)
    requires x == c + 1 + |sign| && x < |s| && s[c + 1..x] == sign && IsDigit(s[x])
    requires sign == "" || sign == "+" || sign == "-"
    ensures x == if At(s, c + 1) == '-' || At(s, c + 1) == '+' then c + 2 else c + 1
    ensures At(s, c + 1) == '-' <==> sign == "-"
  {
    if sign != "" {
      FirstOf(s, c + 1, x, sign);
    }
  }

  lemma {:induction false} PowerFound(s: string, o: nat, n: Numeral, m: Parts)
    requires Laid(n, s, o) && Grammatical(n) && StopsAt(n, At(s, NumeralEnd(n, o)))
    requires m.Parts? && m.end == FractionEnd(n, o)
    ensures n.power.None? ==> WithExponent(s, m) == m
    ensures n.power.Some? ==>
              && Run(s, PowerAt(n, o)) == n.power.value.digits
              && WithExponent(s, m) == m.(expNegative := n.power.value.sign == "-", expDigits := PowerAt(n, o),
                                          end := NumeralEnd(n, o))
  {
    if n.power.Some? {
      var c, x, d := FractionEnd(n, o), PowerAt(n, o), NumeralEnd(n, o);
      hide DigitsEnd;
      hide Run;
      hide WithExponent;
      hide Figures;
      RunIs(s, x, d, n.power.value.digits);
      PowerSign(s, c, x, n.power.value.sign);
      PowerIs(s, m, x);
    }
  }

  lemma {:induction false} BehindMain(s: string, o: nat, n: Numeral)
    requires Laid(n, s, o) && Grammatical(n) && StopsAt(n, At(s, NumeralEnd(n, o)))
    ensures !IsDigit(At(s, FractionEnd(n, o))) && (n.fraction.None? ==> At(s, FractionEnd(n, o)) != '.')
  {
  }

  lemma {:induction false} Found(s: string, cursor: nat, n: Numeral)
    requires Stands(n, s, cursor)
    ensures Finds(Split(s, cursor), s, cursor, n)
  {
    hide SplitMain;
    hide WithExponent;
    hide Run;
    hide DigitsEnd;
    hide Laid;
    hide Grammatical;
    hide NumeralText;
    hide FractionEnd;
    hide PowerAt;
    hide NumeralEnd;
    LaidText(n, s, cursor);
    TextLength(n, cursor);
    StopsThere(n, s, NumeralEnd(n, cursor));
    BehindMain(s, cursor, n);
    MainFound(s, cursor, n);
    PowerFound(s, cursor, n, SplitMain(s, cursor));
    NoRun(s);
    PlacesInText(n, s, cursor);
  }

  lemma {:induction false} PlacesInText(n: Numeral, s: string, o: nat)
    requires Laid(n, s, o)
    ensures PowerAt(n, o) <= |s| && (n.power.None? ==> NumeralEnd(n, o) == FractionEnd(n, o))
  {
  }

  // ----- what is found stands in the text -----

  lemma {:induction false} AtIs(s: string, i: nat, c: char)
    requires At(s, i) == c && c != '\0'
    ensures i < |s| && s[i] == c
  {
  }

  lemma {:induction false} DigitAt(s: string, i: nat)
    requires i <= |s| && IsDigit(At(s, i))
    ensures i < DigitsEnd(s, i) <= |s| && Figures(Run(s, i)) && s[i..DigitsEnd(s, i)] == Run(s, i)
    ensures !IsDigit(At(s, DigitsEnd(s, i)))
  {
    RunStarts(s, i);
    FiguresAre(Run(s, i));
  }

  lemma {:induction false} IntegerText(integer: string)
    requires IntegerPart(integer)
    ensures Figures(integer) && (integer == "0" || integer[0] != '0')
  {
    FiguresAre(integer);
    if integer[0] == '0' {
      assert integer == [integer[0]];
    }
  }

  lemma {:induction false} MainDigits(s: string, cursor: nat) returns (i: nat)
    requires cursor <= |s| && SplitMain(s, cursor).Parts?
    ensures i == (if At(s, cursor) == '-' then cursor + 1 else cursor) <= |s| && IsDigit(At(s, i))
    ensures !(At(s, i) == '0' && IsDigit(At(s, i + 1)))
    ensures At(s, DigitsEnd(s, i)) == '.' ==> DigitsEnd(s, i) < |s| && IsDigit(At(s, DigitsEnd(s, i) + 1))
    ensures s[cursor..i] == SignText(At(s, cursor) == '-')
  {
    hide DigitsEnd;
    hide IntegerPart;
    hide Run;
    i := if At(s, cursor) == '-' then cursor + 1 else cursor;
  }

  /** The numeral, without its exponent, that the parts found spell */
  lemma {:induction false} MainSpells(s: string, o: nat) returns (n: Numeral)
    requires o <= |s| && SplitMain(s, o).Parts?
    ensures Grammatical(n) && n.power.None? && Laid(n, s, o) && SplitMain(s, o).end == FractionEnd(n, o)
    ensures !IsDigit(At(s, FractionEnd(n, o))) && (n.fraction.None? ==> At(s, FractionEnd(n, o)) != '.')
  {
    var i := MainDigits(s, o);
    var e := DigitsEnd(s, i);
    DigitAt(s, i);
    LeadingZero(s, i);
    IntegerText(Run(s, i));
    MainIs(s, o, i, e);
    hide SplitMain;
    hide DigitsEnd;
    hide Run;
    hide Figures;
    hide IntegerPart;
    var minus := At(s, o) == '-';
    var f := None;
    var end := e;
    if At(s, e) == '.' {
      DigitAt(s, e + 1);
      f, end := Some(Run(s, e + 1)), DigitsEnd(s, e + 1);
    }
    n := Numeral(minus, Run(s, i), f, None);
    MainLaid(s, o, i, e, end, n);
  }

  lemma {:induction false} MainLaid(s: string, o: nat, i: nat, e: nat, end: nat, n: Numeral)
    requires o <= i <= e <= end <= |s| && s[o..i] == SignText(n.minus) && s[i..e] == n.integer && n.power.None?
    requires if n.fraction.Some? then e < end && s[e] == '.' && s[e + 1..end] == n.fraction.value else end == e
    ensures Laid(n, s, o) && FractionEnd(n, o) == end
  {
    assert i == o + |SignText(n.minus)| && e == i + |n.integer|;
    assert n.fraction.Some? ==> end == e + 1 + |n.fraction.value|;
  }

  lemma {:induction false} PowerSpells(s: string, m: Parts) returns (e: Option<Power>, x: nat)
    requires m.Parts? && m.end <= |s| && WithExponent(s, m).Parts? && !IsDigit(At(s, m.end))
    ensures e.None? ==> WithExponent(s, m) == m && At(s, m.end) != 'e' && At(s, m.end) != 'E'
    ensures e.Some? ==>
              && GoodPower(e.value) && m.end < |s| && s[m.end] == e.value.letter
              && x == m.end + 1 + |e.value.sign| <= |s|
              && s[m.end + 1..x] == e.value.sign && WithExponent(s, m).end == x + |e.value.digits| <= |s|
              && s[x..x + |e.value.digits|] == e.value.digits && !IsDigit(At(s, x + |e.value.digits|))
  {
    x := m.end;
    if At(s, m.end) != 'E' && At(s, m.end) != 'e' {
      e := None;
    } else {
      x := if At(s, m.end + 1) == '-' || At(s, m.end + 1) == '+' then m.end + 2 else m.end + 1;
      assert IsDigit(At(s, x)) && x <= |s|;
      assert WithExponent(s, m).end == DigitsEnd(s, x);
      DigitAt(s, x);
      hide WithExponent;
      hide DigitsEnd;
      hide Run;
      hide Figures;
      assert s[m.end + 1..x] == "" || s[m.end + 1..x] == "+" || s[m.end + 1..x] == "-";
      e := Some(Power(s[m.end], s[m.end + 1..x], Run(s, x)));
    }
  }

  lemma {:induction false} PowerAdded(s: string, o: nat, main: Numeral, e: Option<Power>, x: nat)
    requires Laid(main, s, o) && main.power.None?
    requires e.Some? ==>
               var c := FractionEnd(main, o);
               && c < |s| && s[c] == e.value.letter && x == c + 1 + |e.value.sign| && x + |e.value.digits| <= |s|
               && s[c + 1..x] == e.value.sign && s[x..x + |e.value.digits|] == e.value.digits
    ensures var n := main.(power := e);
            && Laid(n, s, o) && FractionEnd(n, o) == FractionEnd(main, o)
            && NumeralEnd(n, o) == (if e.Some? then x + |e.value.digits| else FractionEnd(main, o))
  {
  }

  lemma {:induction false} Spells(s: string, cursor: nat) returns (n: Numeral)
    requires cursor <= |s| && Split(s, cursor).Parts?
    ensures Stands(n, s, cursor) && Split(s, cursor).end == cursor + |NumeralText(n)|
  {
    hide SplitMain;
    hide WithExponent;
    hide Laid;
    hide NumeralText;
    hide Figures;
    hide GoodPower;
    hide FractionEnd;
    hide PowerAt;
    hide NumeralEnd;
    var m := SplitMain(s, cursor);
    var main := MainSpells(s, cursor);
    var e, x := PowerSpells(s, m);
    PowerAdded(s, cursor, main, e, x);
    n := main.(power := e);
    LaidText(n, s, cursor);
    TextLength(n, cursor);
    hide Laid;
    StopsThere(n, s, NumeralEnd(n, cursor));
  }

  // ----- the parser -----

  /**
   The outcome of __parse_json_number: accepted exactly if a number of at most LENGTH_MAX characters stands there, with
   its sign, its value as far as doubles are chosen for it, and its end.
   */
  ghost predicate Parsed(text: string, cursor: nat, ok: bool, negative: bool, num: Number, end: nat) {
    && (ok <==> exists n :: Stands(n, text, cursor) && |NumeralText(n)| <= LENGTH_MAX)
    && (ok ==> forall n :: Stands(n, text, cursor) ==>
          negative == n.minus && end == cursor + |NumeralText(n)| && Faithful(num, Magnitude(n), FigureCount(n)))
  }

  lemma {:induction false} FiguresCounted(i: string, f: string)
    requires IntegerPart(i)
    ensures |Significant(i, f)| == |i + f| - Zeros(i + f)
  {
    if i[0] == '0' {
      assert (i + f)[1..] == f;
    }
  }

  lemma {:induction false} PowerMeans(text: string, cursor: nat, p: Parts, n: Numeral)
    requires Finds(p, text, cursor, n)
    ensures Exponent(text, p) == PowerValue(n)
  {
    assert Nat([]) == 0;
    hide Run;
    hide DigitsEnd;
    hide NumeralText;
  }

  lemma {:induction false} PartsMean(text: string, cursor: nat, p: Parts, n: Numeral)
    requires Finds(p, text, cursor, n) && Grammatical(n)
    ensures Written(text, p) == Magnitude(n)
    ensures |Significant(Run(text, p.integer), Run(text, p.fraction))| == FigureCount(n)
  {
    hide Run;
    hide DigitsEnd;
    hide Nat;
    hide Value;
    hide Significant;
    hide Zeros;
    hide Grammatical;
    hide NumeralText;
    hide Exponent;
    hide PowerValue;
    IntegerFigures(n);
    hide IntegerPart;
    PowerMeans(text, cursor, p, n);
    FiguresCounted(n.integer, FractionDigits(n));
  }

  lemma {:induction false} IntegerFigures(n: Numeral)
    requires Grammatical(n)
    ensures IntegerPart(n.integer)
  {
    FiguresAre(n.integer);
  }

  lemma {:induction false} Outcome(text: string, cursor: nat, p: Parts, ok: bool, negative: bool, num: Number, end: nat)
    requires cursor <= |text| && p == Split(text, cursor) && (ok <==> p.Parts? && p.end - cursor <= LENGTH_MAX)
    requires ok ==> negative == p.negative && end == p.end
    requires ok ==> Faithful(num, Written(text, p), |Significant(Run(text, p.integer), Run(text, p.fraction))|)
    ensures Parsed(text, cursor, ok, negative, num, end)
  {
    hide Faithful;
    hide Magnitude;
    hide FigureCount;
    hide Written;
    hide Significant;
    hide Split;
    if p.Parts? {
      var n := Spells(text, cursor);
      Found(text, cursor, n);
    }
    forall n | Stands(n, text, cursor)
      ensures Finds(p, text, cursor, n)
      ensures ok ==> Faithful(num, Magnitude(n), FigureCount(n))
    {
      Found(text, cursor, n);
      PartsMean(text, cursor, p, n);
    }
  }

  /** __parse_json_number */
  method ParseNumber(text: string, cursor: nat) returns (ok: bool, negative: bool, num: Number, end: nat)
    requires cursor <= |text|
    ensures Parsed(text, cursor, ok, negative, num, end)
  {
    hide Faithful;
    hide Parsed;
    ok, negative, num, end := false, false, Tiny, cursor;
    var p := ParseMain(text, cursor);
    if p.Parts? {
      var exp;
      p, exp := ParseExponent(text, p);
      if p.Parts? && p.end - cursor <= LENGTH_MAX {
        num := EvaluateParts(text, p, exp);
        ok, negative, end := true, p.negative, p.end;
      }
    }
    Outcome(text, cursor, p, ok, negative, num, end);
  }
}
