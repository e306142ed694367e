/**
 How src/util/json_parser.c reads a number: __parse_json_number splits the text,
 __evaluate_json_number turns at most eighteen digits into an integer mantissa and a decimal
 exponent and decides how to scale it.

 The last step, one or two operations on doubles, is not modelled: the result says which power
 of ten the mantissa is multiplied or divided by.  Values are real numbers.
 */
module JsonNumber {
  import opened Basics
  import opened JsonDecimal

  const FIGURES: nat := 18
  const TABLE_SIZE: nat := 309

  /** Reading a C string: a null character follows the text. */
  function At(s: string, i: nat): char {
    if i < |s| then s[i] else '\0'
  }

  /** The end of the digits that start at i. */
  function DigitsEnd(s: string, i: nat): (r: nat)
    requires i <= |s|
    ensures i <= r <= |s| && Digits(s[i..r]) && !IsDigit(At(s, r))
    decreases |s| - i
  {
    if IsDigit(At(s, i)) then
      var r := DigitsEnd(s, i + 1);
      assert s[i..r] == [s[i]] + s[i + 1..r];
      r
    else i
  }

  function Run(s: string, i: nat): string
    requires i <= |s|
  {
    s[i..DigitsEnd(s, i)]
  }

  /** Leading zeros. */
  function Zeros(s: string): (z: nat)
    ensures z <= |s| && (forall i :: 0 <= i < z ==> s[i] == '0') && (z < |s| ==> s[z] != '0')
  {
    if s != [] && s[0] == '0' then 1 + Zeros(s[1..]) else 0
  }

  /** The significant digits of an integer and a fraction part. */
  function Significant(i: string, f: string): string {
    if i != [] && i[0] != '0' then i + f else f[Zeros(f)..]
  }

  /** How the double is made from the mantissa. */
  datatype Number = Plain(mant: nat) | Infinite | Times(mant: nat, power: int) | Over(mant: nat, power: int)
                  | OverTwice(mant: nat, power: int, again: int) | Tiny

  datatype Scaled = Scaled(mant: nat, exp: int, figures: nat)

  /** The tail of __evaluate_json_number */
  function Choose(s: Scaled): Number {
    if s.exp == 0 || s.figures == 0 then Plain(s.mant)
    else if s.exp > 291 then Infinite
    else if s.exp > 0 then Times(s.mant, s.exp)
    else if s.exp > -309 then Over(s.mant, -s.exp)
    else if s.exp > -324 - s.figures then OverTwice(s.mant, -s.exp - 308, 308)
    else Tiny
  }

  predicate Sized(s: Scaled) {
    s.figures <= FIGURES && (if s.figures == 0 then s.mant == 0 else PowN(s.figures - 1) <= s.mant < PowN(s.figures))
  }

  /** mant * 10^exp is v truncated to whole multiples of 10^exp. */
  predicate Truncates(s: Scaled, v: real) {
    Value(s.mant, s.exp) <= v < Value(s.mant + 1, s.exp)
  }

  /** After scaling up, the mantissa has all its figures or the exponent is not positive. */
  predicate FullyScaled(s: Scaled) {
    Sized(s) && (s.exp > 0 && s.figures > 0 ==> s.figures == FIGURES)
  }

  predicate InTable(n: Number) {
    match n
    case Times(_, p) => 0 <= p < TABLE_SIZE
    case Over(_, p) => 0 <= p < TABLE_SIZE
    case OverTwice(_, p, q) => 0 <= p < TABLE_SIZE && 0 <= q < TABLE_SIZE
    case _ => true
  }

  lemma {:induction false} Large(s: Scaled, v: real)
    requires Sized(s) && s.figures == FIGURES && s.exp > 291 && Truncates(s, v)
    ensures v >= Pow10(309)
  {
    var n: nat := FIGURES - 1;
    ValuePow(n, s.exp);
    ValueMono(PowN(n), s.mant, s.exp);
    PowMono(309, s.exp + n);
  }

  lemma {:induction false} Small(s: Scaled, v: real)
    requires Sized(s) && s.figures > 0 && s.exp <= -324 - s.figures && Truncates(s, v)
    ensures v < Pow10(-324)
  {
    ValuePow(s.figures, s.exp);
    ValueMono(s.mant + 1, PowN(s.figures), s.exp);
    PowMono(s.exp + s.figures, -324);
  }

  lemma {:induction false} NotLarge(s: Scaled, v: real)
    requires Sized(s) && s.figures > 0 && s.exp <= 291 && Truncates(s, v)
    ensures v < Pow10(309)
  {
    ValuePow(s.figures, s.exp);
    ValueMono(s.mant + 1, PowN(s.figures), s.exp);
    PowMono(s.exp + s.figures, 309);
  }

  lemma {:induction false} NotSmall(s: Scaled, v: real)
    requires Sized(s) && s.figures > 0 && s.exp > -324 - s.figures && Truncates(s, v)
    ensures v >= Pow10(-324)
  {
    ValuePow(s.figures - 1, s.exp);
    ValueMono(PowN(s.figures - 1), s.mant, s.exp);
    PowMono(-324, s.exp + s.figures - 1);
  }

  lemma {:induction false} Positive(m: nat, exp: int)
    requires m > 0
    ensures Value(m, exp) > 0.0
  {
    ValueMono(1, m, exp);
  }

  /**
   Infinity is chosen exactly from 10^309 on, zero exactly below 10^-324 for a value that is not zero, and the power
   table is never left.
   */
  lemma {:induction false} ChooseRight(s: Scaled, v: real)
    requires FullyScaled(s) && Truncates(s, v) && (s.figures == 0 ==> v == 0.0)
    ensures InTable(Choose(s))
    ensures Choose(s).Infinite? <==> v >= Pow10(309)
    ensures Choose(s).Tiny? <==> 0.0 < v < Pow10(-324)
  {
    hide Value;
    PowMono(-324, 309);
    if s.figures > 0 {
      Positive(s.mant, s.exp);
      if s.exp > 291 {
        Large(s, v);
      } else {
        NotLarge(s, v);
      }
      if s.exp <= -324 - s.figures {
        Small(s, v);
      } else {
        NotSmall(s, v);
      }
    }
  }

  // ----- reading the digits -----

  /**
   The state after k digits of the run were appended to those seen before; digits of a fraction lower the exponent.
   */
  ghost predicate Taken(run: string, k: nat, s: Scaled, fraction: bool, seen: string, r: Scaled) {
    k <= |run| && r == Scaled(Nat(seen + run[..k]), if fraction then s.exp - k else s.exp, |seen| + k)
  }

  lemma {:induction false} TakeNone(run: string, s: Scaled, fraction: bool, seen: string)
    requires s.mant == Nat(seen) && s.figures == |seen|
    ensures Taken(run, 0, s, fraction, seen, s)
  {
    assert seen + run[..0] == seen;
  }

  lemma {:induction false} TakeStep(run: string, k: nat, s: Scaled, fraction: bool, seen: string, r: Scaled)
    requires Taken(run, k, s, fraction, seen, r) && k < |run|
    ensures Taken(run, k + 1, s, fraction, seen,
                  Scaled(10 * r.mant + Digit(run[k]), if fraction then r.exp - 1 else r.exp, r.figures + 1))
  {
    assert seen + run[..k + 1] == (seen + run[..k]) + [run[k]];
    NatMore(seen + run[..k], run[k]);
  }

  /** Digits from start on are appended to the mantissa, up to eighteen figures in all. */
  method TakeDigits(text: string, start: nat, s: Scaled, fraction: bool, ghost seen: string)
    returns (r: Scaled, next: nat)
    requires start <= |text| && s.mant == Nat(seen) && s.figures == |seen| <= FIGURES
    ensures next == start + Min(|Run(text, start)|, FIGURES - |seen|)
    ensures Taken(Run(text, start), next - start, s, fraction, seen, r)
  {
    r, next := s, start;
    ghost var run, k := Run(text, start), 0;
    TakeNone(run, s, fraction, seen);
    while IsDigit(At(text, next)) && r.figures < FIGURES
      invariant next == start + k && k <= |run| && r.figures == |seen| + k <= FIGURES
      invariant Taken(run, k, s, fraction, seen, r)
      decreases |text| - next
    {
      InRun(text, start, k);
      TakeStep(run, k, s, fraction, seen, r);
      r := Scaled(10 * r.mant + Digit(text[next]), if fraction then r.exp - 1 else r.exp, r.figures + 1);
      next, k := next + 1, k + 1;
    }
    AtRunEnd(text, start, next);
  }

  lemma {:induction false} InRun(text: string, start: nat, k: nat)
    requires start <= |text| && k <= |Run(text, start)| && IsDigit(At(text, start + k))
    ensures k < |Run(text, start)| && start + k < |text| && Run(text, start)[k] == text[start + k]
  {
    StillInRun(text, start, start + k);
  }

  lemma {:induction false} StillInRun(text: string, start: nat, next: nat)
    requires start <= next <= |text| && next <= DigitsEnd(text, start) && IsDigit(At(text, next))
    ensures next < DigitsEnd(text, start)
  {
  }

  lemma {:induction false} AtRunEnd(text: string, start: nat, next: nat)
    requires start <= next <= |text| && next <= DigitsEnd(text, start)
    ensures !IsDigit(At(text, next)) ==> next == DigitsEnd(text, start)
  {
    var e := DigitsEnd(text, start);
    assert next < e ==> text[start..e][next - start] == text[next];
  }

  /** The digits of the integer part that do not fit count as powers of ten. */
  method SkipDigits(text: string, start: nat, exp: int, ghost from: nat) returns (e: int)
    requires from <= |text| && from <= start <= DigitsEnd(text, from)
    ensures e == exp + DigitsEnd(text, from) - start
  {
    e := exp;
    var next := start;
    while IsDigit(At(text, next))
      invariant start <= next <= DigitsEnd(text, from) && e == exp + next - start
      decreases |text| - next
    {
      StillInRun(text, from, next);
      e, next := e + 1, next + 1;
    }
    AtRunEnd(text, from, next);
  }

  method SkipZeros(text: string, start: nat, exp: int) returns (e: int, next: nat)
    requires start <= |text|
    ensures next == start + Zeros(Run(text, start)) && e == exp - (next - start)
  {
    e, next := exp, start;
    ghost var f := Run(text, start);
    while At(text, next) == '0'
      invariant start <= next <= start + Zeros(f) && e == exp - (next - start)
      decreases |text| - next
    {
      ZerosMore(text, start, next);
      e, next := e - 1, next + 1;
    }
    ZerosDone(text, start, next);
  }

  lemma {:induction false} ZerosMore(text: string, start: nat, next: nat)
    requires start <= next <= |text| && next <= start + Zeros(Run(text, start)) && At(text, next) == '0'
    ensures next < start + Zeros(Run(text, start))
  {
    AtRunEnd(text, start, next);
  }

  lemma {:induction false} ZerosDone(text: string, start: nat, next: nat)
    requires start <= |text| && start <= next <= start + Zeros(Run(text, start)) && At(text, next) != '0'
    ensures next == start + Zeros(Run(text, start))
  {
    if next < start + Zeros(Run(text, start)) {
      ZeroAt(text, start, next - start);
    }
  }

  lemma {:induction false} ZeroAt(text: string, start: nat, i: nat)
    requires start <= |text| && i < Zeros(Run(text, start))
    ensures At(text, start + i) == '0'
  {
    assert Run(text, start)[i] == text[start + i];
  }

  // ----- the mantissa -----

  /** Eighteen figures, or all of them; what is dropped counts in the exponent. */
  ghost predicate Read(i: string, f: string, exp: int, s: Scaled) {
    var d := Significant(i, f);
    var k := Min(|d|, FIGURES);
    s == Scaled(Nat(d[..k]), exp - |f| + |d| - k, k)
  }

  lemma {:induction false} ReadPlain(i: string, f: string, exp: int, k1: nat, k2: nat, s: Scaled)
    requires i != [] && i[0] != '0' && k1 == Min(|i|, FIGURES) && k2 == Min(|f|, FIGURES - k1)
    requires s == Scaled(Nat(i[..k1] + f[..k2]), exp + |i| - k1 - k2, k1 + k2)
    ensures Read(i, f, exp, s)
  {
    var d := Significant(i, f);
    assert d[..k1 + k2] == i[..k1] + f[..k2];
  }

  lemma {:induction false} ReadZero(i: string, f: string, exp: int, z: nat, k: nat, s: Scaled)
    requires i != [] && i[0] == '0' && z == Zeros(f) && k == Min(|f| - z, FIGURES)
    requires s == Scaled(Nat(f[z..][..k]), exp - z - k, k)
    ensures Read(i, f, exp, s)
  {
  }

  /** The integer part: up to eighteen digits in the mantissa, the others in the exponent. */
  method ReadWhole(text: string, integer: nat, exp: int) returns (s: Scaled)
    requires integer <= |text|
    ensures var i := Run(text, integer);
            var k := Min(|i|, FIGURES);
            s == Scaled(Nat(i[..k]), exp + |i| - k, k)
  {
    var next: nat;
    s, next := TakeDigits(text, integer, Scaled(0, exp, 0), false, "");
    ghost var i, k := Run(text, integer), next - integer;
    assert "" + i[..k] == i[..k];
    var e := SkipDigits(text, next, s.exp, integer);
    s := Scaled(s.mant, e, s.figures);
  }

  /** An integer part that does not start with zero. */
  method ReadInteger(text: string, integer: nat, fraction: nat, exp: int) returns (s: Scaled)
    requires integer <= |text| && fraction <= |text| && IsDigit(At(text, integer)) && At(text, integer) != '0'
    ensures Read(Run(text, integer), Run(text, fraction), exp, s)
  {
    ghost var i, f := Run(text, integer), Run(text, fraction);
    RunStarts(text, integer);
    hide DigitsEnd;
    hide Run;
    hide Nat;
    hide Read;
    s := ReadWhole(text, integer, exp);
    ghost var k1 := Min(|i|, FIGURES);
    var next: nat;
    s, next := TakeDigits(text, fraction, s, true, i[..k1]);
    ReadPlain(i, f, exp, k1, next - fraction, s);
  }

  /** The integer part zero: leading zeros of the fraction only lower the exponent. */
  method ReadFraction(text: string, integer: nat, fraction: nat, exp: int) returns (s: Scaled)
    requires integer <= |text| && fraction <= |text| && At(text, integer) == '0'
    ensures Read(Run(text, integer), Run(text, fraction), exp, s)
  {
    hide DigitsEnd;
    ghost var i, f := Run(text, integer), Run(text, fraction);
    RunStarts(text, integer);
    hide Significant;
    hide Nat;
    hide Run;
    hide Read;
    var e, next := SkipZeros(text, fraction, exp);
    ghost var z := next - fraction;
    RunAfter(text, fraction, z);
    s, next := TakeDigits(text, next, Scaled(0, e, 0), true, "");
    ghost var k := next - fraction - z;
    assert "" + f[z..][..k] == f[z..][..k];
    ReadZero(i, f, exp, z, k, s);
  }

  /** The digit loops of __evaluate_json_number; `integer` is behind the sign */
  method ReadMantissa(text: string, integer: nat, fraction: nat, exp: int) returns (s: Scaled)
    requires integer <= |text| && fraction <= |text| && IsDigit(At(text, integer))
    ensures Read(Run(text, integer), Run(text, fraction), exp, s)
  {
    if At(text, integer) != '0' {
      s := ReadInteger(text, integer, fraction, exp);
    } else {
      s := ReadFraction(text, integer, fraction, exp);
    }
  }

  lemma {:induction false} RunStarts(text: string, i: nat)
    requires i <= |text| && IsDigit(At(text, i))
    ensures Run(text, i) != [] && Run(text, i)[0] == At(text, i)
  {
  }

  lemma {:induction false} RunAfter(text: string, i: nat, z: nat)
    requires i <= |text| && z <= |Run(text, i)|
    ensures i + z <= |text| && Run(text, i + z) == Run(text, i)[z..]
    decreases z
  {
    if z > 0 {
      AtRunEnd(text, i, i);
      RunAfter(text, i + 1, z - 1);
    }
  }

  // ----- what the mantissa means -----

  /** The digits of a number's integer part: no leading zero before another digit. */
  predicate IntegerPart(i: string) {
    i != [] && Digits(i) && (i[0] == '0' ==> |i| == 1)
  }

  lemma {:induction false} SignificantMeans(i: string, f: string)
    requires IntegerPart(i) && Digits(f)
    ensures var d := Significant(i, f); Nat(d) == Nat(i + f) && Digits(d) && (d != [] ==> d[0] != '0')
  {
    if i[0] == '0' {
      var z := Zeros(f);
      assert forall k :: 0 <= k < z + 1 ==> (i + f)[k] == '0';
      NatZeros(i + f, z + 1);
      assert (i + f)[z + 1..] == f[z..];
    }
  }

  lemma {:induction false} PrefixSized(d: string, k: nat)
    requires Digits(d) && (d != [] ==> d[0] != '0') && k == Min(|d|, FIGURES)
    ensures Sized(Scaled(Nat(d[..k]), 0, k))
  {
    NatBound(d[..k]);
    if k > 0 {
      NatLead(d[..k]);
    }
  }

  lemma {:induction false} PrefixTruncates(d: string, k: nat, e: int, m: nat)
    requires k <= |d| && m == Nat(d[..k])
    ensures Value(m, e + |d| - k) <= Value(Nat(d), e) < Value(m + 1, e + |d| - k)
    ensures k == |d| ==> Value(Nat(d), e) == Value(m, e)
  {
    var r := |d| - k;
    NatPrefix(d, k);
    ValueShift(m, PowN(r), e, r);
    ValueShift(m + 1, PowN(r), e, r);
    ValueMono(m * PowN(r), Nat(d), e);
    ValueMono(Nat(d), (m + 1) * PowN(r), e);
    assert d[..|d|] == d;
  }

  /** The mantissa and exponent read are the value of the text truncated to eighteen figures. */
  lemma {:induction false} ReadMeans(i: string, f: string, exp: int, s: Scaled)
    requires IntegerPart(i) && Digits(f) && Read(i, f, exp, s)
    ensures Sized(s) && Truncates(s, Value(Nat(i + f), exp - |f|))
    ensures |Significant(i, f)| <= FIGURES ==> Value(s.mant, s.exp) == Value(Nat(i + f), exp - |f|)
  {
    hide Nat;
    hide Value;
    hide Significant;
    hide PowN;
    var d := Significant(i, f);
    var k := Min(|d|, FIGURES);
    SignificantMeans(i, f);
    PrefixSized(d, k);
    PrefixTruncates(d, k, exp - |f|, s.mant);
  }

  // ----- scaling -----

  lemma {:induction false} UpKeeps(s: Scaled, v: real)
    requires Sized(s) && 0 < s.figures < FIGURES && Value(s.mant, s.exp) == v
    ensures var r := Scaled(10 * s.mant, s.exp - 1, s.figures + 1); Sized(r) && Value(r.mant, r.exp) == v
  {
    ValueTenfold(s.mant, s.exp);
  }

  lemma {:induction false} DownSized(s: Scaled)
    requires Sized(s) && s.figures > 0 && s.mant % 10 == 0
    ensures s.figures > 1 && Sized(Scaled(s.mant / 10, s.exp + 1, s.figures - 1))
  {
    assert PowN(1) == 10 * PowN(0);
  }

  lemma {:induction false} DownValue(m: nat, exp: int, v: real)
    requires Value(10 * m, exp) <= v < Value(10 * m + 1, exp)
    ensures Value(m, exp + 1) == Value(10 * m, exp) && Value(m, exp + 1) <= v < Value(m + 1, exp + 1)
  {
    ValueTenfold(m, exp + 1);
    ValueTenfold(m + 1, exp + 1);
    ValueMono(10 * m + 1, 10 * (m + 1), exp);
  }

  lemma {:induction false} DownKeeps(s: Scaled, v: real)
    requires Sized(s) && s.figures > 0 && s.mant % 10 == 0 && Truncates(s, v)
    ensures s.figures > 1
    ensures var r := Scaled(s.mant / 10, s.exp + 1, s.figures - 1);
            Sized(r) && Truncates(r, v) && Value(r.mant, r.exp) == Value(s.mant, s.exp)
  {
    hide PowN;
    hide Value;
    DownSized(s);
    hide Sized;
    DownValue(s.mant / 10, s.exp, v);
  }

  lemma {:induction false} ExactTruncates(s: Scaled, v: real)
    requires Value(s.mant, s.exp) == v
    ensures Truncates(s, v)
  {
    ValueMono(s.mant, s.mant + 1, s.exp);
  }

  /** The exponent moves by as many places as the mantissa. */
  ghost predicate Shifted(s: Scaled, r: Scaled) {
    r.exp + r.figures == s.exp + s.figures
  }

  /** while (exp > 0 && figures < 18) */
  method ScaleUp(s: Scaled, ghost v: real) returns (r: Scaled)
    requires Sized(s) && s.figures > 0 && Truncates(s, v) && (s.figures < FIGURES ==> Value(s.mant, s.exp) == v)
    ensures FullyScaled(r) && r.figures > 0 && Truncates(r, v) && Shifted(s, r)
    ensures Value(r.mant, r.exp) == Value(s.mant, s.exp)
    ensures if s.exp > 0 then r.exp >= 0 else r == s
  {
    r := s;
    while r.exp > 0 && r.figures < FIGURES
      invariant Sized(r) && r.figures > 0 && Truncates(r, v) && Shifted(s, r)
      invariant Value(r.mant, r.exp) == Value(s.mant, s.exp)
      invariant r.figures < FIGURES ==> Value(r.mant, r.exp) == v
      invariant if s.exp > 0 then r.exp >= 0 else r == s
      decreases FIGURES - r.figures
    {
      UpKeeps(r, v);
      r := Scaled(10 * r.mant, r.exp - 1, r.figures + 1);
      ExactTruncates(r, v);
    }
  }

  /** while (exp < 0 && mant % 10 == 0) */
  method ScaleDown(s: Scaled, ghost v: real) returns (r: Scaled)
    requires FullyScaled(s) && s.figures > 0 && Truncates(s, v)
    ensures FullyScaled(r) && r.figures > 0 && Truncates(r, v) && Shifted(s, r)
    ensures Value(r.mant, r.exp) == Value(s.mant, s.exp)
    ensures if s.exp < 0 then r.exp <= 0 else r == s
  {
    r := s;
    while r.exp < 0 && r.mant % 10 == 0
      invariant FullyScaled(r) && r.figures > 0 && Truncates(r, v) && Shifted(s, r)
      invariant Value(r.mant, r.exp) == Value(s.mant, s.exp)
      invariant if s.exp < 0 then r.exp <= 0 else r == s
      decreases r.figures
    {
      DownKeeps(r, v);
      r := Scaled(r.mant / 10, r.exp + 1, r.figures - 1);
    }
  }

  method Scale(s: Scaled, ghost v: real) returns (r: Scaled)
    requires Sized(s) && Truncates(s, v) && (s.figures < FIGURES ==> Value(s.mant, s.exp) == v)
    ensures FullyScaled(r) && Truncates(r, v) && Value(r.mant, r.exp) == Value(s.mant, s.exp)
    ensures (r.figures == 0 <==> s.figures == 0) && (s.figures > 0 ==> Shifted(s, r))
    ensures (s.exp > 0 ==> r.exp >= 0) && (s.exp < 0 ==> r.exp <= 0)
  {
    r := s;
    if s.exp != 0 && s.figures != 0 {
      r := ScaleUp(r, v);
      r := ScaleDown(r, v);
    }
  }

  // ----- the text -----

  const EXP_CAP: int := 2000000
  const LENGTH_MAX: nat := 1000000

  /** Where the parts of a number start and where it ends. */
  datatype Parts = Bad | Parts(negative: bool, integer: nat, fraction: nat, expNegative: bool, expDigits: nat, end: nat)

  /** The integer part and the fraction; an absent part stands at the end of the text. */
  function SplitMain(s: string, cursor: nat): (p: Parts)
    requires cursor <= |s|
    ensures p.Parts? ==> cursor <= p.integer <= |s| && p.fraction <= |s| && p.integer <= p.end <= |s|
                         && IntegerPart(Run(s, p.integer)) && (p.fraction < |s| ==> p.end == DigitsEnd(s, p.fraction))
                         && |Run(s, p.integer)| + |Run(s, p.fraction)| <= p.end - cursor
  {
    var negative := At(s, cursor) == '-';
    var i := if negative then cursor + 1 else cursor;
    if !IsDigit(At(s, i)) || (At(s, i) == '0' && IsDigit(At(s, i + 1))) then Bad
    else
      var e := DigitsEnd(s, i);
      assert IntegerPart(Run(s, i)) by { LeadingZero(s, i); }
      if At(s, e) != '.' then Parts(negative, i, |s|, false, |s|, e)
      else if !IsDigit(At(s, e + 1)) then Bad
      else Parts(negative, i, e + 1, false, |s|, DigitsEnd(s, e + 1))
  }

  /** The exponent part, behind the parts m */
  function WithExponent(s: string, m: Parts): (p: Parts)
    requires m.Parts? && m.end <= |s|
    ensures p.Parts? ==> p.integer == m.integer && p.fraction == m.fraction && m.end <= p.end <= |s|
                         && (p.expDigits == m.expDigits || p.expDigits <= |s|)
  {
    if At(s, m.end) != 'E' && At(s, m.end) != 'e' then m
    else
      var negative := At(s, m.end + 1) == '-';
      var x := if negative || At(s, m.end + 1) == '+' then m.end + 2 else m.end + 1;
      if !IsDigit(At(s, x)) then Bad else m.(expNegative := negative, expDigits := x, end := DigitsEnd(s, x))
  }

  /** The whole number, without the limit on its length. */
  function Split(s: string, cursor: nat): (p: Parts)
    requires cursor <= |s|
    ensures p.Parts? ==> cursor <= p.integer <= |s| && p.fraction <= |s| && p.expDigits <= |s|
                         && p.integer <= p.end <= |s|
                         && IntegerPart(Run(s, p.integer))
                         && |Run(s, p.integer)| + |Run(s, p.fraction)| <= p.end - cursor
  {
    var m := SplitMain(s, cursor);
    if m.Bad? then m else WithExponent(s, m)
  }

  lemma {:induction false} LeadingZero(s: string, i: nat)
    requires i <= |s| && IsDigit(At(s, i)) && !(At(s, i) == '0' && IsDigit(At(s, i + 1)))
    ensures IntegerPart(Run(s, i))
  {
    RunStarts(s, i);
    if At(s, i) == '0' {
      assert DigitsEnd(s, i + 1) == i + 1;
    }
  }

  /** The exponent as written. */
  function Exponent(s: string, p: Parts): int
    requires p.Parts? && p.expDigits <= |s|
  {
    var x: int := Nat(Run(s, p.expDigits));
    if p.expNegative then -x else x
  }

  /** The absolute value as written. */
  function Written(s: string, p: Parts): real
    requires p.Parts? && p.integer <= |s| && p.fraction <= |s| && p.expDigits <= |s|
  {
    var i, f := Run(s, p.integer), Run(s, p.fraction);
    Value(Nat(i + f), Exponent(s, p) - |f|)
  }

  method EndOf(s: string, start: nat) returns (next: nat)
    requires start <= |s|
    ensures next == DigitsEnd(s, start)
  {
    next := start;
    while IsDigit(At(s, next))
      invariant start <= next <= DigitsEnd(s, start)
      decreases |s| - next
    {
      StillInRun(s, start, next);
      next := next + 1;
    }
    AtRunEnd(s, start, next);
  }

  lemma {:induction false} NatFirst(x: string)
    requires x != []
    ensures Nat(x[..1]) == Digit(x[0])
  {
    assert x[..1] == "" + [x[0]];
    NatMore("", x[0]);
  }

  lemma {:induction false} NatNext(x: string, k: nat)
    requires k < |x|
    ensures Nat(x[..k + 1]) == 10 * Nat(x[..k]) + Digit(x[k])
  {
    assert x[..k + 1] == x[..k] + [x[k]];
    NatMore(x[..k], x[k]);
  }

  lemma {:induction false} NatUpTo(x: string, k: nat)
    requires k <= |x|
    ensures Nat(x[..k]) <= Nat(x) && (k == |x| ==> Nat(x[..k]) == Nat(x))
  {
    NatPrefix(x, k);
    Grows(Nat(x[..k]), PowN(|x| - k));
    assert x[..|x|] == x;
  }

  /** The exponent digits are read until the value reaches the cap; k of them are read. */
  method CappedExponent(s: string, start: nat) returns (exp: nat, next: nat)
    requires start <= |s| && IsDigit(At(s, start))
    ensures start <= next <= DigitsEnd(s, start) && exp < 10 * EXP_CAP
    ensures (exp >= EXP_CAP || next == DigitsEnd(s, start))
    ensures exp == Nat(Run(s, start)[..next - start])
  {
    ghost var x, k := Run(s, start), 1;
    InRun(s, start, 0);
    NatFirst(x);
    exp, next := Digit(s[start]), start + 1;
    while IsDigit(At(s, next)) && exp < EXP_CAP
      invariant next == start + k && 1 <= k <= |x| && exp == Nat(x[..k]) && exp < 10 * EXP_CAP
      decreases |s| - next
    {
      InRun(s, start, k);
      NatNext(x, k);
      exp := 10 * exp + Digit(s[next]);
      next, k := next + 1, k + 1;
    }
    AtRunEnd(s, start, next);
  }

  /** ... and the rest is skipped. */
  method ReadExponent(s: string, start: nat) returns (exp: nat, next: nat)
    requires start <= |s| && IsDigit(At(s, start))
    ensures next == DigitsEnd(s, start)
    ensures exp <= Nat(Run(s, start)) && (exp == Nat(Run(s, start)) || exp >= EXP_CAP) && exp < 10 * EXP_CAP
  {
    exp, next := CappedExponent(s, start);
    NatUpTo(Run(s, start), next - start);
    while IsDigit(At(s, next))
      invariant start <= next <= DigitsEnd(s, start)
      decreases |s| - next
    {
      StillInRun(s, start, next);
      next := next + 1;
    }
    AtRunEnd(s, start, next);
  }

  lemma {:induction false} Grows(a: nat, p: nat)
    requires p >= 1
    ensures a <= a * p
  {
  }

  /** The real number that the double is made from */
  function Meant(n: Number): real
    requires !n.Infinite? && !n.Tiny?
  {
    match n
    case Plain(m) => Value(m, 0)
    case Times(m, p) => Value(m, p)
    case Over(m, p) => Value(m, -p)
    case OverTwice(m, p, q) => Value(m, -p - q)
  }

  /** m is v cut off behind k + 1 significant figures, or v itself. */
  ghost predicate CutTo(k: nat, m: real, v: real) {
    m <= v && (v - m) * Pow10(k) <= m
  }

  /** What is promised of the number chosen for the value v with this many significant digits. */
  ghost predicate Faithful(n: Number, v: real, significant: nat) {
    && InTable(n)
    && (n.Infinite? <==> v >= Pow10(309))
    && (n.Tiny? <==> 0.0 < v < Pow10(-324))
    && (!n.Infinite? && !n.Tiny? ==> CutTo(FIGURES - 1, Meant(n), v) && (significant <= FIGURES ==> Meant(n) == v))
  }

  lemma {:induction false} LessThanOne(rest: real, one: real, p: real)
    requires rest <= one && p > 0.0
    ensures rest * p <= one * p
  {
  }

  lemma {:induction false} Cut(k: nat, m: real, v: real, one: real)
    requires m <= v < m + one && one * Pow10(k) <= m
    ensures CutTo(k, m, v)
  {
    LessThanOne(v - m, one, Pow10(k));
  }

  lemma {:induction false} OneMore(mant: nat, exp: int)
    ensures Value(mant + 1, exp) == Value(mant, exp) + Pow10(exp)
  {
    var m, p := mant as real, Pow10(exp);
    assert (m + 1.0) * p == m * p + p;
  }

  lemma {:induction false} Leading(k: nat, mant: nat, exp: int)
    requires mant >= PowN(k)
    ensures Pow10(exp) * Pow10(k) <= Value(mant, exp)
  {
    ValuePow(k, exp);
    PowAdd(exp, k);
    ValueMono(PowN(k), mant, exp);
  }

  /** k + 1 figures read leave less than one part in 10^k. */
  lemma {:induction false} CutShort(k: nat, mant: nat, exp: int, m: real, v: real)
    requires m == Value(mant, exp) && m <= v < Value(mant + 1, exp) && mant >= PowN(k)
    ensures CutTo(k, m, v)
  {
    Leading(k, mant, exp);
    OneMore(mant, exp);
    Cut(k, m, v, Pow10(exp));
  }

  lemma {:induction false} NotCut(k: nat, mant: nat, exp: int, m: real)
    requires m == Value(mant, exp)
    ensures CutTo(k, m, m)
  {
    var p := Pow10(exp);
    assert mant as real * p >= 0.0;
  }

  lemma {:induction false} ReadCuts(i: string, f: string, exp: int, r: Scaled, k: nat, m: real, v: real)
    requires IntegerPart(i) && Digits(f) && Read(i, f, exp, r) && k == FIGURES - 1
    requires m == Value(r.mant, r.exp) && v == Value(Nat(i + f), exp - |f|)
    ensures CutTo(k, m, v)
  {
    ReadMeans(i, f, exp, r);
    if |Significant(i, f)| > FIGURES {
      CutShort(k, r.mant, r.exp, m, v);
    } else {
      NotCut(k, r.mant, r.exp, m);
    }
  }

  lemma {:induction false} MeantBy(t: Scaled)
    requires Sized(t) && !Choose(t).Infinite? && !Choose(t).Tiny?
    ensures Meant(Choose(t)) == Value(t.mant, t.exp)
  {
  }

  /** __evaluate_json_number, up to the double arithmetic */
  method Evaluate(text: string, integer: nat, fraction: nat, exp: int) returns (n: Number)
    requires integer <= |text| && fraction <= |text| && IntegerPart(Run(text, integer))
    ensures var i, f := Run(text, integer), Run(text, fraction);
            Faithful(n, Value(Nat(i + f), exp - |f|), |Significant(i, f)|)
            && (Nat(i + f) == 0 ==> n == Plain(0))
            && (Nat(i + f) > 0 && exp - |f| >= 1000 ==> n.Infinite?)
            && (Nat(i + f) > 0 && exp + |i| <= -1000 ==> n.Tiny?)
  {
    hide Nat;
    hide Value;
    hide Choose;
    hide Faithful;
    hide ScaledTo;
    hide Significant;
    var t, r := ReadAndScale(text, integer, fraction, exp);
    ChosenFor(Run(text, integer), Run(text, fraction), exp, r, t);
    n := Choose(t);
  }

  /** The loops of __evaluate_json_number; r is what the digit loops leave, t what the scaling leaves. */
  method ReadAndScale(text: string, integer: nat, fraction: nat, exp: int) returns (t: Scaled, ghost r: Scaled)
    requires integer <= |text| && fraction <= |text| && IntegerPart(Run(text, integer))
    ensures Digits(Run(text, fraction)) && ScaledTo(Run(text, integer), Run(text, fraction), exp, r, t)
  {
    ghost var i, f := Run(text, integer), Run(text, fraction);
    AtRunEnd(text, integer, integer);
    hide Nat;
    hide Value;
    hide Truncates;
    hide Read;
    hide Sized;
    hide FullyScaled;
    hide Shifted;
    var m := ReadMantissa(text, integer, fraction, exp);
    ReadMeans(i, f, exp, m);
    ghost var v := Value(Nat(i + f), exp - |f|);
    ExactBelow(i, f, exp, m, v);
    t := Scale(m, v);
    r := m;
  }

  lemma {:induction false} ExactBelow(i: string, f: string, exp: int, m: Scaled, v: real)
    requires IntegerPart(i) && Digits(f) && Read(i, f, exp, m) && v == Value(Nat(i + f), exp - |f|)
    ensures m.figures < FIGURES ==> Value(m.mant, m.exp) == v
  {
    ReadMeans(i, f, exp, m);
  }

  /** r is read from the digits i and f, and scaled to t. */
  ghost predicate ScaledTo(i: string, f: string, exp: int, r: Scaled, t: Scaled) {
    && Read(i, f, exp, r)
    && FullyScaled(t) && Truncates(t, Value(Nat(i + f), exp - |f|)) && Value(t.mant, t.exp) == Value(r.mant, r.exp)
    && (t.figures == 0 <==> r.figures == 0) && (r.figures > 0 ==> Shifted(r, t))
    && (r.exp > 0 ==> t.exp >= 0) && (r.exp < 0 ==> t.exp <= 0)
  }

  /** The number chosen after reading i and f into r and scaling r to t */
  lemma {:induction false} ChosenFor(i: string, f: string, exp: int, r: Scaled, t: Scaled)
    requires IntegerPart(i) && Digits(f) && ScaledTo(i, f, exp, r, t)
    ensures Faithful(Choose(t), Value(Nat(i + f), exp - |f|), |Significant(i, f)|)
    ensures Nat(i + f) == 0 ==> Choose(t) == Plain(0)
    ensures Nat(i + f) > 0 && exp - |f| >= 1000 ==> Choose(t).Infinite?
    ensures Nat(i + f) > 0 && exp + |i| <= -1000 ==> Choose(t).Tiny?
  {
    ReadMeans(i, f, exp, r);
    NothingRead(i, f, exp, r);
    ReadCuts(i, f, exp, r, FIGURES - 1, Value(r.mant, r.exp), Value(Nat(i + f), exp - |f|));
    ChooseRight(t, Value(Nat(i + f), exp - |f|));
    if !Choose(t).Infinite? && !Choose(t).Tiny? {
      MeantBy(t);
    }
  }

  lemma {:induction false} NothingRead(i: string, f: string, exp: int, s: Scaled)
    requires IntegerPart(i) && Digits(f) && Read(i, f, exp, s)
    ensures s.figures == 0 <==> Nat(i + f) == 0
    ensures s.exp >= exp - |f| && s.exp + s.figures <= exp + |i|
  {
    SignificantMeans(i, f);
    ReadMeans(i, f, exp, s);
    var d := Significant(i, f);
    if d != [] {
      NatLead(d);
    }
  }

  // ----- the parser -----

  lemma {:induction false} MoreExponent(m: nat, a: int, b: int)
    requires a <= b
    ensures Value(m, a) <= Value(m, b)
  {
    ValueExp(m, a, b);
  }

  lemma {:induction false} NoValue(exp: int)
    ensures Value(0, exp) == 0.0
  {
  }

  /** A number chosen for the capped exponent is right for the exponent as written. */
  lemma {:induction false} CapHarmless(n: Number, d: nat, significant: nat, cut: int, written: int, f: nat, i: nat)
    requires Faithful(n, Value(d, cut - f), significant) && i + f <= LENGTH_MAX
    requires d == 0 ==> n == Plain(0)
    requires (d > 0 && cut - f >= 1000 ==> n.Infinite?) && (d > 0 && cut + i <= -1000 ==> n.Tiny?)
    requires CutOff(cut, written)
    ensures Faithful(n, Value(d, written - f), significant)
  {
    hide Value;
    hide Pow10;
    PowMono(-324, 309);
    if d == 0 {
      NoValue(cut - f);
      NoValue(written - f);
    } else if cut >= EXP_CAP {
      MoreExponent(d, cut - f, written - f);
    } else if cut <= -EXP_CAP {
      MoreExponent(d, written - f, cut - f);
      Positive(d, written - f);
    }
  }

  /** The integer part and the fraction of __parse_json_number */
  method ParseMain(text: string, cursor: nat) returns (p: Parts)
    requires cursor <= |text|
    ensures p == SplitMain(text, cursor)
  {
    hide DigitsEnd;
    hide IntegerPart;
    hide Run;
    var negative := At(text, cursor) == '-';
    var i := if negative then cursor + 1 else cursor;
    if !IsDigit(At(text, i)) {
      return Bad;
    }
    if At(text, i) == '0' && IsDigit(At(text, i + 1)) {
      return Bad;
    }
    var e := EndOf(text, i);
    if At(text, e) != '.' {
      return Parts(negative, i, |text|, false, |text|, e);
    }
    if !IsDigit(At(text, e + 1)) {
      return Bad;
    }
    var end := EndOf(text, e + 1);
    p := Parts(negative, i, e + 1, false, |text|, end);
  }

  /** The exponent read is the one written, or both are beyond the cap. */
  ghost predicate CutOff(exp: int, written: int) {
    exp == written || EXP_CAP <= exp <= written || written <= exp <= -EXP_CAP
  }

  /** The exponent part of __parse_json_number */
  method ParseExponent(text: string, m: Parts) returns (p: Parts, exp: int)
    requires m.Parts? && m.end <= |text| && m.expDigits == |text| && !m.expNegative
    ensures p == WithExponent(text, m) && (p.Parts? ==> CutOff(exp, Exponent(text, p)))
  {
    NoExponent(text);
    p, exp := m, 0;
    if At(text, m.end) == 'E' || At(text, m.end) == 'e' {
      var sign := At(text, m.end + 1) == '-';
      var x := if sign || At(text, m.end + 1) == '+' then m.end + 2 else m.end + 1;
      if !IsDigit(At(text, x)) {
        return Bad, 0;
      }
      var end;
      exp, end := ReadExponent(text, x);
      p := m.(expNegative := sign, expDigits := x, end := end);
      exp := if sign then -exp else exp;
      ExponentRead(text, p, exp, if sign then -exp else exp);
    }
  }

  method EvaluateParts(text: string, p: Parts, exp: int) returns (n: Number)
    requires p.Parts? && p.integer <= |text| && p.fraction <= |text| && p.expDigits <= |text|
    requires IntegerPart(Run(text, p.integer))
    requires |Run(text, p.integer)| + |Run(text, p.fraction)| <= LENGTH_MAX && CutOff(exp, Exponent(text, p))
    ensures Faithful(n, Written(text, p), |Significant(Run(text, p.integer), Run(text, p.fraction))|)
  {
    hide Nat;
    hide Value;
    hide Faithful;
    hide Significant;
    n := Evaluate(text, p.integer, p.fraction, exp);
    ghost var i, f := Run(text, p.integer), Run(text, p.fraction);
    CapHarmless(n, Nat(i + f), |Significant(i, f)|, exp, Exponent(text, p), |f|, |i|);
  }

  lemma {:induction false} ExponentRead(text: string, q: Parts, exp: int, e: int)
    requires q.Parts? && q.expDigits <= |text| && exp == (if q.expNegative then -e else e)
    requires 0 <= e <= Nat(Run(text, q.expDigits)) && (e == Nat(Run(text, q.expDigits)) || e >= EXP_CAP)
    ensures CutOff(exp, Exponent(text, q))
  {
  }

  lemma {:induction false} NoExponent(text: string)
    ensures Run(text, |text|) == [] && Nat(Run(text, |text|)) == 0
  {
  }
}
