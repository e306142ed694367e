/**
 Decimal digits, powers of ten and the real values they stand for.  Used by module JsonNumber.
 */
module JsonDecimal {
  import opened Basics

  predicate IsDigit(c: char) {
    '0' <= c <= '9'
  }

  function Digit(c: char): nat {
    if IsDigit(c) then c as int - '0' as int else 0
  }

  predicate Digits(s: string) {
    forall i :: 0 <= i < |s| ==> IsDigit(s[i])
  }

  /** The number that digits spell. */
  function Nat(s: string): nat {
    if s == [] then 0 else 10 * Nat(s[..|s| - 1]) + Digit(s[|s| - 1])
  }

  /** Powers of ten with any integer exponent. */
  function Pow10(e: int): (p: real)
    ensures p > 0.0
    decreases if e < 0 then -e else e
  {
    if e == 0 then 1.0 else if e > 0 then 10.0 * Pow10(e - 1) else Pow10(e + 1) / 10.0
  }

  lemma {:induction false} PowStep(e: int)
    ensures Pow10(e) == 10.0 * Pow10(e - 1)
  {
  }

  lemma {:induction false} TenTimes(x: real, y: real, z: real, y': real, z': real)
    requires z == x * y && y' == 10.0 * y && z' == 10.0 * z
    ensures z' == x * y'
  {
    assert x * (10.0 * y) == 10.0 * (x * y);
  }

  lemma {:induction false} PowZero()
    ensures Pow10(0) == 1.0
  {
  }

  lemma {:induction false} PowAdd(a: int, b: nat)
    ensures Pow10(a + b) == Pow10(a) * Pow10(b)
    decreases b
  {
    hide Pow10;
    if b == 0 {
      PowZero();
    } else {
      PowAdd(a, b - 1);
      PowStep(a + b);
      PowStep(b);
      TenTimes(Pow10(a), Pow10(b - 1), Pow10(a + b - 1), Pow10(b), Pow10(a + b));
    }
  }

  lemma {:induction false} PowMono(a: int, b: int)
    requires a <= b
    ensures Pow10(a) <= Pow10(b)
    decreases b - a
  {
    if a < b {
      PowMono(a, b - 1);
      PowStep(b);
    }
  }

  lemma {:induction false} PowNat(n: nat)
    ensures PowN(n) as real == Pow10(n)
    decreases n
  {
    if n > 0 {
      PowNat(n - 1);
    }
  }

  lemma {:induction false} NatMore(s: string, c: char)
    ensures Nat(s + [c]) == 10 * Nat(s) + Digit(c)
  {
    assert (s + [c])[..|s|] == s;
  }

  lemma {:induction false} NatBound(s: string)
    ensures Nat(s) < PowN(|s|)
    decreases |s|
  {
    if s != [] {
      NatBound(s[..|s| - 1]);
    }
  }

  /** Dropping the last digits truncates. */
  lemma {:induction false} NatPrefix(s: string, k: nat)
    requires k <= |s|
    ensures Nat(s[..k]) * PowN(|s| - k) <= Nat(s) < (Nat(s[..k]) + 1) * PowN(|s| - k)
    decreases |s| - k
  {
    if k < |s| {
      var t := s[..|s| - 1];
      NatPrefix(t, k);
      assert t[..k] == s[..k];
      var a, p := Nat(s[..k]), PowN(|t| - k);
      Tenfold(a, p, Nat(t), Digit(s[|s| - 1]));
    } else {
      assert s[..k] == s;
    }
  }

  lemma {:induction false} Tenfold(a: nat, p: nat, t: nat, d: nat)
    requires a * p <= t < (a + 1) * p && d < 10
    ensures a * (10 * p) <= 10 * t + d < (a + 1) * (10 * p)
  {
    assert a * (10 * p) == 10 * (a * p) && (a + 1) * (10 * p) == 10 * ((a + 1) * p);
  }

  /** Leading zeros do not count. */
  lemma {:induction false} NatZeros(s: string, k: nat)
    requires k <= |s| && forall i :: 0 <= i < k ==> s[i] == '0'
    ensures Nat(s) == Nat(s[k..])
    decreases |s|
  {
    if s != [] {
      var t := s[..|s| - 1];
      if k == |s| {
        NatZeros(t, k - 1);
        assert t[k - 1..] == [] && s[k..] == [];
      } else {
        NatZeros(t, k);
        assert s[k..] == t[k..] + [s[|s| - 1]];
        NatMore(t[k..], s[|s| - 1]);
      }
    }
  }

  lemma {:induction false} NatLead(s: string)
    requires s != [] && Digits(s) && s[0] != '0'
    ensures Nat(s) >= PowN(|s| - 1)
    decreases |s|
  {
    if |s| == 1 {
      assert s[..0] == [];
    } else {
      NatLead(s[..|s| - 1]);
    }
  }

  // ----- what a decimal means -----

  /** mant * 10^exp */
  function Value(mant: nat, exp: int): real {
    mant as real * Pow10(exp)
  }

  lemma {:induction false} ValueTenfold(mant: nat, exp: int)
    ensures Value(10 * mant, exp - 1) == Value(mant, exp)
  {
    PowStep(exp);
    var m, p := mant as real, Pow10(exp - 1);
    assert (10 * mant) as real == 10.0 * m;
    assert (10.0 * m) * p == m * (10.0 * p);
  }

  lemma {:induction false} ValueMono(a: nat, b: nat, exp: int)
    ensures a <= b ==> Value(a, exp) <= Value(b, exp)
    ensures a < b ==> Value(a, exp) < Value(b, exp)
  {
    var p := Pow10(exp);
    if a <= b {
      assert (a as real) * p <= (b as real) * p;
    }
  }

  lemma {:induction false} ValuePow(n: nat, exp: int)
    ensures Value(PowN(n), exp) == Pow10(exp + n)
  {
    PowNat(n);
    PowAdd(exp, n);
  }

  lemma {:induction false} ValueShift(m: nat, p: nat, exp: int, n: nat)
    requires p == PowN(n)
    ensures Value(m * p, exp) == Value(m, exp + n)
  {
    hide Pow10;
    hide PowN;
    PowNat(n);
    PowAdd(exp, n);
    ProductAsReal(m, p);
    Regrouped((m * p) as real, m as real, p as real, Pow10(exp), Pow10(exp + n));
  }

  lemma {:induction false} ProductAsReal(m: nat, p: nat)
    ensures (m * p) as real == m as real * p as real
  {
  }

  lemma {:induction false} Regrouped(q: real, a: real, b: real, c: real, d: real)
    requires q == a * b && d == c * b
    ensures q * c == a * d
  {
    assert (a * b) * c == a * (c * b);
  }

  lemma {:induction false} ValueExp(m: nat, a: int, b: int)
    requires a <= b
    ensures Value(m, a) <= Value(m, b)
  {
    PowMono(a, b);
    var x, y, r := Pow10(a), Pow10(b), m as real;
    assert r * x <= r * y;
  }
}
