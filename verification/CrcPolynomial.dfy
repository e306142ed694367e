/**
 CRC-32C as the remainder of a division: the register holds a polynomial of degree below 32 with coefficients 0 and 1,
 that of x^31 in its lowest bit, and feeding a bit multiplies by x and subtracts the generator of section 12.1 of
 RFC 3720 if need be.
 */
module CrcPolynomial {
  import opened Additive
  import opened Crc32c

  /** The exponents of the generator, without that of x^32 */
  const GENERATOR: set<nat> := {28, 27, 26, 25, 23, 22, 20, 19, 18, 14, 13, 11, 10, 9, 8, 6, 0}

  /** The bit of the coefficient of x^k */
  function Mask(k: nat): bv32
    requires k < 32
    decreases 31 - k
  {
    if k == 31 then 1 else Mask(k + 1) << 1
  }

  predicate Bit(c: bv32, m: bv32) {
    c & m != 0
  }

  /** The coefficient of x^k */
  predicate Coefficient(c: bv32, k: nat)
    requires k < 32
  {
    Bit(c, Mask(k))
  }

  predicate Single(m: bv32) {
    m != 0 && m & (m - 1) == 0
  }

  lemma {:induction false} DoubleSingle(m: bv32)
    requires Single(m) && m <= 0x40000000
    ensures Single(m << 1) && m << 1 > m && m << 1 <= 0x80000000
  {
  }

  lemma {:induction false} Masks()
    ensures Mask(31) == 1 && Mask(30) == 2 && Mask(29) == 4 && Mask(28) == 8 && Mask(27) == 0x10 && Mask(26) == 0x20
    ensures Mask(25) == 0x40 && Mask(24) == 0x80 && Mask(23) == 0x100 && Mask(22) == 0x200 && Mask(21) == 0x400
    ensures Mask(20) == 0x800 && Mask(19) == 0x1000 && Mask(18) == 0x2000 && Mask(17) == 0x4000 && Mask(16) == 0x8000
    ensures Mask(15) == 0x10000 && Mask(14) == 0x20000 && Mask(13) == 0x40000 && Mask(12) == 0x80000
    ensures Mask(11) == 0x100000 && Mask(10) == 0x200000 && Mask(9) == 0x400000 && Mask(8) == 0x800000
    ensures Mask(7) == 0x1000000 && Mask(6) == 0x2000000 && Mask(5) == 0x4000000 && Mask(4) == 0x8000000
    ensures Mask(3) == 0x10000000 && Mask(2) == 0x20000000 && Mask(1) == 0x40000000 && Mask(0) == 0x80000000
  {
    assert Mask(27) == 0x10;
    assert Mask(23) == 0x100;
    assert Mask(19) == 0x1000;
    assert Mask(15) == 0x10000;
    assert Mask(11) == 0x100000;
    assert Mask(7) == 0x1000000;
    assert Mask(3) == 0x10000000;
  }

  /** The constant of the code has the generator's coefficients. */
  lemma {:induction false} PolyIsGenerator(k: nat)
    requires k < 32
    ensures Coefficient(POLY, k) <==> k in GENERATOR
  {
    Masks();
    hide Mask;
  }

  lemma {:induction false} MaskSingle(k: nat)
    requires k < 32
    ensures Single(Mask(k))
  {
    Masks();
    hide Mask;
  }

  lemma {:induction false} XorBit(x: bv32, p: bv32, m: bv32)
    requires Single(m)
    ensures (x ^ p) & m != 0 <==> (x & m != 0) != (p & m != 0)
  {
    OneBit(x, m);
    OneBit(p, m);
    AndXor(x, p, m);
  }

  lemma {:induction false} OneBit(x: bv32, m: bv32)
    requires Single(m)
    ensures x & m == 0 || x & m == m
  {
  }

  lemma {:induction false} AndXor(x: bv32, p: bv32, m: bv32)
    ensures (x ^ p) & m == (x & m) ^ (p & m)
  {
  }

  /** d is c shifted right by one, and m' is m shifted left. */
  predicate Half(c: bv32, d: bv32) {
    d == c >> 1
  }

  predicate Twice(m: bv32, m': bv32) {
    m <= 0x40000000 && m' == m << 1
  }

  lemma {:induction false} Halved(c: bv32, d: bv32, m: bv32, m': bv32)
    requires Twice(m, m') && Half(c, d)
    ensures Bit(d, m) <==> Bit(c, m')
  {
  }

  lemma {:induction false} NoCarry(c: bv32, d: bv32, m: bv32)
    requires Half(c, d) && m == 0x80000000
    ensures !Bit(d, m)
  {
  }

  lemma {:induction false} ShiftedIn(c: bv32, d: bv32)
    requires Half(c, d)
    ensures !Coefficient(d, 0)
  {
    hide Mask;
    hide Bit;
    hide Half;
    LastMasks();
    NoCarry(c, d, Mask(0));
  }

  lemma {:induction false} ShiftedOver(c: bv32, d: bv32, k: nat)
    requires 0 < k < 32 && Half(c, d)
    ensures Coefficient(d, k) <==> Coefficient(c, k - 1)
  {
    hide Mask;
    hide Bit;
    hide Half;
    hide Twice;
    NextMask(k);
    Halved(c, d, Mask(k), Mask(k - 1));
  }

  /** Shifting right multiplies by x; the coefficient of x^31 drops out. */
  lemma {:induction false} ShiftMultiplies(c: bv32, d: bv32, k: nat)
    requires k < 32 && Half(c, d)
    ensures Coefficient(d, k) <==> k > 0 && Coefficient(c, k - 1)
  {
    hide Coefficient;
    hide Half;
    if k > 0 {
      ShiftedOver(c, d, k);
    } else {
      ShiftedIn(c, d);
    }
  }

  lemma {:induction false} LastMasks()
    ensures Mask(31) == 1 && Mask(0) == 0x80000000
  {
    Masks();
  }

  lemma {:induction false} NextMask(k: nat)
    requires 0 < k < 32
    ensures Twice(Mask(k), Mask(k - 1))
  {
    MaskBelow(k);
  }

  lemma {:induction false} LowBit(c: bv32)
    ensures Coefficient(c, 31) <==> c & 1 == 1
  {
    LastMasks();
    OddBit(c);
  }

  lemma {:induction false} OddBit(c: bv32)
    ensures c & 1 != 0 <==> c & 1 == 1
  {
  }

  lemma {:induction false} MaskBelow(k: nat)
    requires 0 < k < 32
    ensures Mask(k) <= 0x40000000
  {
    Masks();
    hide Mask;
  }

  /** Feeding a bit multiplies by x, adds the bit at x^32, and subtracts the generator if x^32 is there. */
  lemma {:induction false} FeedDivides(c: bv32, bit: bool, k: nat)
    requires k < 32
    ensures Coefficient(FeedBit(c, bit), k) <==>
            (k > 0 && Coefficient(c, k - 1)) != (Coefficient(c, 31) != bit && k in GENERATOR)
  {
    var d := c >> 1;
    ShiftMultiplies(c, d, k);
    PolyIsGenerator(k);
    MaskSingle(k);
    LowBit(c);
    hide Mask;
    hide Single;
    XorBit(d, POLY, Mask(k));
  }

  // ----- an example -----

  function EightShifts(c: bv32): bv32 {
    Shift(Shift(Shift(Shift(Shift(Shift(Shift(Shift(c))))))))
  }

  lemma {:induction false} Eight(c: bv32)
    ensures Iter(Shift, 8, c) == EightShifts(c)
  {
    assert Iter(Shift, 8, c) == Iter(Shift, 7, Shift(c));
    assert Iter(Shift, 8, c) == Iter(Shift, 5, Shift(Shift(Shift(c))));
    assert Iter(Shift, 8, c) == Iter(Shift, 2, Shift(Shift(Shift(Shift(Shift(Shift(c)))))));
  }

  /** The state after n zero bytes */
  function ZeroBytes(c: bv32, n: nat): bv32
    decreases n
  {
    if n == 0 then c else ZeroBytes(Iter(Shift, 8, c), n - 1)
  }

  lemma {:induction false} ZeroByte(c: bv32, d: bv32, n: nat)
    requires n > 0 && EightShifts(c) == d
    ensures ZeroBytes(c, n) == ZeroBytes(d, n - 1)
  {
    Eight(c);
  }

  lemma {:induction false} Zeros8()
    ensures ZeroBytes(0xffffffff, 32) == ZeroBytes(0x73d74d75, 24)
  {
    ZeroByte(0xffffffff, 0xad82acae, 32);
    ZeroByte(0xad82acae, 0x0e9e882d, 31);
    ZeroByte(0x0e9e882d, 0x9f9b5c85, 30);
    ZeroByte(0x9f9b5c85, 0xb798b438, 29);
    ZeroByte(0xb798b438, 0xba8d89ca, 28);
    ZeroByte(0xba8d89ca, 0xa8d58375, 27);
    ZeroByte(0xa8d58375, 0x44c19592, 26);
    ZeroByte(0x44c19592, 0x73d74d75, 25);
  }

  lemma {:induction false} Zeros16()
    ensures ZeroBytes(0x73d74d75, 24) == ZeroBytes(0xbd8f6515, 16)
  {
    ZeroByte(0x73d74d75, 0x441a975c, 24);
    ZeroByte(0x441a975c, 0x1c220f94, 23);
    ZeroByte(0x1c220f94, 0x552e4907, 22);
    ZeroByte(0x552e4907, 0xd49f4aa2, 21);
    ZeroByte(0xd49f4aa2, 0x43a45a1b, 20);
    ZeroByte(0x43a45a1b, 0x8994c80e, 19);
    ZeroByte(0x8994c80e, 0xacf12bef, 18);
    ZeroByte(0xacf12bef, 0xbd8f6515, 17);
  }

  lemma {:induction false} Zeros24()
    ensures ZeroBytes(0xbd8f6515, 16) == ZeroBytes(0x7b041311, 8)
  {
    ZeroByte(0xbd8f6515, 0x25125c16, 16);
    ZeroByte(0x25125c16, 0x36da32db, 15);
    ZeroByte(0x36da32db, 0x4a6c90a2, 14);
    ZeroByte(0x4a6c90a2, 0x433aa9c1, 13);
    ZeroByte(0x433aa9c1, 0x31a59f6e, 12);
    ZeroByte(0x31a59f6e, 0xcd8f89da, 11);
    ZeroByte(0xcd8f89da, 0xb8fc461a, 10);
    ZeroByte(0xb8fc461a, 0x7b041311, 9);
  }

  lemma {:induction false} Zeros32()
    ensures ZeroBytes(0x7b041311, 8) == ZeroBytes(0x756ec955, 0)
  {
    ZeroByte(0x7b041311, 0xe24e407f, 8);
    ZeroByte(0xe24e407f, 0x2f692669, 7);
    ZeroByte(0x2f692669, 0x195b2188, 6);
    ZeroByte(0x195b2188, 0x08363896, 5);
    ZeroByte(0x08363896, 0xb4012dc7, 4);
    ZeroByte(0xb4012dc7, 0x17f34302, 3);
    ZeroByte(0x17f34302, 0xe12c83b4, 2);
    ZeroByte(0xe12c83b4, 0x756ec955, 1);
  }

  lemma {:induction false} ZerosFed(c: bv32, data: seq<bv8>)
    requires forall i :: 0 <= i < |data| ==> data[i] == 0
    ensures FeedBits(c, Bits(data)) == ZeroBytes(c, |data|)
    decreases |data|
  {
    if data != [] {
      FirstByte(8, c, 0, Bits(data[1..]), Iter(Shift, 8, c));
      ZerosFed(Iter(Shift, 8, c), data[1..]);
    }
  }

  /** Appendix B.4 of RFC 3720: the CRC of 32 bytes of zeroes */
  lemma {:induction false} ZeroesExample(data: seq<bv8>)
    requires |data| == 32 && forall i :: 0 <= i < |data| ==> data[i] == 0
    ensures Crc(0, data) == 0x8a9136aa
  {
    ZerosFed(0xffffffff, data);
    Zeros8();
    Zeros16();
    Zeros24();
    Zeros32();
    hide FeedBits;
    hide ZeroBytes;
    LastZero(0x756ec955);
  }

  lemma {:induction false} LastZero(c: bv32)
    ensures ZeroBytes(c, 0) == c
  {
  }
}
