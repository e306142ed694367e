/**
 The software CRC-32C of src/util/crc32c.c: eight tables, bytes up to an aligned address, then eight
 bytes at a time, then the rest, proved equal to the bit-at-a-time CRC of section 12.1 of RFC 3720.

 Memory is a sequence of bytes with the address of its first byte; only its alignment matters.
 What only needs linearity is proved first, for any additive function, in module Additive.
 */
module Crc32c {
  import opened Additive

  const POLY: bv32 := 0x82f63b78

  // ----- the reference: one bit at a time, least significant bit of each byte first -----

  function FeedBit(c: bv32, bit: bool): bv32 {
    if (c & 1 == 1) != bit then (c >> 1) ^ POLY else c >> 1
  }

  function FeedBits(c: bv32, bits: seq<bool>): bv32
    decreases |bits|
  {
    if bits == [] then c else FeedBits(FeedBit(c, bits[0]), bits[1..])
  }

  /** The lowest n bits of a word. */
  function BitsOf(n: nat, b: bv32): seq<bool> {
    if n == 0 then [] else [b & 1 == 1] + BitsOf(n - 1, b >> 1)
  }

  function Bits(data: seq<bv8>): seq<bool> {
    if data == [] then [] else BitsOf(8, data[0] as bv32) + Bits(data[1..])
  }

  /** CRC-32C with initial value and final result complemented. */
  function Crc(init: bv32, data: seq<bv8>): bv32 {
    FeedBits(init ^ 0xffffffff, Bits(data)) ^ 0xffffffff
  }

  // ----- shifting is linear over exclusive or -----

  function Xor(x: bv32, y: bv32): bv32 {
    x ^ y
  }

  function Shift(c: bv32): bv32 {
    if c & 1 == 1 then (c >> 1) ^ POLY else c >> 1
  }

  lemma {:induction false} XorAssociates(x: bv32, y: bv32, z: bv32)
    ensures Xor(Xor(x, y), z) == Xor(x, Xor(y, z))
  {
  }

  lemma {:induction false} XorCommutes()
    ensures Commutes(Xor)
  {
  }

  lemma {:induction false} XorAnyOrder()
    ensures AnyOrder(Xor)
  {
    XorCommutes();
    forall x, y, z
      ensures Xor(Xor(x, y), z) == Xor(x, Xor(y, z))
    {
      XorAssociates(x, y, z);
    }
  }

  lemma {:induction false} XorShift(x: bv32, y: bv32)
    ensures (x ^ y) >> 1 == (x >> 1) ^ (y >> 1)
  {
  }

  lemma {:induction false} XorOdd(x: bv32, y: bv32)
    ensures (x ^ y) & 1 == (x & 1) ^ (y & 1)
    ensures (x & 1 == 0 || x & 1 == 1) && (y & 1 == 0 || y & 1 == 1)
  {
  }

  lemma {:induction false} XorMoves(a: bv32, b: bv32, p: bv32)
    ensures (a ^ p) ^ b == (a ^ b) ^ p && a ^ (b ^ p) == (a ^ b) ^ p && (a ^ p) ^ (b ^ p) == a ^ b
  {
  }

  lemma {:induction false} ShiftXor(x: bv32, y: bv32, z: bv32)
    requires z == x ^ y
    ensures Shift(z) == Shift(x) ^ Shift(y)
  {
    XorShift(x, y);
    XorOdd(x, y);
    XorMoves(x >> 1, y >> 1, POLY);
  }

  lemma {:induction false} ShiftIsLinear()
    ensures Linear(Shift, Xor)
  {
    forall x, y
      ensures Shift(Xor(x, y)) == Xor(Shift(x), Shift(y))
    {
      ShiftXor(x, y, Xor(x, y));
    }
  }

  lemma {:induction false} ShiftsXor(n: nat, x: bv32, y: bv32, z: bv32)
    requires z == x ^ y
    ensures Iter(Shift, n, z) == Xor(Iter(Shift, n, x), Iter(Shift, n, y))
  {
    ShiftIsLinear();
    IterLinear(Shift, Xor, n, x, y);
  }

  lemma {:induction false} ShiftsStep(n: nat, c: bv32, d: bv32)
    requires n > 0 && d == Shift(c)
    ensures Iter(Shift, n, c) == Iter(Shift, n - 1, d)
  {
  }

  lemma {:induction false} ShiftsNone(n: nat, c: bv32)
    requires n == 0
    ensures Iter(Shift, n, c) == c
  {
  }

  // ----- moving right -----

  /** Moving right by n bits, one at a time. */
  function Right(n: nat, x: bv32): bv32 {
    if n == 0 then x else Right(n - 1, x >> 1)
  }

  /** The lowest n bits are zero. */
  predicate Clear(n: nat, x: bv32) {
    n == 0 || (x & 1 == 0 && Clear(n - 1, x >> 1))
  }

  lemma {:induction false} RightStep(n: nat, x: bv32, y: bv32)
    requires n > 0 && y == x >> 1
    ensures Right(n, x) == Right(n - 1, y) && (Clear(n, x) <==> x & 1 == 0 && Clear(n - 1, y))
  {
  }

  lemma {:induction false} RightNone(x: bv32)
    ensures Right(0, x) == x && Clear(0, x)
  {
  }

  lemma {:induction false} RightTwo(n: nat, x: bv32, y: bv32)
    requires n >= 2 && y == x >> 2
    ensures Right(n, x) == Right(n - 2, y) && (Clear(n, x) <==> x & 3 == 0 && Clear(n - 2, y))
  {
    var m := x >> 1;
    RightStep(n, x, m);
    RightStep(n - 1, m, y);
    LowTwo(x, m);
  }

  lemma {:induction false} LowTwo(x: bv32, m: bv32)
    requires m == x >> 1
    ensures x & 3 == 0 <==> x & 1 == 0 && m & 1 == 0
  {
  }

  lemma {:induction false} RightFour(n: nat, x: bv32, y: bv32)
    requires n >= 4 && y == x >> 4
    ensures Right(n, x) == Right(n - 4, y) && (Clear(n, x) <==> x & 0xf == 0 && Clear(n - 4, y))
  {
    var m := x >> 2;
    RightTwo(n, x, m);
    RightTwo(n - 2, m, y);
    LowFour(x, m);
  }

  lemma {:induction false} LowFour(x: bv32, m: bv32)
    requires m == x >> 2
    ensures x & 0xf == 0 <==> x & 3 == 0 && m & 3 == 0
  {
  }

  lemma {:induction false} RightByte(x: bv32)
    ensures Right(8, x) == x >> 8 && (Clear(8, x) <==> x & 0xff == 0)
  {
    var y, z := x >> 4, x >> 8;
    RightFour(8, x, y);
    RightFour(4, y, z);
    RightNone(z);
    assert x & 0xff == 0 <==> x & 0xf == 0 && y & 0xf == 0;
  }

  lemma {:induction false} ShiftEven(c: bv32)
    requires c & 1 == 0
    ensures Shift(c) == c >> 1
  {
  }

  /** A word whose low bits are zero is only moved. */
  lemma {:induction false} ShiftsClear(n: nat, c: bv32)
    requires Clear(n, c)
    ensures Iter(Shift, n, c) == Right(n, c)
    decreases n
  {
    if n == 0 {
      ShiftsNone(n, c);
    } else {
      var d := c >> 1;
      ShiftEven(c);
      ShiftsStep(n, c, d);
      ShiftsClear(n - 1, d);
    }
  }

  lemma {:induction false} LowHigh(c: bv32, lo: bv32, hi: bv32, moved: bv32)
    requires lo == c & 0xff && hi == c & 0xffffff00 && moved == c >> 8
    ensures c == lo ^ hi && hi & 0xff == 0 && moved == hi >> 8
  {
  }

  lemma {:induction false} ByteClear(n: nat, hi: bv32, moved: bv32)
    requires n == 8 && hi & 0xff == 0 && moved == hi >> 8
    ensures Iter(Shift, n, hi) == moved
  {
    RightByte(hi);
    ShiftsClear(n, hi);
  }

  lemma {:induction false} Recombined(n: nat, c: bv32, lo: bv32, hi: bv32, moved: bv32)
    requires c == lo ^ hi && Iter(Shift, n, hi) == moved
    ensures Iter(Shift, n, c) == Xor(Iter(Shift, n, lo), moved)
  {
    ShiftsXor(n, lo, hi, c);
  }

  /** The table step: the low byte is looked up, the rest is moved. */
  lemma {:induction false} TableStep(n: nat, c: bv32, lo: bv32, moved: bv32)
    requires n == 8 && lo == c & 0xff && moved == c >> 8
    ensures Iter(Shift, n, c) == Xor(Iter(Shift, n, lo), moved)
  {
    var hi := c & 0xffffff00;
    LowHigh(c, lo, hi, moved);
    ByteClear(n, hi, moved);
    Recombined(n, c, lo, hi, moved);
  }

  // ----- one byte is eight bits -----

  lemma {:induction false} FeedIsShift(c: bv32, x: bv32, y: bv32)
    requires y == c ^ (x & 1)
    ensures FeedBit(c, x & 1 == 1) == Shift(y)
  {
    XorOdd(c, x & 1);
    XorShift(c, x & 1);
    assert (x & 1) & 1 == x & 1 && (x & 1) >> 1 == 0;
  }

  lemma {:induction false} LowRest(c: bv32, x: bv32)
    ensures c ^ x == (c ^ (x & 1)) ^ (x & 0xfffffffe) && (x & 0xfffffffe) & 1 == 0 && (x & 0xfffffffe) >> 1 == x >> 1
  {
  }

  /** Shifting a state with message bits mixed in feeds the lowest of them. */
  lemma {:induction false} FeedOne(c: bv32, x: bv32, z: bv32)
    requires z == c ^ x
    ensures Shift(z) == FeedBit(c, x & 1 == 1) ^ (x >> 1)
  {
    var y, rest := c ^ (x & 1), x & 0xfffffffe;
    LowRest(c, x);
    ShiftXor(y, rest, z);
    ShiftEven(rest);
    FeedIsShift(c, x, y);
  }

  lemma {:induction false} FeedBitsStep(n: nat, c: bv32, x: bv32, c': bv32, x': bv32)
    requires n > 0 && c' == FeedBit(c, x & 1 == 1) && x' == x >> 1
    ensures FeedBits(c, BitsOf(n, x)) == FeedBits(c', BitsOf(n - 1, x')) && Right(n, x) == Right(n - 1, x')
  {
    assert BitsOf(n, x)[1..] == BitsOf(n - 1, x');
  }

  /** n shifts feed the lowest n bits; the rest of the word stays mixed in. */
  lemma {:induction false} FeedMany(n: nat, c: bv32, x: bv32, z: bv32)
    requires z == c ^ x
    ensures Iter(Shift, n, z) == FeedBits(c, BitsOf(n, x)) ^ Right(n, x)
    decreases n
  {
    if n == 0 {
      ShiftsNone(n, z);
    } else {
      var c', x', z' := FeedBit(c, x & 1 == 1), x >> 1, Shift(z);
      FeedOne(c, x, z);
      FeedMany(n - 1, c', x', z');
      ShiftsStep(n, z, z');
      FeedBitsStep(n, c, x, c', x');
    }
  }

  lemma {:induction false} XorZero(x: bv32, y: bv32)
    requires y == 0
    ensures x ^ y == x && y ^ x == x && Xor(x, y) == x && Xor(y, x) == x
  {
  }

  lemma {:induction false} FeedByte(n: nat, c: bv32, x: bv32, z: bv32)
    requires n == 8 && x <= 0xff && z == c ^ x
    ensures FeedBits(c, BitsOf(n, x)) == Iter(Shift, n, z)
  {
    FeedMany(n, c, x, z);
    RightByte(x);
    XorZero(FeedBits(c, BitsOf(n, x)), Right(n, x));
  }

  // ----- bytes -----

  function Words(data: seq<bv8>): (w: seq<bv32>)
    ensures |w| == |data| && forall i :: 0 <= i < |data| ==> w[i] == data[i] as bv32
  {
    if data == [] then [] else [data[0] as bv32] + Words(data[1..])
  }

  /** The state after feeding bytes. */
  function Bytes(c: bv32, items: seq<bv32>): bv32 {
    Fold(Shift, Xor, 8, c, items)
  }

  lemma {:induction false} FeedAppend(c: bv32, x: seq<bool>, y: seq<bool>)
    ensures FeedBits(c, x + y) == FeedBits(FeedBits(c, x), y)
    decreases |x|
  {
    if x == [] {
      assert x + y == y;
    } else {
      assert (x + y)[1..] == x[1..] + y;
      FeedAppend(FeedBit(c, x[0]), x[1..], y);
    }
  }

  lemma {:induction false} ByteSmall(b: bv8, x: bv32)
    requires x == b as bv32
    ensures x <= 0xff
  {
  }

  lemma {:induction false} BytesStep(c: bv32, items: seq<bv32>, d: bv32)
    requires items != [] && d == Iter(Shift, 8, Xor(c, items[0]))
    ensures Bytes(c, items) == Bytes(d, items[1..])
  {
  }

  lemma {:induction false} FirstByte(n: nat, c: bv32, x: bv32, rest: seq<bool>, d: bv32)
    requires n == 8 && x <= 0xff && d == Iter(Shift, n, Xor(c, x))
    ensures FeedBits(c, BitsOf(n, x) + rest) == FeedBits(d, rest)
  {
    FeedByte(n, c, x, Xor(c, x));
    FeedAppend(c, BitsOf(n, x), rest);
  }

  lemma {:induction false} WordsStep(data: seq<bv8>)
    requires data != []
    ensures Words(data)[0] == data[0] as bv32 && Words(data)[1..] == Words(data[1..])
    ensures Bits(data) == BitsOf(8, data[0] as bv32) + Bits(data[1..])
  {
  }

  /** Feeding bits and feeding bytes agree. */
  lemma {:induction false} BitsAreBytes(c: bv32, data: seq<bv8>)
    ensures FeedBits(c, Bits(data)) == Bytes(c, Words(data))
    decreases |data|
  {
    if data != [] {
      var x := data[0] as bv32;
      var d := Iter(Shift, 8, Xor(c, x));
      WordsStep(data);
      ByteSmall(data[0], x);
      FirstByte(8, c, x, Bits(data[1..]), d);
      BytesStep(c, Words(data), d);
      BitsAreBytes(d, data[1..]);
    }
  }

  // ----- mixing the state into the message -----

  function Mix(y: bv32, items: seq<bv32>): (m: seq<bv32>)
    ensures |m| == |items|
    decreases |items|
  {
    if items == [] then [] else [Xor(items[0], y & 0xff)] + Mix(y >> 8, items[1..])
  }

  /** The word has at most n bytes. */
  predicate Gone(y: bv32, n: nat) {
    if n == 0 then y == 0 else Gone(y >> 8, n - 1)
  }

  lemma {:induction false} MixBits(x: bv32, y: bv32, d: bv32, lo: bv32, hi: bv32, w: bv32, z: bv32, moved: bv32)
    requires lo == y & 0xff && hi == y & 0xffffff00 && moved == y >> 8
    requires w == Xor(x, Xor(d, lo)) && z == Xor(Xor(x, y), d)
    ensures z == w ^ hi && hi & 0xff == 0 && moved == hi >> 8
  {
    LowHigh(y, lo, hi, moved);
    assert (x ^ (lo ^ hi)) ^ d == (x ^ (d ^ lo)) ^ hi;
  }

  lemma {:induction false} MixOne(n: nat, x: bv32, y: bv32, d: bv32, lo: bv32, w: bv32, z: bv32, moved: bv32)
    requires n == 8 && lo == y & 0xff && w == Xor(x, Xor(d, lo)) && z == Xor(Xor(x, y), d) && moved == y >> 8
    ensures Iter(Shift, n, z) == Xor(Iter(Shift, n, w), moved)
  {
    var hi := y & 0xffffff00;
    MixBits(x, y, d, lo, hi, w, z, moved);
    ByteClear(n, hi, moved);
    Recombined(n, z, w, hi, moved);
  }

  lemma {:induction false} MixStep(y: bv32, items: seq<bv32>, y': bv32)
    requires items != [] && y' == y >> 8
    ensures Mix(y, items) == [Xor(items[0], y & 0xff)] + Mix(y', items[1..])
    ensures Gone(y, |items|) <==> Gone(y', |items[1..]|)
  {
  }

  lemma {:induction false} MixState(x: bv32, y: bv32, s: bv32, items: seq<bv32>, d: bv32, lo: bv32, x': bv32, y': bv32,
                                    s': bv32)
    requires items != [] && d == items[0] && lo == y & 0xff && s == Xor(x, y)
    requires x' == Iter(Shift, 8, Xor(x, Xor(d, lo))) && y' == y >> 8 && s' == Xor(x', y')
    ensures Bytes(s, items) == Bytes(s', items[1..])
  {
    var w, z := Xor(x, Xor(d, lo)), Xor(s, d);
    MixOne(8, x, y, d, lo, w, z, y');
    BytesStep(s, items, s');
  }

  lemma {:induction false} MixMessage(x: bv32, y: bv32, items: seq<bv32>, d: bv32, lo: bv32, x': bv32, y': bv32)
    requires items != [] && d == items[0] && lo == y & 0xff
    requires x' == Iter(Shift, 8, Xor(x, Xor(d, lo))) && y' == y >> 8
    ensures Bytes(x, Mix(y, items)) == Bytes(x', Mix(y', items[1..]))
  {
    MixStep(y, items, y');
    var m := Mix(y, items);
    assert m[0] == Xor(d, lo) && m[1..] == Mix(y', items[1..]);
    BytesStep(x, m, x');
  }

  /** A state with at most as many bytes as the message can be mixed into the message beforehand. */
  lemma {:induction false} MixIn(x: bv32, y: bv32, items: seq<bv32>)
    requires Gone(y, |items|)
    ensures Bytes(Xor(x, y), items) == Bytes(x, Mix(y, items))
    decreases |items|
  {
    if items == [] {
      XorZero(x, y);
    } else {
      var d, lo := items[0], y & 0xff;
      var x', y' := Iter(Shift, 8, Xor(x, Xor(d, lo))), y >> 8;
      MixStep(y, items, y');
      MixState(x, y, Xor(x, y), items, d, lo, x', y', Xor(x', y'));
      MixMessage(x, y, items, d, lo, x', y');
      MixIn(x', y', items[1..]);
    }
  }

  lemma {:induction false} GoneZero(y: bv32, n: nat)
    requires y == 0
    ensures Gone(y, n)
    decreases n
  {
    if n > 0 {
      assert y >> 8 == 0;
      GoneZero(y >> 8, n - 1);
    }
  }

  lemma {:induction false} GoneStep(y: bv32, n: nat, y': bv32)
    requires n > 0 && y' == y >> 8
    ensures Gone(y, n) <==> Gone(y', n - 1)
  {
  }

  lemma {:induction false} FourBytes(y: bv32, a: bv32, b: bv32, c: bv32, d: bv32)
    requires a == y >> 8 && b == a >> 8 && c == b >> 8 && d == c >> 8
    ensures d == 0
  {
  }

  lemma {:induction false} GoneWord(y: bv32, n: nat)
    requires n >= 4
    ensures Gone(y, n)
  {
    var a := y >> 8;
    var b := a >> 8;
    var c := b >> 8;
    var d := c >> 8;
    FourBytes(y, a, b, c, d);
    GoneStep(y, n, a);
    GoneStep(a, n - 1, b);
    GoneStep(b, n - 2, c);
    GoneStep(c, n - 3, d);
    GoneZero(d, n - 4);
  }

  // ----- eight bytes by eight look-ups -----

  /** What the tables hold: crc32c_table[k][n] */
  function Entry(k: nat, n: bv32): bv32 {
    Iter(Shift, 8 * (k + 1), n)
  }

  lemma {:induction false} LookupsStep(z: bv32, items: seq<bv32>, k: nat, a: bv32, b: bv32)
    requires |items| == k + 1 && a == Entry(k, items[0]) && b == Lookups(Shift, Xor, 8, z, items[1..])
    ensures Lookups(Shift, Xor, 8, z, items) == Xor(a, b)
  {
  }

  lemma {:induction false} EightLookups(e: seq<bv32>, z: bv32)
    requires |e| == 8
    ensures Lookups(Shift, Xor, 8, z, e)
            == Xor(Entry(7, e[0]), Xor(Entry(6, e[1]), Xor(Entry(5, e[2]), Xor(Entry(4, e[3]),
               Xor(Entry(3, e[4]), Xor(Entry(2, e[5]), Xor(Entry(1, e[6]), Xor(Entry(0, e[7]), z))))))))
  {
    assert e[0..] == e && e[8..] == [];
    var l7 := LookupsAt(e, z, 7, Entry(0, e[7]), z);
    var l6 := LookupsAt(e, z, 6, Entry(1, e[6]), l7);
    var l5 := LookupsAt(e, z, 5, Entry(2, e[5]), l6);
    var l4 := LookupsAt(e, z, 4, Entry(3, e[4]), l5);
    var l3 := LookupsAt(e, z, 3, Entry(4, e[3]), l4);
    var l2 := LookupsAt(e, z, 2, Entry(5, e[2]), l3);
    var l1 := LookupsAt(e, z, 1, Entry(6, e[1]), l2);
    var l0 := LookupsAt(e, z, 0, Entry(7, e[0]), l1);
  }

  lemma {:induction false} LookupsAt(e: seq<bv32>, z: bv32, i: nat, a: bv32, b: bv32) returns (r: bv32)
    requires |e| == 8 && i < 8 && a == Entry(7 - i, e[i]) && b == Lookups(Shift, Xor, 8, z, e[i + 1..])
    ensures r == Lookups(Shift, Xor, 8, z, e[i..]) && r == Xor(a, b)
  {
    assert e[i..][1..] == e[i + 1..];
    LookupsStep(z, e[i..], 7 - i, a, b);
    r := Xor(a, b);
  }

  lemma {:induction false} ShiftsZero(n: nat, c: bv32)
    requires c == 0
    ensures Iter(Shift, n, c) == 0
    decreases n
  {
    if n > 0 {
      assert Shift(0) == 0;
      ShiftsStep(n, c, 0);
      ShiftsZero(n - 1, 0);
    }
  }

  lemma {:induction false} BytesByLookups(e: seq<bv32>, zero: bv32)
    requires |e| == 8 && zero == 0
    ensures Bytes(zero, e) == Lookups(Shift, Xor, 8, zero, e)
  {
    ShiftIsLinear();
    XorAnyOrder();
    FoldIsLookups(Shift, Xor, 8, zero, e);
    ShiftsZero(8 * |e|, zero);
  }

  lemma {:induction false} MixedIn(c: bv32, items: seq<bv32>, zero: bv32)
    requires |items| == 8 && zero == 0
    ensures Bytes(c, items) == Bytes(zero, Mix(c, items))
  {
    GoneWord(c, |items|);
    MixIn(zero, c, items);
    XorZero(c, zero);
  }

  /** Eight bytes at once, from the bytes of the message with the state mixed in. */
  lemma {:induction false} SlicingByEight(c: bv32, items: seq<bv32>, e: seq<bv32>, zero: bv32)
    requires |items| == 8 && e == Mix(c, items) && zero == 0
    ensures Bytes(c, items)
            == Xor(Entry(7, e[0]), Xor(Entry(6, e[1]), Xor(Entry(5, e[2]), Xor(Entry(4, e[3]),
               Xor(Entry(3, e[4]), Xor(Entry(2, e[5]), Xor(Entry(1, e[6]), Xor(Entry(0, e[7]), zero))))))))
  {
    MixedIn(c, items, zero);
    BytesByLookups(e, zero);
    EightLookups(e, zero);
  }

  // ----- the code -----

  lemma {:induction false} Index(v: bv32, n: int)
    requires v <= 0xff && n == v as int
    ensures 0 <= n < 256 && n as bv32 == v
  {
  }

  lemma {:induction false} LowSmall(c: bv32)
    ensures c & 0xff <= 0xff
  {
  }

  lemma {:induction false} NextEntry(k: nat, n: bv32, c: bv32, d: bv32)
    requires k > 0 && c == Entry(k - 1, n) && d == Iter(Shift, 8, c)
    ensures d == Entry(k, n)
  {
    IterAdd(Shift, 8 * k, 8, n);
  }

  // ----- eight bytes in two halves -----

  /** The four bytes of a half, lowest first, as memcpy and le64toh deliver them */
  function Half(a: bv32, b: bv32, c: bv32, d: bv32): bv32 {
    a | (b << 8) | (c << 16) | (d << 24)
  }

  /** Each byte of a state with four bytes mixed in. */
  lemma {:induction false} FourLanes(y: bv32, a: bv32, b: bv32, c: bv32, d: bv32, x: bv32)
    requires a <= 0xff && b <= 0xff && c <= 0xff && d <= 0xff && x == y ^ Half(a, b, c, d)
    ensures x & 0xff == a ^ (y & 0xff) && (x >> 8) & 0xff == b ^ ((y >> 8) & 0xff)
    ensures (x >> 16) & 0xff == c ^ ((y >> 16) & 0xff) && x >> 24 == d ^ (y >> 24)
  {
  }

  lemma {:induction false} FourSteps(y: bv32, y1: bv32, y2: bv32, y3: bv32, y4: bv32)
    requires y1 == y >> 8 && y2 == y1 >> 8 && y3 == y2 >> 8 && y4 == y3 >> 8
    ensures y2 == y >> 16 && y3 == y >> 24 && y4 == 0 && y3 & 0xff == y3
  {
  }

  class Tables {
    const table: array2<bv32>

    /** The first `rows` tables are filled for all n, the others for n < columns. */
    ghost predicate Filled(rows: nat, columns: nat)
      reads table
    {
      table.Length0 == 8 && table.Length1 == 256
      && forall k, n :: 0 <= k < 8 && 0 <= n < 256 && (k < rows || n < columns) ==> table[k, n] == Entry(k, n as bv32)
    }

    ghost predicate Ready()
      reads table
    {
      Filled(8, 0)
    }

    /** One byte by the first table: crc32c_table[0][crc & 0xff] ^ (crc >> 8) */
    method Look(c: bv32) returns (d: bv32)
      requires Filled(1, 0)
      ensures d == Iter(Shift, 8, c)
    {
      var lo, moved := c & 0xff, c >> 8;
      LowSmall(c);
      var i := lo as int;
      Index(lo, i);
      TableStep(8, c, lo, moved);
      d := Xor(table[0, i], moved);
    }

    /** The eight conditional shifts of the table construction */
    static method FirstEntry(n: bv32) returns (crc: bv32)
      ensures crc == Entry(0, n)
    {
      crc := n;
      var i := 0;
      while i < 8
        invariant 0 <= i <= 8 && Iter(Shift, 8 - i, crc) == Iter(Shift, 8, n)
      {
        ShiftsStep(8 - i, crc, Shift(crc));
        crc := if crc & 1 == 1 then (crc >> 1) ^ POLY else crc >> 1;
        i := i + 1;
      }
      ShiftsNone(0, crc);
    }

    /** crc32c_init_sw */
    constructor ()
      ensures Ready() && fresh(table)
    {
      table := new bv32[8, 256];
      new;
      FillFirst();
      var n := 0;
      while n < 256
        invariant 0 <= n <= 256 && fresh(table) && Filled(1, n)
        modifies table
      {
        FillColumn(n);
        n := n + 1;
      }
    }

    /** The first n entries of the first table. */
    ghost predicate Row(n: nat)
      reads table
    {
      table.Length0 == 8 && table.Length1 == 256 && n <= 256
      && forall m :: 0 <= m < n ==> table[0, m] == Entry(0, m as bv32)
    }

    method StoreFirst(n: nat, ghost v: bv32, crc: bv32)
      requires n < 256 && Row(n) && v == n as bv32 && crc == Entry(0, v)
      modifies table
      ensures Row(n + 1)
    {
      table[0, n] := crc;
    }

    /** The first loop of crc32c_init_sw */
    method FillFirst()
      requires table.Length0 == 8 && table.Length1 == 256
      modifies table
      ensures Filled(1, 0)
    {
      var n := 0;
      while n < 256
        invariant 0 <= n <= 256 && Row(n)
      {
        var v := n as bv32;
        var crc := FirstEntry(v);
        StoreFirst(n, v, crc);
        n := n + 1;
      }
    }

    /** The entries of n in the first k tables. */
    ghost predicate Column(n: nat, v: bv32, k: nat)
      reads table
    {
      table.Length0 == 8 && table.Length1 == 256 && n < 256 && k <= 8
      && forall j :: 0 <= j < k ==> table[j, n] == Entry(j, v)
    }

    method Store(k: nat, n: nat, ghost v: bv32, crc: bv32)
      requires 1 <= k < 8 && Filled(1, n) && Column(n, v, k) && crc == Entry(k, v)
      modifies table
      ensures Filled(1, n) && Column(n, v, k + 1)
    {
      table[k, n] := crc;
    }

    /** The inner loop of crc32c_init_sw: the entries of n in the tables 1 to 7 */
    method FillColumn(n: nat)
      requires n < 256 && Filled(1, n)
      modifies table
      ensures Filled(1, n + 1)
    {
      ghost var v := n as bv32;
      var crc := table[0, n];
      var k := 1;
      while k < 8
        invariant 1 <= k <= 8 && Filled(1, n) && crc == Entry(k - 1, v) && Column(n, v, k)
      {
        var d := Look(crc);
        NextEntry(k, v, crc, d);
        crc := d;
        Store(k, n, v, crc);
        k := k + 1;
      }
      ColumnDone(n, v);
    }

    lemma {:induction false} ColumnDone(n: nat, v: bv32)
      requires Filled(1, n) && n < 256 && v == n as bv32 && Column(n, v, 8)
      ensures Filled(1, n + 1)
    {
    }

    /** An entry, by a byte of the state */
    method At(k: nat, v: bv32) returns (t: bv32)
      requires Ready() && k < 8 && v <= 0xff
      ensures t == Entry(k, v)
    {
      var n := v as int;
      Index(v, n);
      t := table[k, n];
    }

    /** crc = crc32c_table[0][(crc ^ *next++) & 0xff] ^ (crc >> 8) */
    method ByteStep(crc: bv32, b: bv8) returns (r: bv32)
      requires Ready()
      ensures r == Bytes(crc, Words([b]))
    {
      var x := Xor(crc, b as bv32);
      ByteLane(crc, b, x);
      LowSmall(x);
      var t := At(0, x & 0xff);
      r := Xor(t, crc >> 8);
      TableStep(8, x, x & 0xff, crc >> 8);
      OneByte(crc, b, r);
    }

    /** The body of the loop over eight bytes; the 64-bit state is kept in two halves */
    method EightStep(crc: bv32, d: seq<bv8>) returns (r: bv32)
      requires Ready() && |d| == 8
      ensures r == Bytes(crc, Words(d))
    {
      var low := Xor(crc, Half(d[0] as bv32, d[1] as bv32, d[2] as bv32, d[3] as bv32));
      var high := Half(d[4] as bv32, d[5] as bv32, d[6] as bv32, d[7] as bv32);
      r := EightEntries(low, high);
      EightBytes(crc, d, low, high);
    }

    /** The exclusive or of the eight entries */
    method EightEntries(low: bv32, high: bv32) returns (t: bv32)
      requires Ready()
      ensures t == Combined(Split(low), Split(high))
    {
      var l, h := Split(low), Split(high);
      SplitSmall(low);
      SplitSmall(high);
      t := At(7, l.a);
      var u := At(6, l.b);
      t := Xor(t, u);
      u := At(5, l.c);
      t := Xor(t, u);
      u := At(4, l.d);
      t := Xor(t, u);
      u := At(3, h.a);
      t := Xor(t, u);
      u := At(2, h.b);
      t := Xor(t, u);
      u := At(1, h.c);
      t := Xor(t, u);
      u := At(0, h.d);
      t := Xor(t, u);
    }

    /** The state after the first `next` bytes. */
    ghost predicate Fed(crc: bv32, init: bv32, buf: seq<bv8>, next: nat) {
      next <= |buf| && crc == Bytes(init, Words(buf[..next]))
    }

    lemma {:induction false} NoneFed(init: bv32, buf: seq<bv8>)
      ensures Fed(init, init, buf, 0)
    {
      assert Words(buf[..0]) == [];
    }

    method FeedOne(crc: bv32, buf: seq<bv8>, next: nat, ghost init: bv32) returns (r: bv32)
      requires Ready() && Fed(crc, init, buf, next) && next < |buf|
      ensures Fed(r, init, buf, next + 1)
    {
      BytesMore(init, buf, next, next + 1);
      r := ByteStep(crc, buf[next]);
    }

    method FeedEight(crc: bv32, buf: seq<bv8>, next: nat, ghost init: bv32) returns (r: bv32)
      requires Ready() && Fed(crc, init, buf, next) && next + 8 <= |buf|
      ensures Fed(r, init, buf, next + 8)
    {
      BytesMore(init, buf, next, next + 8);
      r := EightStep(crc, buf[next..next + 8]);
    }

    /** crc32c_sw for a buffer at address addr */
    method Update(crci: bv32, buf: seq<bv8>, addr: nat) returns (result: bv32)
      requires Ready()
      ensures result == Crc(crci, buf)
    {
      hide Crc;
      hide Ready;
      hide Bytes;
      var init := crci ^ 0xffffffff;
      var crc, next := init, 0;
      NoneFed(init, buf);
      while next < |buf| && (addr + next) % 8 != 0
        invariant Fed(crc, init, buf, next)
      {
        crc := FeedOne(crc, buf, next, init);
        next := next + 1;
      }
      while |buf| - next >= 8
        invariant Fed(crc, init, buf, next)
      {
        crc := FeedEight(crc, buf, next, init);
        next := next + 8;
      }
      while next < |buf|
        invariant Fed(crc, init, buf, next)
      {
        crc := FeedOne(crc, buf, next, init);
        next := next + 1;
      }
      BytesAll(init, buf);
      CrcIs(crci, buf, init, crc);
      result := crc ^ 0xffffffff;
    }
  }

  /** The four bytes of a word, lowest first. */
  datatype Quad = Quad(a: bv32, b: bv32, c: bv32, d: bv32)

  function Split(x: bv32): Quad {
    Quad(x & 0xff, (x >> 8) & 0xff, (x >> 16) & 0xff, x >> 24)
  }

  lemma {:induction false} SplitSmall(x: bv32)
    ensures Split(x).a <= 0xff && Split(x).b <= 0xff && Split(x).c <= 0xff && Split(x).d <= 0xff
  {
  }

  function Combined(l: Quad, h: Quad): bv32 {
    Xor(Xor(Xor(Xor(Xor(Xor(Xor(Entry(7, l.a), Entry(6, l.b)), Entry(5, l.c)), Entry(4, l.d)),
                Entry(3, h.a)), Entry(2, h.b)), Entry(1, h.c)), Entry(0, h.d))
  }

  lemma {:induction false} ByteLane(crc: bv32, b: bv8, x: bv32)
    requires x == Xor(crc, b as bv32)
    ensures crc >> 8 == x >> 8
  {
  }

  lemma {:induction false} BytesAll(init: bv32, buf: seq<bv8>)
    ensures Bytes(init, Words(buf[..|buf|])) == FeedBits(init, Bits(buf))
  {
    assert buf[..|buf|] == buf;
    BitsAreBytes(init, buf);
  }

  lemma {:induction false} OneByte(c: bv32, b: bv8, r: bv32)
    requires r == Iter(Shift, 8, Xor(c, b as bv32))
    ensures r == Bytes(c, Words([b]))
  {
    var w := Words([b]);
    BytesStep(c, w, r);
    assert w[1..] == [];
  }

  lemma {:induction false} MixTwo(y: bv32, items: seq<bv32>, y1: bv32, y2: bv32)
    requires |items| >= 2 && y1 == y >> 8 && y2 == y1 >> 8
    ensures Mix(y, items) == [Xor(items[0], y & 0xff), Xor(items[1], y1 & 0xff)] + Mix(y2, items[2..])
  {
    MixStep(y, items, y1);
    MixStep(y1, items[1..], y2);
    assert items[1..][1..] == items[2..];
  }

  lemma {:induction false} Concat4(a: bv32, b: bv32, c: bv32, d: bv32, r: seq<bv32>)
    ensures [a, b] + ([c, d] + r) == [a, b, c, d] + r
  {
  }

  lemma {:induction false} MixFour(y: bv32, items: seq<bv32>, y1: bv32, y2: bv32, y3: bv32, y4: bv32)
    requires |items| >= 4 && y1 == y >> 8 && y2 == y1 >> 8 && y3 == y2 >> 8 && y4 == y3 >> 8
    ensures Mix(y, items)
            == [Xor(items[0], y & 0xff), Xor(items[1], y1 & 0xff), Xor(items[2], y2 & 0xff), Xor(items[3], y3 & 0xff)]
                             + Mix(y4, items[4..])
  {
    var rest := items[2..];
    assert rest[0] == items[2] && rest[1] == items[3] && rest[2..] == items[4..];
    MixTwo(y, items, y1, y2);
    MixTwo(y2, rest, y3, y4);
    Concat4(Xor(items[0], y & 0xff), Xor(items[1], y1 & 0xff), Xor(items[2], y2 & 0xff),
        Xor(items[3], y3 & 0xff), Mix(y4, items[4..]));
  }

  lemma {:induction false} FourMixed(y: bv32, a: bv32, b: bv32, c: bv32, d: bv32, x: bv32, y1: bv32, y2: bv32, y3: bv32,
                                     y4: bv32)
    requires a <= 0xff && b <= 0xff && c <= 0xff && d <= 0xff && x == Xor(y, Half(a, b, c, d))
    requires y1 == y >> 8 && y2 == y1 >> 8 && y3 == y2 >> 8 && y4 == y3 >> 8
    ensures Split(x) == Quad(Xor(a, y & 0xff), Xor(b, y1 & 0xff), Xor(c, y2 & 0xff), Xor(d, y3 & 0xff)) && y4 == 0
  {
    FourSteps(y, y1, y2, y3, y4);
    FourLanes(y, a, b, c, d, x);
  }

  /** Four bytes and the state above them. */
  lemma {:induction false} QuadMixed(y: bv32, w: seq<bv32>, x: bv32, zero: bv32)
    requires |w| >= 4 && w[0] <= 0xff && w[1] <= 0xff && w[2] <= 0xff && w[3] <= 0xff && zero == 0
    requires x == Xor(y, Half(w[0], w[1], w[2], w[3]))
    ensures Mix(y, w) == [Split(x).a, Split(x).b, Split(x).c, Split(x).d] + Mix(zero, w[4..])
  {
    var y1 := y >> 8;
    var y2 := y1 >> 8;
    var y3 := y2 >> 8;
    var y4 := y3 >> 8;
    MixFour(y, w, y1, y2, y3, y4);
    FourMixed(y, w[0], w[1], w[2], w[3], x, y1, y2, y3, y4);
  }

  lemma {:induction false} WordsSmall(d: seq<bv8>, i: nat)
    requires i < |d|
    ensures Words(d)[i] <= 0xff
  {
    ByteSmall(d[i], Words(d)[i]);
  }

  lemma {:induction false} AllSmall(d: seq<bv8>, w: seq<bv32>)
    requires |d| == 8 && w == Words(d)
    ensures w[0] <= 0xff && w[1] <= 0xff && w[2] <= 0xff && w[3] <= 0xff
    ensures w[4] <= 0xff && w[5] <= 0xff && w[6] <= 0xff && w[7] <= 0xff
  {
    forall i | 0 <= i < 8
      ensures w[i] <= 0xff
    {
      WordsSmall(d, i);
    }
  }

  lemma {:induction false} EightMixed(c: bv32, d: seq<bv8>, w: seq<bv32>, low: bv32, high: bv32, zero: bv32)
    requires |d| == 8 && w == Words(d) && zero == 0
    requires low == Xor(c, Half(w[0], w[1], w[2], w[3])) && high == Xor(zero, Half(w[4], w[5], w[6], w[7]))
    ensures var l, h := Split(low), Split(high); Mix(c, w) == [l.a, l.b, l.c, l.d] + [h.a, h.b, h.c, h.d]
  {
    AllSmall(d, w);
    var t := w[4..];
    assert t[0] == w[4] && t[1] == w[5] && t[2] == w[6] && t[3] == w[7] && t[4..] == [];
    QuadMixed(c, w, low, zero);
    QuadMixed(zero, t, high, zero);
    MixEmpty(zero, t[4..], [Split(high).a, Split(high).b, Split(high).c, Split(high).d]);
  }

  lemma {:induction false} MixEmpty(y: bv32, items: seq<bv32>, s: seq<bv32>)
    requires items == []
    ensures s + Mix(y, items) == s
  {
  }

  lemma {:induction false} EightBytes(c: bv32, d: seq<bv8>, low: bv32, high: bv32)
    requires |d| == 8 && low == Xor(c, Half(d[0] as bv32, d[1] as bv32, d[2] as bv32, d[3] as bv32))
    requires high == Half(d[4] as bv32, d[5] as bv32, d[6] as bv32, d[7] as bv32)
    ensures Combined(Split(low), Split(high)) == Bytes(c, Words(d))
  {
    var zero: bv32 := 0;
    XorZero(high, zero);
    EightMixed(c, d, Words(d), low, high, zero);
    EightCombined(c, Words(d), Split(low), Split(high), zero);
  }

  lemma {:induction false} EightCombined(c: bv32, w: seq<bv32>, l: Quad, h: Quad, zero: bv32)
    requires |w| == 8 && Mix(c, w) == [l.a, l.b, l.c, l.d] + [h.a, h.b, h.c, h.d] && zero == 0
    ensures Combined(l, h) == Bytes(c, w)
  {
    var e := Mix(c, w);
    assert e[0] == l.a && e[1] == l.b && e[2] == l.c && e[3] == l.d && e[4] == h.a && e[5] == h.b
           && e[6] == h.c && e[7] == h.d;
    SlicingByEight(c, w, e, zero);
    CombinedIs(l, h, zero);
  }

  lemma {:induction false} CombinedIs(l: Quad, h: Quad, zero: bv32)
    requires zero == 0
    ensures Combined(l, h)
            == Xor(Entry(7, l.a), Xor(Entry(6, l.b), Xor(Entry(5, l.c), Xor(Entry(4, l.d),
               Xor(Entry(3, h.a), Xor(Entry(2, h.b), Xor(Entry(1, h.c), Xor(Entry(0, h.d), zero))))))))
  {
    XorAnyOrder();
    XorZero(Entry(0, h.d), zero);
    Regroup(Xor, Entry(7, l.a), Entry(6, l.b), Entry(5, l.c), Entry(4, l.d), Entry(3, h.a),
        Entry(2, h.b), Entry(1, h.c), Entry(0, h.d));
  }

  lemma {:induction false} WordsAppend(x: seq<bv8>, y: seq<bv8>)
    ensures Words(x + y) == Words(x) + Words(y)
    decreases |x|
  {
    if x == [] {
      assert x + y == y;
    } else {
      assert (x + y)[1..] == x[1..] + y;
      WordsAppend(x[1..], y);
    }
  }

  lemma {:induction false} BytesMore(init: bv32, buf: seq<bv8>, i: nat, j: nat)
    requires i <= j <= |buf|
    ensures Bytes(init, Words(buf[..j])) == Bytes(Bytes(init, Words(buf[..i])), Words(buf[i..j]))
    ensures j == i + 1 ==> buf[i..j] == [buf[i]]
  {
    assert buf[..j] == buf[..i] + buf[i..j];
    WordsAppend(buf[..i], buf[i..j]);
    FoldAppend(Shift, Xor, 8, init, Words(buf[..i]), Words(buf[i..j]));
  }

  // ----- laws -----

  lemma {:induction false} BitsAppend(x: seq<bv8>, y: seq<bv8>)
    ensures Bits(x + y) == Bits(x) + Bits(y)
    decreases |x|
  {
    if x == [] {
      assert x + y == y;
    } else {
      assert (x + y)[1..] == x[1..] + y;
      BitsAppend(x[1..], y);
    }
  }

  lemma {:induction false} Uncomplement(a: bv32, k: bv32)
    requires k == a ^ 0xffffffff
    ensures k ^ 0xffffffff == a
  {
  }

  lemma {:induction false} CrcIs(c: bv32, data: seq<bv8>, i: bv32, a: bv32)
    requires i == c ^ 0xffffffff && a == FeedBits(i, Bits(data))
    ensures Crc(c, data) == a ^ 0xffffffff
  {
  }

  /** The CRC of a message in two parts, the second started from the result of the first. */
  lemma {:induction false} CrcAppend(c: bv32, x: seq<bv8>, y: seq<bv8>)
    ensures Crc(Crc(c, x), y) == Crc(c, x + y)
  {
    var i := c ^ 0xffffffff;
    var a := FeedBits(i, Bits(x));
    var k := Crc(c, x);
    var b := FeedBits(a, Bits(y));
    CrcIs(c, x, i, a);
    Uncomplement(a, k);
    CrcIs(k, y, a, b);
    BitsAppend(x, y);
    FeedAppend(i, Bits(x), Bits(y));
    CrcIs(c, x + y, i, b);
  }
}
