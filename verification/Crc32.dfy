/** The Ethernet CRC-32 (clause 3.2.9 of IEEE 802.3-2018) as the benches compute it,
    reflected and without the final complement, and what it detects. */
module Crc32 {

  const POLY: bv32 := 0xEDB88320
  const ONES: bv32 := 0xFFFFFFFF
  const RESIDUE: bv32 := 0xDEBB20E3

  // Bit-vector operations by name, so that proofs can use their laws alone.

  function Xor(a: bv32, b: bv32): bv32 { a ^ b }

  function Half(c: bv32): bv32 { c >> 1 }

  predicate Low(c: bv32) { c & 1 == 1 }

  function Feed(low: bool): bv32 { if low then POLY else 0 }

  /** One bit shifted out, and the polynomial fed back if it was set. */
  function Bit(c: bv32): bv32 { Xor(Half(c), Feed(Low(c))) }

  function Shift(c: bv32, n: nat): bv32
    decreases n
  {
    if n == 0 then c else Shift(Bit(c), n - 1)
  }

  function CrcStep(c: bv32, b: bv8): bv32 { Shift(Xor(c, b as bv32), 8) }

  function CrcRaw(data: seq<bv8>, c: bv32): bv32
    decreases |data|
  {
    if data == [] then c else CrcRaw(data[1..], CrcStep(c, data[0]))
  }

  method CrcStepLoop(c0: bv32, b: bv8) returns (c: bv32)
    ensures c == CrcStep(c0, b)
  {
    c := c0 ^ (b as bv32);
    for i := 0 to 8
      invariant Shift(c, 8 - i) == CrcStep(c0, b)
    {
      BitByCases(c);
      c := if c & 1 == 1 then (c >> 1) ^ POLY else c >> 1;
    }
  }

  method CrcRawLoop(data: seq<bv8>, c0: bv32) returns (c: bv32)
    ensures c == CrcRaw(data, c0)
  {
    c := c0;
    for i := 0 to |data|
      invariant CrcRaw(data[i..], c) == CrcRaw(data, c0)
    {
      assert data[i..][1..] == data[i + 1..];
      c := CrcStepLoop(c, data[i]);
    }
  }

  lemma Opened(c: bv32)
    ensures Low(c) <==> c & 1 == 1
    ensures Half(c) == c >> 1
    ensures Xor(c >> 1, POLY) == (c >> 1) ^ POLY
  {
  }

  lemma BitByCases(c: bv32)
    ensures Bit(c) == if c & 1 == 1 then (c >> 1) ^ POLY else c >> 1
  {
    hide Low, Half, Xor;
    Opened(c);
    XorZero(Half(c));
  }

  // ------------------------------------------------------ the register is linear

  lemma HalfLinear(a: bv32, b: bv32)
    ensures Half(Xor(a, b)) == Xor(Half(a), Half(b))
    ensures Low(Xor(a, b)) == (Low(a) != Low(b))
  {
  }

  lemma FeedLinear(a: bool, b: bool)
    ensures Feed(a != b) == Xor(Feed(a), Feed(b))
  {
  }

  lemma XorOrder(a: bv32, b: bv32, c: bv32)
    ensures Xor(Xor(a, b), c) == Xor(a, Xor(b, c))
    ensures Xor(a, b) == Xor(b, a)
  {
  }

  lemma XorSwaps(a: bv32, b: bv32, c: bv32, d: bv32)
    ensures Xor(Xor(a, b), Xor(c, d)) == Xor(Xor(a, c), Xor(b, d))
  {
    hide Xor;
    XorOrder(a, b, Xor(c, d));
    XorOrder(b, c, d);
    XorOrder(c, b, d);
    XorOrder(a, c, Xor(b, d));
  }

  lemma XorCancels(a: bv32, b: bv32, c: bv32)
    ensures Xor(a, c) == Xor(b, c) <==> a == b
    ensures Xor(c, a) == Xor(c, b) <==> a == b
  {
  }

  lemma BitLinear(a: bv32, b: bv32)
    ensures Bit(Xor(a, b)) == Xor(Bit(a), Bit(b))
  {
    hide Xor, Half, Low, Feed;
    HalfLinear(a, b);
    FeedLinear(Low(a), Low(b));
    XorSwaps(Half(a), Half(b), Feed(Low(a)), Feed(Low(b)));
  }

  /** The polynomial's top bit, and only it, reaches the place a shift leaves clear. */
  lemma TopTells(x: bv32)
    requires x < 0x80000000
    ensures (x ^ 0xEDB88320) >= 0x80000000
    ensures x ^ 0 == x
  {
  }

  lemma FedApart(x: bv32, y: bv32, p: bool, q: bool)
    requires x < 0x80000000 && y < 0x80000000
    requires Xor(x, Feed(p)) == Xor(y, Feed(q))
    ensures x == y && p == q
  {
    TopTells(x);
    TopTells(y);
    if p == q {
      hide Xor, Feed;
      XorCancels(x, y, Feed(p));
    }
  }

  lemma Halved(a: bv32, b: bv32)
    ensures Half(a) < 0x80000000
    ensures Half(a) == Half(b) && Low(a) == Low(b) ==> a == b
  {
  }

  lemma BitInjective(a: bv32, b: bv32)
    requires Bit(a) == Bit(b)
    ensures a == b
  {
    hide Xor, Half, Low, Feed;
    Halved(a, b);
    Halved(b, a);
    FedApart(Half(a), Half(b), Low(a), Low(b));
  }

  lemma {:induction false} ShiftLinear(a: bv32, b: bv32, n: nat)
    ensures Shift(Xor(a, b), n) == Xor(Shift(a, n), Shift(b, n))
    decreases n
  {
    hide Xor, Bit;
    if n > 0 {
      BitLinear(a, b);
      ShiftLinear(Bit(a), Bit(b), n - 1);
    }
  }

  lemma {:induction false} ShiftInjective(a: bv32, b: bv32, n: nat)
    requires Shift(a, n) == Shift(b, n)
    ensures a == b
    decreases n
  {
    hide Bit;
    if n > 0 {
      ShiftInjective(Bit(a), Bit(b), n - 1);
      BitInjective(a, b);
    }
  }

  // ------------------------------------------------------ bit by bit

  /** The n lowest bits, least significant first. */
  function BitsOf(x: bv32, n: nat): (r: seq<bool>)
    ensures |r| == n
    decreases n
  {
    if n == 0 then [] else [Low(x)] + BitsOf(Half(x), n - 1)
  }

  /** A byte's bits as the wire sends them. */
  function Bits(b: bv8): (r: seq<bool>)
    ensures |r| == 8
  {
    BitsOf(b as bv32, 8)
  }

  function AllBits(d: seq<bv8>): (r: seq<bool>)
    ensures |r| == 8 * |d|
  {
    if d == [] then [] else Bits(d[0]) + AllBits(d[1..])
  }

  function In(x: bool): bv32 { if x then 1 else 0 }

  function Or(a: bv32, b: bv32): bv32 { a | b }

  function Double(x: bv32): bv32 { x << 1 }

  function Push(b: bool, x: bv32): bv32 { Or(In(b), Double(x)) }

  /** The register after these bits. */
  function BitRun(c: bv32, w: seq<bool>): bv32
    decreases |w|
  {
    if w == [] then c else BitRun(Bit(Xor(c, In(w[0]))), w[1..])
  }

  /** The bits as a number, the first one lowest. */
  function Number(w: seq<bool>): bv32 {
    if w == [] then 0 else Push(w[0], Number(w[1..]))
  }

  /** 2 to the n. */
  function Limit(n: nat): bv32
    requires n <= 31
    decreases 31 - n
  {
    if n == 31 then 0x80000000 else Half(Limit(n + 1))
  }

  lemma LimitByte()
    ensures Limit(8) == 0x100
  {
    assert Limit(24) == 0x1000000;
    assert Limit(16) == 0x10000;
  }

  lemma LimitZero()
    ensures Limit(0) == 1
  {
    LimitByte();
  }

  lemma {:induction false} LimitAtMostTop(n: nat)
    requires n <= 31
    ensures Limit(n) <= 0x80000000
    decreases 31 - n
  {
    if n < 31 {
      LimitAtMostTop(n + 1);
      Halved(Limit(n + 1), 0);
    }
  }

  lemma Doubled(x: bv32, l: bv32, b: bv32)
    requires x < (l >> 1) && b <= 1
    ensures b | (x << 1) < l
  {
  }

  predicate Under(x: bv32, l: bv32) { x < l }

  lemma PushBelow(x: bv32, l: bv32, b: bool)
    requires Under(x, Half(l))
    ensures Under(Push(b, x), l)
  {
    if b { Doubled(x, l, 1); } else { Doubled(x, l, 0); }
  }

  lemma LimitHalves(n: nat)
    requires 1 <= n <= 31
    ensures Limit(n - 1) == Half(Limit(n))
  {
    hide Half;
  }

  lemma {:induction false} NumberUnder(w: seq<bool>)
    requires |w| <= 31
    ensures Under(Number(w), Limit(|w|))
  {
    if w == [] {
      LimitZero();
    } else {
      hide Push, Limit, Half, Under;
      NumberUnder(w[1..]);
      LimitHalves(|w|);
      PushBelow(Number(w[1..]), Limit(|w|), w[0]);
    }
  }

  lemma NumberBelow(w: seq<bool>)
    requires |w| <= 31
    ensures Number(w) < 0x80000000
  {
    hide Limit, Number;
    NumberUnder(w);
    LimitAtMostTop(|w|);
  }

  lemma PushApart(c: bv32, b: bool, x: bv32)
    ensures Xor(c, Push(b, x)) == Xor(Xor(c, In(b)), Push(false, x))
  {
  }

  lemma PushFalse(x: bv32)
    requires x < 0x80000000
    ensures Bit(Push(false, x)) == x
  {
    assert Half(Push(false, x)) == x;
    assert !Low(Push(false, x));
    TopTells(x);
  }

  /** Up to 32 bits may be taken in at once: feedback from one cannot reach the place of
      another before its turn. */
  lemma {:induction false} AllAtOnce(c: bv32, w: seq<bool>)
    requires |w| <= 32
    ensures BitRun(c, w) == Shift(Xor(c, Number(w)), |w|)
    decreases |w|
  {
    hide Xor, Push, Bit, In;
    if w == [] {
      XorZero(c);
    } else {
      var x := Number(w[1..]);
      var d := Xor(c, In(w[0]));
      AllAtOnce(Bit(d), w[1..]);
      NumberBelow(w[1..]);
      PushFalse(x);
      BitLinear(d, Push(false, x));
      PushApart(c, w[0], x);
    }
  }

  lemma XorZero(c: bv32)
    ensures Xor(c, 0) == c
  {
  }

  lemma {:induction false} BitRunConcat(c: bv32, v: seq<bool>, w: seq<bool>)
    ensures BitRun(c, v + w) == BitRun(BitRun(c, v), w)
    decreases |v|
  {
    hide Bit, Xor, In;
    if v == [] {
      assert v + w == w;
    } else {
      assert (v + w)[1..] == v[1..] + w;
      BitRunConcat(Bit(Xor(c, In(v[0]))), v[1..], w);
    }
  }

  /** Shifted left by n. */
  function Up(x: bv32, n: nat): bv32
    decreases n
  {
    if n == 0 then x else Push(false, Up(x, n - 1))
  }

  lemma Rebuild(x: bv32)
    ensures Push(Low(x), Half(x)) == x
  {
    hide Push, Low, Half;
    Halved(x, 0);
    PushSplits(Low(x), Half(x));
    Halved(Push(Low(x), Half(x)), x);
  }

  lemma PushIsOr(b: bool, x: bv32)
    ensures Push(b, x) == Or(In(b), Double(x))
    ensures Push(false, x) == Double(x)
  {
    hide Or, Double;
    OrZero(Double(x));
  }

  lemma DoubleOr(h: bv32, u: bv32)
    ensures Double(Or(h, u)) == Or(Double(h), Double(u))
  {
  }

  lemma OrOrder(a: bv32, b: bv32, c: bv32)
    ensures Or(Or(a, b), c) == Or(a, Or(b, c))
  {
  }

  lemma PushOr(b: bool, h: bv32, u: bv32)
    ensures Push(b, Or(h, u)) == Or(Push(b, h), Push(false, u))
  {
    hide Push, Or, Double, In;
    PushIsOr(b, Or(h, u));
    PushIsOr(b, h);
    PushIsOr(b, u);
    DoubleOr(h, u);
    OrOrder(In(b), Double(h), Double(u));
  }

  /** Nothing set from bit n up. */
  predicate Fits(x: bv32, n: nat)
    decreases n
  {
    if n == 0 then x == 0 else Fits(Half(x), n - 1)
  }

  lemma {:induction false} NumberOfBits(x: bv32, n: nat, rest: seq<bool>)
    requires Fits(x, n)
    ensures Number(BitsOf(x, n) + rest) == Or(x, Up(Number(rest), n))
    decreases n
  {
    hide Push, Half, Low, Or;
    if n == 0 {
      assert BitsOf(x, n) + rest == rest;
      OrZero(Number(rest));
    } else {
      var w := BitsOf(Half(x), n - 1);
      assert (BitsOf(x, n) + rest)[1..] == w + rest;
      NumberOfBits(Half(x), n - 1, rest);
      Rebuild(x);
      PushOr(Low(x), Half(x), Up(Number(rest), n - 1));
    }
  }

  lemma OrZero(x: bv32)
    ensures Or(0, x) == x
    ensures Or(x, 0) == x
  {
  }

  lemma UpByte(x: bv32)
    ensures Up(x, 8) == x << 8
  {
    assert 0 | (x << 1) == x << 1;
    assert 0 | ((x << 1) << 1) == x << 2;
    assert 0 | ((x << 2) << 1) == x << 3;
    assert 0 | ((x << 3) << 1) == x << 4;
    assert 0 | ((x << 4) << 1) == x << 5;
    assert 0 | ((x << 5) << 1) == x << 6;
    assert 0 | ((x << 6) << 1) == x << 7;
    assert 0 | ((x << 7) << 1) == x << 8;
  }

  lemma UpZero()
    ensures Up(0, 8) == 0
  {
    UpByte(0);
  }

  lemma ByteFits(b: bv8)
    ensures Fits(b as bv32, 8)
  {
    var x := b as bv32;
    assert (x >> 1) >> 1 == x >> 2;
    assert (x >> 2) >> 1 == x >> 3;
    assert (x >> 3) >> 1 == x >> 4;
    assert (x >> 4) >> 1 == x >> 5;
    assert (x >> 5) >> 1 == x >> 6;
    assert (x >> 6) >> 1 == x >> 7;
    assert (x >> 7) >> 1 == 0;
  }

  lemma NumberOfByte(b: bv8, rest: seq<bool>)
    ensures Number(Bits(b) + rest) == Or(b as bv32, Up(Number(rest), 8))
  {
    hide Number, BitsOf, Or, Up, Fits;
    ByteFits(b);
    NumberOfBits(b as bv32, 8, rest);
  }

  lemma EightBits(b: bv8)
    ensures Number(Bits(b)) == b as bv32
  {
    hide Bits, Or, Up;
    NumberOfByte(b, []);
    assert Bits(b) + [] == Bits(b);
    UpZero();
    OrZero(b as bv32);
  }

  /** The byte-wise CRC is the bit-serial one over the wire's bits. */
  lemma {:induction false} ByteWiseIsBitSerial(d: seq<bv8>, c: bv32)
    ensures CrcRaw(d, c) == BitRun(c, AllBits(d))
    decreases |d|
  {
    hide Xor, Shift, Bits, Bit;
    if d != [] {
      EightBits(d[0]);
      AllAtOnce(c, Bits(d[0]));
      BitRunConcat(c, Bits(d[0]), AllBits(d[1..]));
      ByteWiseIsBitSerial(d[1..], CrcStep(c, d[0]));
    }
  }

  // ------------------------------------------------------ bursts

  lemma {:induction false} BitRunInjective(a: bv32, b: bv32, w: seq<bool>)
    requires BitRun(a, w) == BitRun(b, w)
    ensures a == b
    decreases |w|
  {
    hide Bit, Xor, In;
    if w != [] {
      var x, y := Xor(a, In(w[0])), Xor(b, In(w[0]));
      BitRunInjective(Bit(x), Bit(y), w[1..]);
      BitInjective(x, y);
      XorCancels(a, b, In(w[0]));
    }
  }

  lemma {:induction false} NumberInjective(v: seq<bool>, w: seq<bool>)
    requires |v| == |w| <= 32 && Number(v) == Number(w)
    ensures v == w
  {
    hide Push;
    if v != [] {
      NumberBelow(v[1..]);
      NumberBelow(w[1..]);
      PushInjective(v[0], Number(v[1..]), w[0], Number(w[1..]));
      NumberInjective(v[1..], w[1..]);
      assert v == [v[0]] + v[1..] && w == [w[0]] + w[1..];
    }
  }

  lemma PushSplits(b: bool, x: bv32)
    requires x < 0x80000000
    ensures Half(Push(b, x)) == x && Low(Push(b, x)) == b
  {
    PushedBits(In(b), x);
  }

  lemma PushedBits(b: bv32, x: bv32)
    requires b <= 1 && x < 0x80000000
    ensures (b | (x << 1)) >> 1 == x && (b | (x << 1)) & 1 == b
  {
  }

  lemma PushInjective(a: bool, x: bv32, b: bool, y: bv32)
    requires x < 0x80000000 && y < 0x80000000 && Push(a, x) == Push(b, y)
    ensures a == b && x == y
  {
    hide Half, Low, Push;
    PushSplits(a, x);
    PushSplits(b, y);
  }

  /** No burst of at most 32 bits, wherever it falls in a stream of any length, leaves
      the register as it was. */
  lemma BurstChangesRegister(c: bv32, pre: seq<bool>, v: seq<bool>, w: seq<bool>, post: seq<bool>)
    requires |v| == |w| <= 32 && v != w
    ensures BitRun(c, pre + v + post) != BitRun(c, pre + w + post)
  {
    hide BitRun, Shift, Xor, Number;
    var s := BitRun(c, pre);
    BitRunConcat(c, pre + v, post);
    BitRunConcat(c, pre + w, post);
    BitRunConcat(c, pre, v);
    BitRunConcat(c, pre, w);
    if BitRun(c, pre + v + post) == BitRun(c, pre + w + post) {
      BitRunInjective(BitRun(s, v), BitRun(s, w), post);
      AllAtOnce(s, v);
      AllAtOnce(s, w);
      ShiftInjective(Xor(s, Number(v)), Xor(s, Number(w)), |v|);
      XorCancels(Number(v), Number(w), s);
      NumberInjective(v, w);
    }
  }

  lemma {:induction false} AllBitsConcat(d: seq<bv8>, e: seq<bv8>)
    ensures AllBits(d + e) == AllBits(d) + AllBits(e)
  {
    if d == [] {
      assert d + e == e;
    } else {
      assert (d + e)[1..] == d[1..] + e;
      AllBitsConcat(d[1..], e);
    }
  }

  lemma Widened(a: bv8, b: bv8)
    ensures a as bv32 == b as bv32 <==> a == b
  {
  }

  lemma {:induction false} AllBitsInjective(d: seq<bv8>, e: seq<bv8>)
    requires |d| == |e| && AllBits(d) == AllBits(e)
    ensures d == e
  {
    hide Bits, Number;
    if d != [] {
      assert AllBits(d)[..8] == Bits(d[0]) && AllBits(e)[..8] == Bits(e[0]);
      assert AllBits(d)[8..] == AllBits(d[1..]) && AllBits(e)[8..] == AllBits(e[1..]);
      EightBits(d[0]);
      EightBits(e[0]);
      Widened(d[0], e[0]);
      AllBitsInjective(d[1..], e[1..]);
      assert d == [d[0]] + d[1..] && e == [e[0]] + e[1..];
    }
  }

  // ------------------------------------------------------ the check sequence

  function LittleEndian(c: bv32): (r: seq<bv8>)
    ensures |r| == 4
  {
    [(c & 0xFF) as bv8, ((c >> 8) & 0xFF) as bv8, ((c >> 16) & 0xFF) as bv8, (c >> 24) as bv8]
  }

  function FromLittle(w: seq<bv8>): bv32
    requires |w| == 4
  {
    w[0] as bv32 | (w[1] as bv32 << 8) | (w[2] as bv32 << 16) | (w[3] as bv32 << 24)
  }

  lemma LittleRoundTrip(c: bv32, w: seq<bv8>)
    requires |w| == 4
    ensures FromLittle(LittleEndian(c)) == c
    ensures LittleEndian(FromLittle(w)) == w
  {
  }

  function Fcs(p: seq<bv8>): bv32 { Xor(ONES, CrcRaw(p, ONES)) }

  function FcsBytes(p: seq<bv8>): (r: seq<bv8>)
    ensures |r| == 4
  {
    LittleEndian(Fcs(p))
  }

  predicate FcsOk(p: seq<bv8>, wire: seq<bv8>)
    requires |wire| == 4
  {
    FromLittle(wire) == Fcs(p)
  }

  lemma {:induction false} CrcConcat(d: seq<bv8>, e: seq<bv8>, c: bv32)
    ensures CrcRaw(d + e, c) == CrcRaw(e, CrcRaw(d, c))
    decreases |d|
  {
    if d == [] {
      assert d + e == e;
    } else {
      assert (d + e)[1..] == d[1..] + e;
      CrcConcat(d[1..], e, CrcStep(c, d[0]));
    }
  }

  lemma NumberOfFour(w: seq<bv8>)
    requires |w| == 4
    ensures Number(AllBits(w)) == FromLittle(w)
  {
    hide Bits, Number, Or, Up, FromLittle;
    assert w[3..][1..] == [] && w[2..][1..] == w[3..] && w[1..][1..] == w[2..];
    NumberOfByte(w[2], AllBits(w[3..]));
    NumberOfByte(w[1], AllBits(w[2..]));
    NumberOfByte(w[0], AllBits(w[1..]));
    assert AllBits(w[3..]) == Bits(w[3]);
    EightBits(w[3]);
    FromLittleBytewise(w);
  }

  lemma FromLittleBytewise(w: seq<bv8>)
    requires |w| == 4
    ensures FromLittle(w) == Or(w[0] as bv32, Up(Or(w[1] as bv32, Up(Or(w[2] as bv32, Up(w[3] as bv32, 8)), 8)), 8))
  {
    hide Up, Or;
    var a, b, c, d := w[0] as bv32, w[1] as bv32, w[2] as bv32, w[3] as bv32;
    OneUp(c, d);
    OneUp(b, Or(c, Up(d, 8)));
    OneUp(a, Or(b, Up(Or(c, Up(d, 8)), 8)));
    Joined(a, b, c, d);
  }

  lemma OneUp(x: bv32, y: bv32)
    ensures Or(x, Up(y, 8)) == x | (y << 8)
  {
    hide Up;
    UpByte(y);
  }

  lemma Joined(a: bv32, b: bv32, c: bv32, d: bv32)
    ensures a | ((b | ((c | (d << 8)) << 8)) << 8) == a | (b << 8) | (c << 16) | (d << 24)
  {
  }

  /** Payload and four more bytes leave the residue exactly when those bytes are the
      little-endian complement of the payload's CRC. */
  lemma ResidueExactly(p: seq<bv8>, wire: seq<bv8>)
    requires |wire| == 4
    ensures CrcRaw(p + wire, ONES) == RESIDUE <==> wire == FcsBytes(p)
    ensures FcsOk(p, wire) <==> wire == FcsBytes(p)
  {
    hide Xor, Shift, Number, AllBits, FromLittle, LittleEndian, BitRun;
    var c := CrcRaw(p, ONES);
    var x := FromLittle(wire);
    CrcConcat(p, wire, ONES);
    ByteWiseIsBitSerial(wire, c);
    AllAtOnce(c, AllBits(wire));
    NumberOfFour(wire);
    OnesShifted();
    if Shift(Xor(c, x), 32) == RESIDUE { ShiftInjective(Xor(c, x), ONES, 32); }
    Complement(c, x);
    LittleRoundTrip(Fcs(p), wire);
  }

  lemma {:induction false} ShiftAdds(c: bv32, m: nat, n: nat)
    ensures Shift(c, m + n) == Shift(Shift(c, m), n)
    decreases m
  {
    hide Bit;
    if m > 0 { ShiftAdds(Bit(c), m - 1, n); }
  }

  lemma Shifted1() ensures Shift(0xFFFFFFFF, 8) == 0x2DFD1072 {}
  lemma Shifted2() ensures Shift(0x2DFD1072, 8) == 0xBE26ED00 {}
  lemma Shifted3() ensures Shift(0xBE26ED00, 8) == 0x00BE26ED {}
  lemma Shifted4() ensures Shift(0x00BE26ED, 8) == 0xDEBB20E3 {}

  lemma OnesShifted()
    ensures Shift(ONES, 32) == RESIDUE
  {
    hide Shift;
    Shifted1();
    Shifted2();
    Shifted3();
    Shifted4();
    ShiftAdds(ONES, 8, 24);
    ShiftAdds(0x2DFD1072, 8, 16);
    ShiftAdds(0xBE26ED00, 8, 8);
  }

  lemma XorUndoes(c: bv32, o: bv32)
    ensures Xor(c, Xor(o, c)) == o
  {
  }

  lemma Complement(c: bv32, x: bv32)
    ensures Xor(c, x) == ONES <==> x == Xor(ONES, c)
  {
    hide Xor;
    XorUndoes(c, ONES);
    XorCancels(x, Xor(ONES, c), c);
  }

  /** So on the wire: whatever happens to a frame inside one window of 32 bits, anywhere
      in its payload or FCS, the receiver sees it. */
  lemma BurstDetected(p: seq<bv8>, got: seq<bv8>, i: nat, n: nat)
    requires |got| == |p| + 4 && n <= 32 && i + n <= 8 * |got|
    requires var sent := p + FcsBytes(p);
      && got != sent
      && AllBits(got)[..i] == AllBits(sent)[..i] && AllBits(got)[i + n..] == AllBits(sent)[i + n..]
    ensures CrcRaw(got, ONES) != RESIDUE
    ensures !FcsOk(got[..|p|], got[|p|..])
  {
    hide BitRun, CrcRaw, FromLittle, AllBits, FcsBytes;
    var sent := p + FcsBytes(p);
    if AllBits(sent) == AllBits(got) { AllBitsInjective(sent, got); }
    BurstOnBits(ONES, AllBits(sent), AllBits(got), i, n);
    ByteWiseIsBitSerial(sent, ONES);
    ByteWiseIsBitSerial(got, ONES);
    ResidueExactly(p, FcsBytes(p));
    assert got == got[..|p|] + got[|p|..];
    ResidueExactly(got[..|p|], got[|p|..]);
  }

  lemma BurstOnBits(c: bv32, a: seq<bool>, b: seq<bool>, i: nat, n: nat)
    requires |a| == |b| && i + n <= |a| && n <= 32 && a != b
    requires a[..i] == b[..i] && a[i + n..] == b[i + n..]
    ensures BitRun(c, a) != BitRun(c, b)
  {
    assert a == a[..i] + a[i..i + n] + a[i + n..];
    assert b == a[..i] + b[i..i + n] + a[i + n..];
    BurstChangesRegister(c, a[..i], a[i..i + n], b[i..i + n], a[i + n..]);
  }

  /** In particular for changes to at most four consecutive bytes. */
  lemma BytesDetected(p: seq<bv8>, got: seq<bv8>, i: nat, k: nat)
    requires |got| == |p| + 4 && k <= 4 && i + k <= |got|
    requires var sent := p + FcsBytes(p);
      got != sent && got[..i] == sent[..i] && got[i + k..] == sent[i + k..]
    ensures CrcRaw(got, ONES) != RESIDUE
    ensures !FcsOk(got[..|p|], got[|p|..])
  {
    hide CrcRaw, FromLittle, AllBits;
    var sent := p + FcsBytes(p);
    Window(sent, i, k);
    Window(got, i, k);
    BurstDetected(p, got, 8 * i, 8 * k);
  }

  /** The driver's way of spoiling an FCS always shows. */
  lemma SpoiltFcsFails(p: seq<bv8>)
    ensures !FcsOk(p, FcsBytes(p)[0 := FcsBytes(p)[0] ^ 0xFF])
  {
    var wire := FcsBytes(p)[0 := FcsBytes(p)[0] ^ 0xFF];
    ResidueExactly(p, wire);
    assert wire[0] != FcsBytes(p)[0];
  }

  lemma Window(d: seq<bv8>, i: nat, k: nat)
    requires i + k <= |d|
    ensures AllBits(d)[..8 * i] == AllBits(d[..i])
    ensures AllBits(d)[8 * (i + k)..] == AllBits(d[i + k..])
  {
    hide AllBits;
    Split(d, i);
    Split(d, i + k);
  }

  lemma Split(d: seq<bv8>, i: nat)
    requires i <= |d|
    ensures AllBits(d)[..8 * i] == AllBits(d[..i])
    ensures AllBits(d)[8 * i..] == AllBits(d[i..])
  {
    hide AllBits;
    assert d == d[..i] + d[i..];
    AllBitsConcat(d[..i], d[i..]);
  }
}
