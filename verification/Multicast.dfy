/** The multicast filter: the driver's hash of a group address, the filter's, and which
    addresses a programmed table lets through. */
module Multicast {

  /** A 48-bit destination as a number, first byte highest. */
  function Number(addr: seq<bv8>): bv64
    decreases |addr|
  {
    if addr == [] then 0 else (Number(addr[..|addr| - 1]) << 8) | (addr[|addr| - 1] as bv64)
  }

  /** The i-th 6-bit slice, from the low end. */
  function Slice(v: bv64, i: nat): bv6
    requires i < 8
  {
    (match i
     case 0 => v & 0x3F
     case 1 => (v >> 6) & 0x3F
     case 2 => (v >> 12) & 0x3F
     case 3 => (v >> 18) & 0x3F
     case 4 => (v >> 24) & 0x3F
     case 5 => (v >> 30) & 0x3F
     case 6 => (v >> 36) & 0x3F
     case _ => (v >> 42) & 0x3F) as bv6
  }

  /** XOR of the first n slices. */
  function Fold(v: bv64, n: nat): bv6
    requires n <= 8
  {
    if n == 0 then 0 else Fold(v, n - 1) ^ Slice(v, n - 1)
  }

  /** The bucket of an address. */
  function Bucket(addr: seq<bv8>): (i: nat)
    ensures i < 64
  {
    Fold(Number(addr), 8) as nat
  }

  /** Bit k of a bucket, of an address byte. */
  predicate Bit6(h: bv6, k: nat)
    requires k < 6
  {
    match k
    case 0 => h & 0x01 != 0 case 1 => h & 0x02 != 0 case 2 => h & 0x04 != 0
    case 3 => h & 0x08 != 0 case 4 => h & 0x10 != 0 case _ => h & 0x20 != 0
  }

  predicate Bit8(x: bv8, k: nat)
    requires k < 8
  {
    match k
    case 0 => x & 0x01 != 0 case 1 => x & 0x02 != 0 case 2 => x & 0x04 != 0 case 3 => x & 0x08 != 0
    case 4 => x & 0x10 != 0 case 5 => x & 0x20 != 0 case 6 => x & 0x40 != 0 case _ => x & 0x80 != 0
  }

  /** Bit j of an address, counted from its last byte's lowest. */
  predicate AddrBit(addr: seq<bv8>, j: nat)
    requires |addr| == 6 && j < 48
  {
    Bit8(addr[5 - j / 8], j % 8)
  }

  /** Whether an odd number of the first n of the bits b, b + 6, b + 12, ... is set. */
  predicate OddBits(addr: seq<bv8>, b: nat, n: nat)
    requires |addr| == 6 && b < 6 && n <= 8
  {
    n > 0 && OddBits(addr, b, n - 1) != AddrBit(addr, b + 6 * (n - 1))
  }

  lemma Joined(a: bv64, b: bv64, c: bv64, d: bv64, e: bv64, f: bv64)
    ensures (((((((((a << 8) | b) << 8) | c) << 8) | d) << 8) | e) << 8) | f
         == (a << 40) | (b << 32) | (c << 24) | (d << 16) | (e << 8) | f
  {
  }

  lemma NumberStep(addr: seq<bv8>, k: nat)
    requires 0 < k <= |addr|
    ensures Number(addr[..k]) == (Number(addr[..k - 1]) << 8) | (addr[k - 1] as bv64)
    ensures Number(addr[..0]) == 0
  {
    assert addr[..k][..k - 1] == addr[..k - 1];
  }

  lemma NumberOf(addr: seq<bv8>)
    requires |addr| == 6
    ensures Number(addr) ==
      ((addr[0] as bv64) << 40) | ((addr[1] as bv64) << 32) | ((addr[2] as bv64) << 24)
      | ((addr[3] as bv64) << 16) | ((addr[4] as bv64) << 8) | (addr[5] as bv64)
  {
    hide Number;
    NumberStep(addr, 1);
    NumberStep(addr, 2);
    NumberStep(addr, 3);
    NumberStep(addr, 4);
    NumberStep(addr, 5);
    NumberStep(addr, 6);
    assert addr[..6] == addr;
    Joined(addr[0] as bv64, addr[1] as bv64, addr[2] as bv64, addr[3] as bv64, addr[4] as bv64, addr[5] as bv64);
  }

  /** Six bits of one byte, or of two. */
  function Low(x: bv8): bv6 { (x & 0x3F) as bv6 }

  function LowMid(x: bv8, y: bv8): bv6 { ((x >> 6) | ((y & 0x0F) << 2)) as bv6 }

  function MidHigh(x: bv8, y: bv8): bv6 { ((x >> 4) | ((y & 0x03) << 4)) as bv6 }

  function High(x: bv8): bv6 { (x >> 2) as bv6 }

  lemma SixOf(x: bv8, y: bv8, k: nat)
    requires k < 6
    ensures Bit6(Low(x), k) <==> Bit8(x, k)
    ensures Bit6(LowMid(x, y), k) <==> if k < 2 then Bit8(x, 6 + k) else Bit8(y, k - 2)
    ensures Bit6(MidHigh(x, y), k) <==> if k < 4 then Bit8(x, 4 + k) else Bit8(y, k - 4)
    ensures Bit6(High(x), k) <==> Bit8(x, 2 + k)
  {
    match k case 0 => case 1 => case 2 => case 3 => case 4 => case _ =>
  }

  lemma Slices(v: bv64, a: bv8, b: bv8, c: bv8, d: bv8, e: bv8, f: bv8)
    requires v == ((a as bv64) << 40) | ((b as bv64) << 32) | ((c as bv64) << 24)
      | ((d as bv64) << 16) | ((e as bv64) << 8) | (f as bv64)
    ensures Slice(v, 0) == Low(f) && Slice(v, 1) == LowMid(f, e) && Slice(v, 2) == MidHigh(e, d)
    ensures Slice(v, 3) == High(d) && Slice(v, 4) == Low(c) && Slice(v, 5) == LowMid(c, b)
    ensures Slice(v, 6) == MidHigh(b, a) && Slice(v, 7) == High(a)
  {
  }

  lemma AddrSlices(addr: seq<bv8>)
    requires |addr| == 6
    ensures var v := Number(addr);
      && Slice(v, 0) == Low(addr[5]) && Slice(v, 1) == LowMid(addr[5], addr[4])
      && Slice(v, 2) == MidHigh(addr[4], addr[3]) && Slice(v, 3) == High(addr[3])
      && Slice(v, 4) == Low(addr[2]) && Slice(v, 5) == LowMid(addr[2], addr[1])
      && Slice(v, 6) == MidHigh(addr[1], addr[0]) && Slice(v, 7) == High(addr[0])
  {
    hide *;
    NumberOf(addr);
    Slices(Number(addr), addr[0], addr[1], addr[2], addr[3], addr[4], addr[5]);
  }

  lemma AddrBitAt(addr: seq<bv8>, m: nat, r: nat)
    requires |addr| == 6 && m < 6 && r < 8
    ensures AddrBit(addr, 8 * m + r) <==> Bit8(addr[5 - m], r)
  {
    hide Bit8;
  }

  lemma ByteBits(addr: seq<bv8>, m: nat, k: nat)
    requires |addr| == 6 && m < 6 && k < 6
    ensures Bit6(Low(addr[5 - m]), k) <==> AddrBit(addr, 8 * m + k)
    ensures Bit6(High(addr[5 - m]), k) <==> AddrBit(addr, 8 * m + 2 + k)
    ensures m < 5 ==> (Bit6(LowMid(addr[5 - m], addr[4 - m]), k) <==> AddrBit(addr, 8 * m + 6 + k))
    ensures m < 5 ==> (Bit6(MidHigh(addr[5 - m], addr[4 - m]), k) <==> AddrBit(addr, 8 * m + 4 + k))
  {
    hide Bit6, Bit8, Low, LowMid, MidHigh, High;
    var x := addr[5 - m];
    var y := if m < 5 then addr[4 - m] else x;
    SixOf(x, y, k);
  }

  lemma EachSlice(addr: seq<bv8>, k: nat)
    requires |addr| == 6 && k < 6
    ensures var v := Number(addr);
      && (Bit6(Slice(v, 0), k) <==> AddrBit(addr, k)) && (Bit6(Slice(v, 1), k) <==> AddrBit(addr, 6 + k))
      && (Bit6(Slice(v, 2), k) <==> AddrBit(addr, 12 + k)) && (Bit6(Slice(v, 3), k) <==> AddrBit(addr, 18 + k))
      && (Bit6(Slice(v, 4), k) <==> AddrBit(addr, 24 + k)) && (Bit6(Slice(v, 5), k) <==> AddrBit(addr, 30 + k))
      && (Bit6(Slice(v, 6), k) <==> AddrBit(addr, 36 + k)) && (Bit6(Slice(v, 7), k) <==> AddrBit(addr, 42 + k))
  {
    hide *;
    AddrSlices(addr);
    ByteBits(addr, 0, k);
    ByteBits(addr, 1, k);
    ByteBits(addr, 2, k);
    ByteBits(addr, 3, k);
    ByteBits(addr, 4, k);
    ByteBits(addr, 5, k);
  }

  /** The i-th slice is the i-th six bits of the address. */
  lemma SliceBits(addr: seq<bv8>, i: nat, k: nat)
    requires |addr| == 6 && i < 8 && k < 6
    ensures Bit6(Slice(Number(addr), i), k) <==> AddrBit(addr, 6 * i + k)
  {
    hide *;
    EachSlice(addr, k);
  }

  lemma XorBits(x: bv6, y: bv6, k: nat)
    requires k < 6
    ensures Bit6(x ^ y, k) == (Bit6(x, k) != Bit6(y, k))
    ensures !Bit6(0, k)
  {
    match k case 0 => case 1 => case 2 => case 3 => case 4 => case _ =>
  }

  lemma {:induction false} FoldBits(addr: seq<bv8>, b: nat, n: nat)
    requires |addr| == 6 && b < 6 && n <= 8
    ensures Bit6(Fold(Number(addr), n), b) <==> OddBits(addr, b, n)
  {
    hide Number, Slice, Bit6, AddrBit;
    XorBits(0, 0, b);
    if n > 0 {
      var v := Number(addr);
      FoldBits(addr, b, n - 1);
      SliceBits(addr, n - 1, b);
      XorBits(Fold(v, n - 1), Slice(v, n - 1), b);
    }
  }

  /** Bit b of an address's bucket is the parity of its bits b, b + 6, ..., b + 42. */
  lemma BucketBits(addr: seq<bv8>, b: nat)
    requires |addr| == 6 && b < 6
    ensures Bit6(Bucket(addr) as bv6, b) <==> OddBits(addr, b, 8)
  {
    hide Number, Bit6, AddrBit, Fold;
    FoldBits(addr, b, 8);
    assert Bucket(addr) as bv6 == Fold(Number(addr), 8);
  }

  /** emz_mcast_hash() */
  method DriverHash(addr: seq<bv8>) returns (r: nat)
    requires |addr| == 6
    ensures r == Bucket(addr)
  {
    var v: bv64 := 0;
    for i := 0 to 6
      invariant v == Number(addr[..i])
    {
      assert addr[..i + 1][..i] == addr[..i];
      v := (v << 8) | (addr[i] as bv64);
    }
    assert addr[..6] == addr;
    var h: bv6 := 0;
    for i := 0 to 8
      invariant h == Fold(v, i)
    {
      h := h ^ Slice(v, i);
    }
    return h as nat;
  }

  /** The filter's index, as the RTL folds the destination. */
  method FilterIndex(dst: bv64) returns (r: nat)
    ensures r == Fold(dst, 8) as nat < 64
  {
    var idx: bv6 := 0;
    for k := 0 to 8
      invariant idx == Fold(dst, k)
    {
      idx := idx ^ Slice(dst, k);
    }
    return idx as nat;
  }

  // ------------------------------------------------------ the table

  /** 64 bits, lowest first, and what the two 32-bit registers take of them. */
  type Bits64 = s: seq<bool> | |s| == 64 witness seq(64, _ => false)
  type Bits32 = s: seq<bool> | |s| == 32 witness seq(32, _ => false)

  datatype Filter = Filter(lo: Bits32, hi: Bits32, promisc: bool)

  /** A group address of this bucket gets past the filter. */
  predicate Admits(f: Filter, idx: nat)
    requires idx < 64
  {
    f.promisc || if idx < 32 then f.lo[idx] else f.hi[idx - 32]
  }

  predicate InBucket(list: seq<seq<bv8>>, idx: nat) { exists k :: 0 <= k < |list| && Bucket(list[k]) == idx }

  datatype Mode = Mode(promisc: bool, allmulti: bool, list: seq<seq<bv8>>)

  /** The hash table of a list. */
  method Table(list: seq<seq<bv8>>) returns (hash: Bits64)
    requires forall a :: a in list ==> |a| == 6
    ensures forall idx :: 0 <= idx < 64 ==> (hash[idx] <==> InBucket(list, idx))
    ensures (true in hash) <==> list != []
  {
    hide Bucket;
    hash := seq(64, _ => false);
    for i := 0 to |list|
      invariant forall idx :: 0 <= idx < 64 ==> (hash[idx] <==> InBucket(list[..i], idx))
      invariant (true in hash) <==> i > 0
    {
      assert list[i] in list;
      var h := DriverHash(list[i]);
      ghost var before := hash;
      hash := hash[h := true];
      assert hash[h];
      forall idx | 0 <= idx < 64 ensures InBucket(list[..i + 1], idx) <==> InBucket(list[..i], idx) || idx == h {
        OneMore(list[..i], list[i], idx);
        assert list[..i + 1] == list[..i] + [list[i]];
      }
    }
    assert list[..|list|] == list;
  }

  lemma OneMore(list: seq<seq<bv8>>, a: seq<bv8>, idx: nat)
    ensures InBucket(list + [a], idx) <==> InBucket(list, idx) || Bucket(a) == idx
  {
    hide Bucket;
    var more := list + [a];
    if k :| 0 <= k < |list| && Bucket(list[k]) == idx { assert Bucket(more[k]) == idx; }
    if Bucket(a) == idx { assert Bucket(more[|list|]) == idx; }
  }

  /** emz_set_rx_mode(): the filter as it leaves it; without the hash filter in the
      build the registers keep what they held. */
  method SetRxMode(m: Mode, hasHash: bool, before: Filter) returns (f: Filter)
    requires forall a :: a in m.list ==> |a| == 6
    ensures hasHash ==> forall idx :: 0 <= idx < 64 ==>
      (Admits(f, idx) <==> m.promisc || m.allmulti || InBucket(m.list, idx))
    ensures hasHash ==> f.promisc == m.promisc && forall j :: 0 <= j < 32 ==>
      && (f.lo[j] <==> m.allmulti || InBucket(m.list, j))
      && (f.hi[j] <==> m.allmulti || InBucket(m.list, 32 + j))
    ensures !hasHash ==> f == before.(promisc := m.promisc || m.allmulti || m.list != [])
  {
    var hash: Bits64;
    if m.allmulti {
      hash := seq(64, _ => true);
      assert hash[0];
    } else {
      hash := Table(m.list);
    }
    var promisc := m.promisc;
    f := before;
    if hasHash {
      f := f.(lo := hash[..32], hi := hash[32..]);
    } else if true in hash {
      promisc := true;
    }
    f := f.(promisc := promisc);
  }

  /** Every subscribed group address is let through, whatever the flags and the build. */
  method Subscribed(m: Mode, hasHash: bool, before: Filter, i: nat) returns (ok: bool)
    requires forall a :: a in m.list ==> |a| == 6
    requires i < |m.list|
    ensures ok
  {
    var f := SetRxMode(m, hasHash, before);
    var idx := FilterIndex(Number(m.list[i]));
    assert idx == Bucket(m.list[i]);
    assert InBucket(m.list, idx);
    ok := Admits(f, idx);
  }
}
