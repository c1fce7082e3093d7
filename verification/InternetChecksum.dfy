/** The Internet checksum of RFC 1071: 16-bit ones'-complement sums, with their
    two zeros, and what inserting or recomputing one does to a datagram. */
module InternetChecksum {

  type Byte = x: int | 0 <= x < 256
  type Word = x: int | 0 <= x < 65536

  /** The sum of the big-endian words; an odd last byte is a high byte. */
  function WordSum(d: seq<Byte>): nat {
    if d == [] then 0
    else if |d| == 1 then d[0] * 256
    else d[0] * 256 + d[1] + WordSum(d[2..])
  }

  /** Carries folded back in until 16 bits are left. */
  function Fold(s: nat): Word {
    if s < 65536 then s else Fold(s % 65536 + s / 65536)
  }

  function OnesSum(d: seq<Byte>): Word { Fold(WordSum(d)) }

  function Checksum(d: seq<Byte>): Word { 65535 - OnesSum(d) }

  /** How often 65535 is taken off in folding. */
  function Rounds(s: nat): nat {
    if s < 65536 then 0 else s / 65536 + Rounds(s % 65536 + s / 65536)
  }

  /** Folding subtracts multiples of 65535 and stops in 1..65535, or at 0 for 0. */
  lemma {:induction false} FoldSpec(s: nat)
    ensures s == Fold(s) + 65535 * Rounds(s)
    ensures Fold(s) == 0 <==> s == 0
  {
    if s >= 65536 { FoldSpec(s % 65536 + s / 65536); }
  }

  /** That determines the result. */
  lemma FoldUnique(s: nat, f: Word, q: int)
    requires s == f + 65535 * q && (f == 0 <==> s == 0)
    ensures Fold(s) == f
  {
    FoldSpec(s);
  }

  /** A sum reads as all ones exactly when the words add to a nonzero multiple of
      65535. */
  lemma OnesSumAllOnes(d: seq<Byte>)
    ensures OnesSum(d) == 0xFFFF <==> WordSum(d) > 0 && WordSum(d) % 65535 == 0
  {
    var s := WordSum(d);
    FoldSpec(s);
    if s > 0 && s % 65535 == 0 { FoldUnique(s, 0xFFFF, s / 65535 - 1); }
    if OnesSum(d) == 0xFFFF { assert s == 65535 * (Rounds(s) + 1); }
  }

  lemma {:induction false} SumConcat(a: seq<Byte>, b: seq<Byte>)
    requires |a| % 2 == 0
    ensures WordSum(a + b) == WordSum(a) + WordSum(b)
  {
    if a == [] {
      assert a + b == b;
    } else {
      assert (a + b)[2..] == a[2..] + b;
      SumConcat(a[2..], b);
    }
  }

  function Be16(v: Word): seq<Byte> { [v / 256, v % 256] }

  function Word16(d: seq<Byte>, i: nat): Word
    requires i + 2 <= |d|
  {
    d[i] as int * 256 + d[i + 1] as int
  }

  function Put16(d: seq<Byte>, i: nat, v: Word): (r: seq<Byte>)
    requires i + 2 <= |d|
    ensures |r| == |d| && Word16(r, i) == v
    ensures forall k :: 0 <= k < |d| && k != i && k != i + 1 ==> r[k] == d[k]
  {
    d[i := v / 256][i + 1 := v % 256]
  }

  /** Writing an aligned word moves the sum by the word's change. */
  lemma {:induction false} SumPut(d: seq<Byte>, i: nat, v: Word)
    requires i + 2 <= |d| && i % 2 == 0
    ensures WordSum(Put16(d, i, v)) == WordSum(d) - Word16(d, i) + v
  {
    var r := Put16(d, i, v);
    if i == 0 {
      assert r[2..] == d[2..];
    } else {
      assert r[2..] == Put16(d[2..], i - 2, v);
      SumPut(d[2..], i - 2, v);
    }
  }

  /** The checksum inserted in its zeroed, aligned field makes the sum all ones; and
      when it comes out zero, all ones in its place does too. */
  lemma InsertVerifies(d: seq<Byte>, i: nat)
    requires i + 2 <= |d| && i % 2 == 0 && Word16(d, i) == 0
    ensures OnesSum(Put16(d, i, Checksum(d))) == 0xFFFF
    ensures Checksum(d) == 0 ==> OnesSum(Put16(d, i, 0xFFFF)) == 0xFFFF
  {
    var s := WordSum(d);
    SumPut(d, i, Checksum(d));
    SumPut(d, i, 0xFFFF);
    FoldSpec(s);
    FoldUnique(s + Checksum(d), 0xFFFF, Rounds(s));
    if Checksum(d) == 0 { FoldUnique(s + 0xFFFF, 0xFFFF, Rounds(s) + 1); }
  }

  /** Conversely, a field that verifies holds the checksum of the rest, or the other
      zero. */
  lemma VerifiesIsChecksum(d: seq<Byte>, i: nat)
    requires i + 2 <= |d| && i % 2 == 0 && OnesSum(d) == 0xFFFF
    ensures var z := Put16(d, i, 0);
      Word16(d, i) == Checksum(z) || (Checksum(z) == 0 && Word16(d, i) == 0xFFFF)
  {
    var z := Put16(d, i, 0);
    SumPut(d, i, 0);
    FoldSpec(WordSum(z));
    FoldSpec(WordSum(d));
    assert 65535 * (Rounds(WordSum(d)) - Rounds(WordSum(z)) + 1) == Word16(d, i) + Fold(WordSum(z));
  }

  // ------------------------------------------------------ bits flipped on purpose

  function Flip(x: Word, bit: nat): Word
    requires bit == 1 || bit == 0x100 || bit == 0x8000
  {
    if x / bit % 2 == 1 then x - bit else x + bit
  }

  /** c ^ 0x8001 */
  function SpoilIp(c: Word): Word { Flip(Flip(c, 1), 0x8000) }

  /** c ^ 0x0101 */
  function SpoilL4(c: Word): Word { Flip(Flip(c, 1), 0x100) }

  lemma SpoilL4Facts(c: Word)
    ensures SpoilL4(c) != c
    ensures SpoilL4(c) == 0 <==> c == 0x0101
    ensures SpoilL4(0) == 0x0101
  {
  }

  /** A spoiled header checksum never verifies, whatever the header. */
  lemma SpoiledFails(d: seq<Byte>, i: nat)
    requires i + 2 <= |d| && i % 2 == 0 && Word16(d, i) == 0
    ensures OnesSum(Put16(d, i, SpoilIp(Checksum(d)))) != 0xFFFF
  {
    var c: int := Checksum(d);
    var b: int := SpoilIp(Checksum(d));
    var s := WordSum(d);
    SumPut(d, i, b);
    FoldSpec(s);
    FoldSpec(s + b);
    assert b - c == 0x8001 || b - c == 0x7FFF || b - c == -0x7FFF || b - c == -0x8001;
    assert s + b == 65535 * (Rounds(s) + 1) + (b - c);
  }

  // ------------------------------------------------------ the other byte order

  /** The sum of the same bytes as little-endian words, as a little-endian kernel
      adds them. */
  function LittleSum(d: seq<Byte>): nat {
    if d == [] then 0
    else if |d| == 1 then d[0]
    else d[0] + d[1] * 256 + LittleSum(d[2..])
  }

  function Swap16(v: Word): Word { v % 256 * 256 + v / 256 }

  /** 256 times a word is its byte-swapped self, modulo 65535. */
  function High(d: seq<Byte>): nat {
    if d == [] then 0 else d[0] + if |d| == 1 then 0 else High(d[2..])
  }

  lemma {:induction false} LittleCongruent(d: seq<Byte>)
    ensures 256 * WordSum(d) == LittleSum(d) + 65535 * High(d)
    ensures LittleSum(d) == 0 <==> WordSum(d) == 0
  {
    if |d| >= 2 { LittleCongruent(d[2..]); }
  }

  /** Sums do not depend on the order bytes are taken in: adding little-endian words
      gives the byte-swapped sum, so the bytes stored are the same. */
  lemma ByteOrderIndependent(d: seq<Byte>)
    ensures Fold(LittleSum(d)) == Swap16(OnesSum(d))
  {
    LittleCongruent(d);
    FoldSpec(WordSum(d));
    var f: int := OnesSum(d);
    assert 256 * f == 65535 * (f / 256) + Swap16(f);
    FoldUnique(LittleSum(d), Swap16(f), f / 256 + 256 * Rounds(WordSum(d)) - High(d));
  }

  // ------------------------------------------------------ the loops

  /** The reference loop: pad to even, add words, fold. */
  method OnesSumLoop(data: seq<Byte>) returns (s: nat)
    ensures s == OnesSum(data)
  {
    var d := if |data| % 2 == 1 then data + [0] else data;
    s := 0;
    var i := 0;
    while i < |d|
      invariant 0 <= i <= |d| && i % 2 == 0
      invariant s + WordSum(d[i..]) == WordSum(d)
    {
      assert d[i..][2..] == d[i + 2..];
      s := s + (d[i] as int * 256 + d[i + 1] as int);
      i := i + 2;
    }
    if |data| % 2 == 1 { PaddedSum(data); }
    while s >= 65536
      invariant Fold(s) == OnesSum(data)
    {
      s := s % 65536 + s / 65536;
    }
  }

  lemma {:induction false} PaddedSum(d: seq<Byte>)
    requires |d| % 2 == 1
    ensures WordSum(d + [0]) == WordSum(d)
  {
    if |d| > 1 {
      assert (d + [0])[2..] == d[2..] + [0];
      PaddedSum(d[2..]);
    }
  }
}
