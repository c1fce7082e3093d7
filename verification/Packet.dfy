/** The checksum tests' packet builder and its judge: Ethernet frames with an
    optional tag, carrying IPv4 or IPv6 with any protocol, and what a checksum
    engine should find in them (RFC 791, RFC 768, RFC 9293, section 8.1 of
    RFC 8200). */
module Packet {
  import opened InternetChecksum
  import IpOptions

  const ICMP: Byte := 1
  const TCP: Byte := 6
  const UDP: Byte := 17
  const ICMPV6: Byte := 58

  datatype Tag = Untagged | Dot1Q | Dot1AD
  datatype Family = NotIp | V4 | V6

  /** A built packet.  tci, ident, addrs and l4 are what the seeded generator drew;
      l4 has its checksum field zero and, for UDP, its Length written. */
  datatype Packet = Packet(
    vlan: Tag, tci: Word,
    family: Family, proto: Byte, ihl: nat, mf: bool, fragOff: nat,
    addrs: seq<Byte>, ident: Word, opts: seq<Byte>, l4: seq<Byte>,
    trailer: seq<Byte>,
    badIp: bool, badL4: bool, udpZero: bool,
    udpLen: nat,              // the UDP Length field, |l4| unless asked otherwise
    truncate: nat)

  /** Offset of the checksum in an L4 header; 0 for a protocol without one. */
  function FieldOffset(proto: Byte): nat {
    if proto == TCP then 16 else if proto == UDP then 6 else if proto == ICMP || proto == ICMPV6 then 2 else 0
  }

  predicate HasField(p: Packet) { FieldOffset(p.proto) > 0 && |p.l4| >= FieldOffset(p.proto) + 2 }

  function IpHeaderLen(p: Packet): nat { if p.family == V4 then p.ihl * 4 else 40 }

  /** The field widths the builder writes into, and the shape build() leaves. */
  predicate Built(p: Packet) {
    && (p.family == V4 ==> 5 <= p.ihl <= 15 && |p.addrs| == 8 && |p.opts| == p.ihl * 4 - 20
                           && p.ihl * 4 + |p.l4| < 65536)
    && (p.family == V6 ==> |p.addrs| == 32 && |p.l4| < 65536)
    && p.udpLen < 65536
    && (p.proto == UDP && |p.l4| >= 6 ==> Word16(p.l4, 4) == p.udpLen)
    && (HasField(p) ==> Word16(p.l4, FieldOffset(p.proto)) == 0)
  }

  // ------------------------------------------------------ builder

  function Take(d: seq<Byte>, n: nat): seq<Byte> { if n <= |d| then d[..n] else d }

  /** The datagram cut short; a cut longer than the datagram counts from its end again,
      as a negative slice bound does. */
  function Cut(d: seq<Byte>, n: nat): (r: seq<Byte>)
    ensures r <= d
    ensures |r| + n == (if n <= |d| then |d| else if n <= 2 * |d| then 2 * |d| else n)
  {
    if n <= |d| then d[..|d| - n] else if n <= 2 * |d| then d[..2 * |d| - n] else []
  }

  /** Bytes the L4 checksum covers. */
  function Coverage(p: Packet): nat { if p.proto == UDP then p.udpLen else |p.l4| }

  function PseudoHeader(p: Packet, n: nat): seq<Byte>
    requires n < 65536
  {
    if p.proto == ICMP && p.family == V4 then []
    else if p.family == V6 then p.addrs + [0, 0] + Be16(n) + [0, 0, 0, p.proto]
    else p.addrs + [0, p.proto] + Be16(n)
  }

  /** Checksum of l4, its field zero, over its first cover bytes. */
  function L4Checksum(p: Packet, l4: seq<Byte>, cover: nat): Word
    requires |l4| < 65536
  {
    Checksum(PseudoHeader(p, |Take(l4, cover)|) + Take(l4, cover))
  }

  predicate Applies(p: Packet, udpLen: nat) {
    && HasField(p)
    && (p.proto == UDP ==> 8 <= udpLen <= |p.l4|)
    && (match p.family
        case V4 => (p.proto == TCP || p.proto == UDP || p.proto == ICMP) && !p.mf && p.fragOff == 0
                   && !IpOptions.Skip(p.opts)
        case V6 => p.proto == TCP || p.proto == UDP || p.proto == ICMPV6
        case NotIp => false)
  }

  /** The value UDP sends for a computed zero. */
  function Sent(proto: Byte, c: Word): Word { if proto == UDP && c == 0 then 0xFFFF else c }

  /** What the builder writes in the field. */
  function FieldValue(p: Packet): Word
    requires |p.l4| < 65536
  {
    var c := if p.proto == UDP && p.udpZero then 0 else Sent(p.proto, L4Checksum(p, p.l4, Coverage(p)));
    if p.badL4 then SpoilL4(c) else c
  }

  function L4Bytes(p: Packet): (r: seq<Byte>)
    requires |p.l4| < 65536
    ensures |r| == |p.l4|
  {
    if Applies(p, Coverage(p)) then Put16(p.l4, FieldOffset(p.proto), FieldValue(p)) else p.l4
  }

  function Header4Zero(p: Packet): (h: seq<Byte>)
    requires Built(p) && p.family == V4
    ensures |h| == p.ihl * 4 && Word16(h, 10) == 0
  {
    [0x40 + p.ihl, 0] + Be16(p.ihl * 4 + |p.l4|) + Be16(p.ident)
    + Be16((if p.mf then 0x2000 else 0) + p.fragOff % 0x2000) + [64, p.proto, 0, 0] + p.addrs + p.opts
  }

  function IpHeader(p: Packet): (h: seq<Byte>)
    requires Built(p) && p.family != NotIp
    ensures |h| == IpHeaderLen(p)
  {
    if p.family == V4 then
      var h := Header4Zero(p);
      Put16(h, 10, if p.badIp then SpoilIp(Checksum(h)) else Checksum(h))
    else
      [0x60, 0, 0, 0] + Be16(|p.l4|) + [p.proto, 64] + p.addrs
  }

  function EthHeader(p: Packet): (h: seq<Byte>)
    ensures |h| == L3Offset(p)
  {
    [2, 0, 0, 0, 0, 1, 0x0a, 0x0b, 0x0c, 0x0d, 0x0e, 0x0f]
    + (match p.vlan
       case Untagged => []
       case Dot1Q => [0x81, 0x00] + Be16(p.tci)
       case Dot1AD => [0x88, 0xa8] + Be16(p.tci))
    + (match p.family case NotIp => [0x88, 0xb5] case V4 => [0x08, 0x00] case V6 => [0x86, 0xdd])
  }

  function L3Offset(p: Packet): nat { if p.vlan == Untagged then 14 else 18 }

  function Frame(p: Packet): seq<Byte>
    requires Built(p)
  {
    if p.family == NotIp then EthHeader(p) + p.l4 + p.trailer
    else
      var dgram := IpHeader(p) + L4Bytes(p);
      EthHeader(p) + Cut(dgram, p.truncate) + p.trailer
  }

  /** As a MAC pads on transmit. */
  function Pad60(f: seq<Byte>): seq<Byte> {
    if |f| < 60 then f + seq(60 - |f|, _ => 0) else f
  }

  // ------------------------------------------------------ judge

  datatype Verdict = Verdict(
    done: bool,      // the whole datagram is present
    ip4: bool,       // the IPv4 header checksum applies
    l4Ok: bool,      // the L4 checksum applies
    l3End: nat, l4Pos: nat,
    ipCsum: Word, l4Csum: Word,
    ipGood: bool, l4Good: bool)

  function L4Start(p: Packet): nat { L3Offset(p) + IpHeaderLen(p) }

  /** Bytes covered, with the UDP Length taken from the frame. */
  function Seen(p: Packet, f: seq<Byte>): nat {
    var l4s := L4Start(p);
    if p.proto == UDP && l4s + |p.l4| <= |f| && |p.l4| >= 6 then Word16(f, l4s + 4) else |p.l4|
  }

  /** The L4 half: the checksum l4 should hold, and whether what it holds passes. */
  function JudgeL4(p: Packet, l4: seq<Byte>, cover: nat): (Word, bool)
    requires HasField(p) && |l4| == |p.l4| < 65536
  {
    var off := FieldOffset(p.proto);
    var c := L4Checksum(p, Put16(l4, off, 0), cover);
    (c, (p.proto == UDP && Word16(l4, off) == 0) || Word16(l4, off) == Sent(p.proto, c))
  }

  /** Whether the L4 checksum applies to f, what it should be and whether it is good. */
  function L4Part(p: Packet, f: seq<Byte>): (bool, Word, bool)
    requires Built(p) && p.family != NotIp
  {
    var l4s := L4Start(p);
    if Applies(p, Seen(p, f)) && l4s + |p.l4| <= |f| then
      var (c, good) := JudgeL4(p, f[l4s..l4s + |p.l4|], Seen(p, f));
      (true, c, good)
    else (false, 0, false)
  }

  function Judge(p: Packet, f: seq<Byte>): Verdict
    requires Built(p)
  {
    if p.family == NotIp then Verdict(false, false, false, 0, 0, 0, 0, false, false)
    else
      var l4s := L4Start(p);
      var l3End := l4s + |p.l4|;
      var done := l3End <= |f|;
      var ip4 := p.family == V4 && l4s <= |f|;
      var ipGood := ip4 ==> OnesSum(f[L3Offset(p)..l4s]) == 0xFFFF;
      var ipCsum := if ip4 then Checksum(Put16(f[L3Offset(p)..l4s], 10, 0)) else 0;
      var (applies, l4Csum, l4Good) := L4Part(p, f);
      Verdict(done, ip4, applies, l3End, l4s + FieldOffset(p.proto), ipCsum, l4Csum, ipGood, l4Good)
  }

  // ------------------------------------------------------ builder and judge agree

  lemma Pieces(a: seq<Byte>, b: seq<Byte>, c: seq<Byte>, d: seq<Byte>)
    ensures var f := a + b + c + d;
      && f[..|a|] == a
      && f[|a|..|a| + |b|] == b
      && f[|a| + |b|..|a| + |b| + |c|] == c
  {
  }

  /** The parts of an untruncated frame, whatever follows it. */
  lemma Parts(p: Packet, f: seq<Byte>)
    requires Built(p) && p.family != NotIp && p.truncate == 0
    requires Frame(p) <= f
    ensures L4Start(p) + |p.l4| <= |f|
    ensures f[..L3Offset(p)] == EthHeader(p)
    ensures f[L3Offset(p)..L4Start(p)] == IpHeader(p)
    ensures f[L4Start(p)..L4Start(p) + |p.l4|] == L4Bytes(p)
  {
    var eth, ip, l4 := EthHeader(p), IpHeader(p), L4Bytes(p);
    var g := Frame(p);
    assert g == eth + ip + l4 + p.trailer;
    Pieces(eth, ip, l4, p.trailer + f[|g|..]);
    assert f == g + f[|g|..] == eth + ip + l4 + (p.trailer + f[|g|..]);
  }

  lemma PutBack(d: seq<Byte>, i: nat, v: Word)
    requires i + 2 <= |d| && Word16(d, i) == 0
    ensures Put16(Put16(d, i, v), i, 0) == d
  {
  }

  lemma HeaderAgrees(p: Packet)
    requires Built(p) && p.family == V4
    ensures OnesSum(IpHeader(p)) == 0xFFFF <==> !p.badIp
    ensures Put16(IpHeader(p), 10, 0) == Header4Zero(p)
  {
    var h := Header4Zero(p);
    InsertVerifies(h, 10);
    SpoiledFails(h, 10);
    PutBack(h, 10, if p.badIp then SpoilIp(Checksum(h)) else Checksum(h));
  }

  /** When a spoiled packet still passes: a UDP checksum spoiled to zero reads as none,
      and none spoiled may hit the right value. */
  predicate Escapes(p: Packet, c: Word) {
    p.proto == UDP && c == 0x0101
  }

  /** The checksum a good packet would carry is what the judge computes; a packet passes
      exactly when it was not spoiled, or escapes. */
  lemma L4Agrees(p: Packet)
    requires Built(p) && Applies(p, Coverage(p))
    ensures var (c, good) := JudgeL4(p, L4Bytes(p), Coverage(p));
      && c == L4Checksum(p, p.l4, Coverage(p))
      && (good <==> !p.badL4 || Escapes(p, c))
  {
    var off := FieldOffset(p.proto);
    PutBack(p.l4, off, FieldValue(p));
    SpoilL4Facts(Sent(p.proto, L4Checksum(p, p.l4, Coverage(p))));
    SpoilL4Facts(0);
  }

  /** The judge reads the UDP Length the builder wrote. */
  lemma LengthSeen(p: Packet, f: seq<Byte>)
    requires Built(p) && p.family != NotIp && p.truncate == 0 && Frame(p) <= f
    ensures HasField(p) ==> Seen(p, f) == Coverage(p)
  {
    Parts(p, f);
    if p.proto == UDP && |p.l4| >= 8 {
      var s := L4Start(p);
      assert Word16(f, s + 4) == Word16(f[s..s + |p.l4|], 4);
      assert Word16(L4Bytes(p), 4) == Word16(p.l4, 4);
    }
  }

  lemma JudgesHeader(p: Packet, f: seq<Byte>)
    requires Built(p) && p.family != NotIp && p.truncate == 0 && Frame(p) <= f
    ensures var v := Judge(p, f);
      && v.done && v.l3End == L4Start(p) + |p.l4|
      && (v.ip4 <==> p.family == V4)
      && (v.ipGood <==> !(p.family == V4 && p.badIp))
      && (v.ip4 ==> v.ipCsum == Checksum(Header4Zero(p)))
  {
    Parts(p, f);
    if p.family == V4 { HeaderAgrees(p); }
  }

  lemma JudgesL4(p: Packet, f: seq<Byte>)
    requires Built(p) && p.family != NotIp && p.truncate == 0 && Frame(p) <= f
    ensures var (ok, c, good) := L4Part(p, f);
      && (ok <==> Applies(p, Coverage(p)))
      && (ok ==> c == L4Checksum(p, p.l4, Coverage(p)))
      && (ok ==> (good <==> !p.badL4 || Escapes(p, c)))
  {
    hide Frame, L4Checksum, IpHeader;
    Parts(p, f);
    LengthSeen(p, f);
    if Applies(p, Coverage(p)) { L4Agrees(p); }
  }

  /** On every untruncated frame, padded or followed by anything: the judge finds the
      datagram whole; the IPv4 header good exactly when it was not spoiled; the L4
      checksum applicable exactly when the builder did; and then good exactly when it
      was not spoiled, but for UDP checksums of 0x0101. */
  lemma JudgeAgrees(p: Packet, f: seq<Byte>)
    requires Built(p) && p.family != NotIp && p.truncate == 0 && Frame(p) <= f
    ensures var v := Judge(p, f);
      && v.done && v.l3End == L4Start(p) + |p.l4|
      && (v.ip4 <==> p.family == V4)
      && (v.ipGood <==> !(p.family == V4 && p.badIp))
      && (v.ip4 ==> v.ipCsum == Checksum(Header4Zero(p)))
      && (v.l4Ok <==> Applies(p, Coverage(p)))
      && (v.l4Ok ==> v.l4Csum == L4Checksum(p, p.l4, Coverage(p)))
      && (v.l4Ok ==> (v.l4Good <==> !p.badL4 || Escapes(p, v.l4Csum)))
  {
    JudgesHeader(p, f);
    JudgesL4(p, f);
  }

  /** Padding is one of the things that may follow. */
  lemma JudgeAgreesPadded(p: Packet)
    requires Built(p) && p.family != NotIp && p.truncate == 0
    ensures Judge(p, Pad60(Frame(p))).done
    ensures Judge(p, Frame(p)) == Judge(p, Pad60(Frame(p)))
  {
    var f := Frame(p);
    var g := Pad60(f);
    assert f <= g;
    JudgeAgrees(p, f);
    JudgeAgrees(p, g);
    Parts(p, f);
    Parts(p, g);
    LengthSeen(p, f);
    LengthSeen(p, g);
  }

  // ------------------------------------------------------ what good means

  lemma TakePut(d: seq<Byte>, n: nat, i: nat, v: Word)
    requires i + 2 <= n <= |d|
    ensures Put16(d, i, v)[..n] == Put16(d[..n], i, v)
  {
  }

  lemma PutAfter(a: seq<Byte>, d: seq<Byte>, i: nat, v: Word)
    requires i + 2 <= |d|
    ensures Put16(a + d, |a| + i, v) == a + Put16(d, i, v)
    ensures Word16(a + d, |a| + i) == Word16(d, i)
  {
  }

  /** The checksum of the covered bytes, put into them behind their pseudo-header. */
  lemma CoveredVerifies(ph: seq<Byte>, d: seq<Byte>, i: nat, v: Word)
    requires |ph| % 2 == 0 && i % 2 == 0 && i + 2 <= |d| && Word16(d, i) == 0
    requires v == Checksum(ph + d) || (Checksum(ph + d) == 0 && v == 0xFFFF)
    ensures OnesSum(ph + Put16(d, i, v)) == 0xFFFF
  {
    PutAfter(ph, d, i, v);
    InsertVerifies(ph + d, |ph| + i);
  }

  /** A packet built without a fault carries a checksum every receiver accepts: the
      pseudo-header and the covered bytes in the frame add to all ones. */
  lemma GoodPacketVerifies(p: Packet, f: seq<Byte>)
    requires Built(p) && p.truncate == 0 && Frame(p) <= f
    requires Applies(p, Coverage(p)) && !p.badL4 && !(p.proto == UDP && p.udpZero)
    ensures L4Start(p) + Coverage(p) <= |f|
    ensures var covered := f[L4Start(p)..L4Start(p) + Coverage(p)];
      OnesSum(PseudoHeader(p, Coverage(p)) + covered) == 0xFFFF
  {
    hide Frame, OnesSum, PseudoHeader, L4Bytes;
    Parts(p, f);
    var n, s := Coverage(p), L4Start(p);
    assert f[s..s + n] == f[s..s + |p.l4|][..n] == L4Bytes(p)[..n];
    GoodL4Verifies(p);
  }

  lemma GoodL4Verifies(p: Packet)
    requires Built(p) && Applies(p, Coverage(p)) && !p.badL4 && !(p.proto == UDP && p.udpZero)
    ensures Coverage(p) <= |p.l4|
    ensures OnesSum(PseudoHeader(p, Coverage(p)) + L4Bytes(p)[..Coverage(p)]) == 0xFFFF
  {
    var n := Coverage(p);
    var off := FieldOffset(p.proto);
    TakePut(p.l4, n, off, FieldValue(p));
    assert p.l4[..n] == Take(p.l4, n);
    CoveredVerifies(PseudoHeader(p, n), p.l4[..n], off, FieldValue(p));
  }

  // ------------------------------------------------------ forcing a zero checksum

  /** The word sum with its one carry folded. */
  function Plus(a: Word, b: Word): Word { if a + b < 65536 then a + b else a + b - 65535 }

  /** The packet with payload word 8..9 adjusted by its checksum. */
  function ForceZero(p: Packet): (q: Packet)
    requires Built(p) && |p.l4| >= 10 && Applies(p, Coverage(p))
    ensures Built(q) && q == p.(l4 := q.l4) && |q.l4| == |p.l4|
  {
    p.(l4 := Put16(p.l4, 8, Plus(Word16(p.l4, 8), L4Checksum(p, p.l4, Coverage(p)))))
  }

  /** Whether adjusting only the high byte of the word can do it: a UDP Length of 9
      ends the covered bytes between the two. */
  predicate HighByteDoes(w: Word, c: Word) {
    var moved := 256 * (Plus(w, c) as int / 256 - w as int / 256);
    moved == c || moved == c - 65535
  }

  /** The checksum then computes to exactly zero for every packet covered up to byte
      10; for a UDP Length of 8 exactly when it was zero already, and for one of 9
      exactly when the high byte's change alone makes up the checksum. */
  lemma ForcedZero(p: Packet)
    requires Built(p) && |p.l4| >= 10 && Applies(p, Coverage(p))
    ensures var q := ForceZero(p);
      var c := L4Checksum(p, p.l4, Coverage(p));
      L4Checksum(q, q.l4, Coverage(q)) == 0 <==>
        (Coverage(p) >= 10 || (Coverage(p) == 8 && c == 0)
         || (Coverage(p) == 9 && HighByteDoes(Word16(p.l4, 8), c)))
  {
    if Coverage(p) >= 10 { ForcedLong(p); } else { ForcedShort(p); }
  }

  lemma ForcedLong(p: Packet)
    requires Built(p) && |p.l4| >= 10 && Applies(p, Coverage(p)) && Coverage(p) >= 10
    ensures var q := ForceZero(p);
      L4Checksum(q, q.l4, Coverage(q)) == 0
  {
    hide OnesSum, Plus;
    var n := Coverage(p);
    var c := L4Checksum(p, p.l4, n);
    assert Take(p.l4, n) == p.l4[..n];
    TakePut(p.l4, n, 8, Plus(Word16(p.l4, 8), c));
    WordAdjusted(PseudoHeader(p, n), p.l4[..n], 8, c);
  }

  lemma ForcedShort(p: Packet)
    requires Built(p) && |p.l4| >= 10 && Applies(p, Coverage(p)) && Coverage(p) < 10
    ensures var q := ForceZero(p);
      var c := L4Checksum(p, p.l4, Coverage(p));
      L4Checksum(q, q.l4, Coverage(q)) == 0 <==>
        if Coverage(p) == 8 then c == 0 else HighByteDoes(Word16(p.l4, 8), c)
  {
    var q, n := ForceZero(p), Coverage(p);
    var ph, d, e := PseudoHeader(p, n), p.l4[..n], q.l4[..n];
    if n == 8 {
      assert d == e;
    } else {
      ProtoCounts(p, n, d);
      ProtoCounts(p, n, e);
      ByteAdjusted(ph + d, ph + e, Word16(p.l4, 8), L4Checksum(p, p.l4, n));
    }
  }

  /** Adding the checksum to a covered word makes the new checksum zero. */
  lemma WordAdjusted(ph: seq<Byte>, d: seq<Byte>, i: nat, c: Word)
    requires |ph| % 2 == 0 && i % 2 == 0 && i + 2 <= |d| && c == Checksum(ph + d)
    ensures Checksum(ph + Put16(d, i, Plus(Word16(d, i), c))) == 0
  {
    var w: int := Word16(d, i);
    var v: int := Plus(Word16(d, i), c);
    var s := WordSum(ph + d);
    PutAfter(ph, d, i, v);
    SumPut(ph + d, |ph| + i, v);
    SumPut(ph + d, |ph| + i, 0);
    FoldSpec(s);
    FoldUnique(s - w + v, 0xFFFF, Rounds(s) - if v < w + c then 1 else 0);
  }

  /** The checksum after the last, odd byte alone takes its share. */
  lemma ByteAdjusted(a: seq<Byte>, b: seq<Byte>, w: Word, c: Word)
    requires |a| == |b| && |a| % 2 == 1 && a[..|a| - 1] == b[..|b| - 1]
    requires WordSum(a) > 0 && WordSum(b) > 0 && c == Checksum(a)
    requires a[|a| - 1] == w / 256 && b[|b| - 1] == Plus(w, c) / 256
    ensures Checksum(b) == 0 <==> HighByteDoes(w, c)
  {
    var s, t := WordSum(a), WordSum(b);
    var moved := 256 * (Plus(w, c) as int / 256 - w as int / 256);
    LastByte(a, b);
    FoldSpec(s);
    FoldSpec(t);
    if Checksum(b) == 0 {
      assert moved - c == 65535 * (Rounds(t) - Rounds(s));
    } else if moved == c {
      FoldUnique(t, 0xFFFF, Rounds(s));
    } else if moved == c - 65535 {
      FoldUnique(t, 0xFFFF, Rounds(s) - 1);
    }
  }

  lemma {:induction false} LastByte(a: seq<Byte>, b: seq<Byte>)
    requires |a| == |b| && |a| % 2 == 1 && a[..|a| - 1] == b[..|b| - 1]
    ensures WordSum(b) == WordSum(a) + 256 * (b[|b| - 1] as int - a[|a| - 1] as int)
  {
    if |a| > 1 {
      assert a[0] == a[..|a| - 1][0] && a[1] == a[..|a| - 1][1];
      assert a[2..][..|a| - 3] == a[..|a| - 1][2..];
      assert b[2..][..|a| - 3] == b[..|a| - 1][2..];
      LastByte(a[2..], b[2..]);
    }
  }

  lemma {:induction false} SomeByteCounts(d: seq<Byte>, k: nat)
    requires k < |d| && d[k] > 0
    ensures WordSum(d) > 0
  {
    if k >= 2 { SomeByteCounts(d[2..], k - 2); }
  }

  /** A UDP pseudo-header is never all zero. */
  lemma ProtoCounts(p: Packet, n: nat, d: seq<Byte>)
    requires Built(p) && p.family != NotIp && p.proto == UDP && n < 65536
    ensures WordSum(PseudoHeader(p, n) + d) > 0
  {
    SomeByteCounts(PseudoHeader(p, n) + d, if p.family == V6 then 39 else 9);
  }
}
