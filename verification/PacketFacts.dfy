/** The checksum models against the standards' own words: what is summed, where it is
    stored, and to which datagrams it applies. */
module PacketFacts {
  import opened InternetChecksum
  import opened CsumParse
  import opened TxChecksum
  import P = Packet
  import IpOptions

  // ------------------------------------------------------ what is summed

  lemma Be16Sum(v: Word)
    ensures |Be16(v)| == 2 && WordSum(Be16(v)) == v
  {
    assert Be16(v)[2..] == [];
  }

  lemma ProtoSum(proto: Byte)
    ensures WordSum([0, proto]) == proto
    ensures WordSum([0, 0, 0, proto]) == proto
    ensures WordSum([0, 0]) == 0
  {
    assert [0, proto][2..] == [] && [0, 0][2..] == [];
    assert [0, 0, 0, proto][2..] == [0, proto];
  }

  lemma ThreeParts(a: seq<Byte>, b: seq<Byte>, c: seq<Byte>)
    requires |a| % 2 == 0 && |b| % 2 == 0
    ensures WordSum(a + b + c) == WordSum(a) + WordSum(b) + WordSum(c)
  {
    hide WordSum;
    SumConcat(a, b);
    SumConcat(a + b, c);
  }

  /** An even address, zeros, protocol and length, in either order, add up. */
  lemma ProtoThenLength(a: seq<Byte>, proto: Byte, n: Word)
    requires |a| % 2 == 0
    ensures WordSum(a + [0, proto] + Be16(n)) == WordSum(a) + proto + n
  {
    hide WordSum, Be16;
    ThreeParts(a, [0, proto], Be16(n));
    ProtoSum(proto);
    Be16Sum(n);
  }

  lemma LengthThenProto(a: seq<Byte>, proto: Byte, n: Word)
    requires |a| % 2 == 0
    ensures WordSum(a + [0, 0] + Be16(n) + [0, 0, 0, proto]) == WordSum(a) + proto + n
  {
    hide WordSum, Be16;
    Be16Sum(n);
    ThreeParts(a, [0, 0], Be16(n));
    SumConcat(a + [0, 0] + Be16(n), [0, 0, 0, proto]);
    ProtoSum(proto);
  }

  /** A pseudo-header adds the addresses, the protocol and the length; ICMP over IPv4 has
      none (RFC 768, section 8.1 of RFC 8200, RFC 792). */
  lemma PseudoWords(p: P.Packet, n: Word)
    requires P.Built(p) && p.family != P.NotIp
    ensures p.family == P.V4 && p.proto == P.ICMP ==> P.PseudoHeader(p, n) == []
    ensures !(p.family == P.V4 && p.proto == P.ICMP) ==>
      WordSum(P.PseudoHeader(p, n)) == WordSum(p.addrs) + p.proto + n
  {
    if p.family == P.V4 { ProtoThenLength(p.addrs, p.proto, n); } else { LengthThenProto(p.addrs, p.proto, n); }
  }

  /** The addresses of a frame, by its EtherType. */
  function Addresses(buf: seq<Byte>): (a: seq<Byte>)
    requires Parse(buf).L4?
    ensures |a| % 2 == 0
  {
    FoundFacts(buf);
    var l3 := Parse(buf).off - (if TypeOf(buf) == 0x0800 then 20 else 40);
    if TypeOf(buf) == 0x0800 then buf[l3 + 12..l3 + 20] else buf[l3 + 8..l3 + 40]
  }

  lemma FramePseudoWords(buf: seq<Byte>, n: Word)
    requires Parse(buf).L4?
    ensures WordSum(PseudoOf(buf, n)) == WordSum(Addresses(buf)) + Parse(buf).proto + n
  {
    FoundFacts(buf);
    if TypeOf(buf) == 0x0800 { ProtoThenLength(Addresses(buf), Parse(buf).proto, n); }
    else { LengthThenProto(Addresses(buf), Parse(buf).proto, n); }
  }

  /** Sums of two parts, the first even, fold to all ones exactly when the words add to a
      nonzero multiple of 65535. */
  lemma PartsAllOnes(a: seq<Byte>, b: seq<Byte>)
    requires |a| % 2 == 0
    ensures OnesSum(a + b) == 0xFFFF <==> WordSum(a) + WordSum(b) > 0 && (WordSum(a) + WordSum(b)) % 65535 == 0
  {
    OnesSumAllOnes(a + b);
    SumConcat(a, b);
  }

  /** In plain words: addresses, protocol, length and covered bytes of a fault-free packet
      add to a multiple of 65535. */
  lemma GoodPacketAddsUp(p: P.Packet, f: seq<Byte>)
    requires P.Built(p) && p.truncate == 0 && P.Frame(p) <= f
    requires P.Applies(p, P.Coverage(p)) && !p.badL4 && !(p.proto == P.UDP && p.udpZero)
    requires !(p.family == P.V4 && p.proto == P.ICMP)
    ensures P.L4Start(p) + P.Coverage(p) <= |f|
    ensures var n := P.Coverage(p);
      (WordSum(p.addrs) + p.proto + n + WordSum(f[P.L4Start(p)..P.L4Start(p) + n])) % 65535 == 0
  {
    hide P.Frame, P.PseudoHeader, WordSum, OnesSum;
    P.GoodPacketVerifies(p, f);
    var n := P.Coverage(p);
    PseudoWords(p, n);
    PseudoEven(p, n);
    PartsAllOnes(P.PseudoHeader(p, n), f[P.L4Start(p)..P.L4Start(p) + n]);
  }

  lemma PseudoEven(p: P.Packet, n: Word)
    requires P.Built(p) && p.family != P.NotIp
    ensures |P.PseudoHeader(p, n)| % 2 == 0
  {
  }

  /** The same of the frame on the wire: right exactly when addresses, protocol, length and
      covered bytes add to a multiple of 65535. */
  lemma DatagramAddsUp(f: seq<Byte>)
    requires Parse(f).L4?
    ensures DatagramSum(f) == 0xFFFF <==>
      (WordSum(Addresses(f)) + Parse(f).proto + CoveredLen(f) + WordSum(CoveredBytes(f))) % 65535 == 0
  {
    hide Parse, WordSum, OnesSum, PseudoOf, CoveredBytes, Addresses;
    FoundFacts(f);
    FramePseudoWords(f, CoveredLen(f));
    PartsAllOnes(PseudoOf(f, CoveredLen(f)), CoveredBytes(f));
  }

  // ------------------------------------------------------ where it is stored

  /** The field's offset: 16 in TCP, 6 in UDP, 2 in ICMP and ICMPv6 (section 3.1 of RFC
      9293, RFC 768, RFC 792, RFC 4443), and nothing else of the L4 bytes changes. */
  lemma FieldPlaces(p: P.Packet)
    requires P.Built(p) && P.Applies(p, P.Coverage(p)) && !p.badL4
    ensures p.proto == 6 || p.proto == 17 || p.proto == 1 || p.proto == 58
    ensures var i := if p.proto == 6 then 16 else if p.proto == 17 then 6 else 2;
      var c := P.L4Checksum(p, p.l4, P.Coverage(p));
      && i + 2 <= |p.l4|
      && Word16(P.L4Bytes(p), i) ==
           (if p.proto != 17 then c else if p.udpZero then 0 else if c == 0 then 0xFFFF else c)
      && P.L4Bytes(p)[..i] == p.l4[..i] && P.L4Bytes(p)[i + 2..] == p.l4[i + 2..]
  {
  }

  /** A packet the checksum does not apply to goes out as it is. */
  lemma OthersUntouched(p: P.Packet)
    requires P.Built(p) && p.family != P.NotIp && !P.Applies(p, P.Coverage(p))
    ensures P.L4Bytes(p) == p.l4
  {
  }

  // ------------------------------------------------------ to which datagrams

  /** Over IPv4 as its header on the wire says: TCP, UDP or ICMP, more-fragments clear and
      offset zero, and options the walk gets through. */
  lemma Applies4(p: P.Packet, udpLen: nat)
    requires P.Built(p) && p.family == P.V4 && p.fragOff < 0x2000
    ensures var h := P.IpHeader(p);
      P.Applies(p, udpLen) <==>
        && ((h[9] == 6 && |p.l4| >= 18) || (h[9] == 17 && 8 <= udpLen <= |p.l4|) || (h[9] == 1 && |p.l4| >= 4))
        && Word16(h, 6) % 0x4000 == 0
        && !IpOptions.Skip(h[20..])
  {
    hide P.IpHeader, IpOptions.Skip;
    Ip4Facts(p);
    OptionsSeen(p);
  }

  lemma OptionsSeen(p: P.Packet)
    requires P.Built(p) && p.family == P.V4
    ensures P.IpHeader(p)[20..] == p.opts
  {
    var h := P.Header4Zero(p);
    assert h[20..] == p.opts;
    assert P.IpHeader(p)[20..] == h[20..];
  }

  /** Over IPv6: TCP, UDP or ICMPv6 right after the fixed header. */
  lemma Applies6(p: P.Packet, udpLen: nat)
    requires P.Built(p) && p.family == P.V6
    ensures var h := P.IpHeader(p);
      P.Applies(p, udpLen) <==>
        (h[6] == 6 && |p.l4| >= 18) || (h[6] == 17 && 8 <= udpLen <= |p.l4|) || (h[6] == 58 && |p.l4| >= 4)
  {
    Ip6Facts(p);
  }

  /** The driver's scope, in the bytes on the wire: no IPv4 options and no fragment, or
      plain IPv6; a whole TCP or UDP header, and a UDP Length that fits. */
  lemma ScopeOnWire(p: P.Packet)
    requires P.Built(p)
    ensures InScope(p) <==>
      && (p.family == P.V4 || p.family == P.V6)
      && (p.family == P.V4 ==> P.IpHeader(p)[0] == 0x45 && Word16(P.IpHeader(p), 6) % 0x4000 == 0)
      && var proto := if p.family == P.V4 then P.IpHeader(p)[9] else P.IpHeader(p)[6];
         (proto == 6 && |p.l4| >= 20) || (proto == 17 && |p.l4| >= 8 && 8 <= p.udpLen <= |p.l4|)
  {
    hide P.IpHeader;
    if p.family == P.V4 { Ip4Facts(p); } else if p.family == P.V6 { Ip6Facts(p); }
  }

  // ------------------------------------------------------ what the judge reports

  /** Positions and values the judge reports are those of the frame: of an untruncated
      packet with nothing spoiled or left out, both fields hold what it says. */
  lemma ReportsFields(p: P.Packet, f: seq<Byte>)
    requires P.Built(p) && p.family != P.NotIp && p.truncate == 0 && P.Frame(p) <= f
    ensures var v, l3 := P.Judge(p, f), if p.vlan == P.Untagged then 14 else 18;
      && (v.ip4 && !p.badIp ==> l3 + 12 <= |f| && Word16(f, l3 + 10) == v.ipCsum)
      && (v.l4Ok && !p.badL4 && !(p.proto == 17 && p.udpZero) ==>
            && v.l4Pos == l3 + P.IpHeaderLen(p) + (if p.proto == 6 then 16 else if p.proto == 17 then 6 else 2)
            && v.l4Pos + 2 <= |f|
            && Word16(f, v.l4Pos) == (if p.proto == 17 && v.l4Csum == 0 then 0xFFFF else v.l4Csum))
  {
    hide P.Frame, P.Judge, P.IpHeader, P.L4Bytes, P.L4Checksum, P.Header4Zero;
    P.JudgeAgrees(p, f);
    P.Parts(p, f);
    ReportsPlace(p, f);
    if p.family == P.V4 && !p.badIp { HeaderField(p); }
    if P.Applies(p, P.Coverage(p)) && !p.badL4 { FieldPlaces(p); }
  }

  lemma ReportsPlace(p: P.Packet, f: seq<Byte>)
    requires P.Built(p) && p.family != P.NotIp
    ensures P.Judge(p, f).l4Pos == P.L4Start(p) + P.FieldOffset(p.proto)
  {
  }

  lemma HeaderField(p: P.Packet)
    requires P.Built(p) && p.family == P.V4 && !p.badIp
    ensures Word16(P.IpHeader(p), 10) == Checksum(P.Header4Zero(p))
  {
    hide P.Header4Zero;
  }

  /** A datagram cut short, with nothing after it, is not whole, and its header is judged
      only if the cut left it. */
  lemma CutNotDone(p: P.Packet)
    requires P.Built(p) && p.family != P.NotIp && p.trailer == []
    requires 0 < p.truncate <= P.IpHeaderLen(p) + |p.l4|
    ensures var v := P.Judge(p, P.Frame(p));
      && !v.done && !v.l4Ok
      && (v.ip4 <==> p.family == P.V4 && p.truncate <= |p.l4|)
  {
    var f := P.Frame(p);
    var d := P.IpHeader(p) + P.L4Bytes(p);
    assert f == P.EthHeader(p) + d[..|d| - p.truncate];
  }

  // ------------------------------------------------------ frames the driver may mark

  /** The driver vouches for exactly the packets in its scope with a TCP checksum or a UDP
      checksum that is there. */
  lemma VouchedExactly(p: P.Packet, f: seq<Byte>)
    requires P.Built(p) && p.truncate == 0 && P.Frame(p) <= f
    ensures Vouched(f) <==> InScope(p) && (p.proto == 6 || Word16(P.L4Bytes(p), 6) != 0)
  {
    hide P.Frame, P.L4Bytes;
    ParseExact(p, f);
    if InScope(p) { CoveredSeen(p, f, |p.l4|); }
  }

  /** In scope, the fragment offset within its field, the checksum neither spoiled nor left
      out. */
  predicate GoodInScope(p: P.Packet) {
    InScope(p) && (p.family == P.V4 ==> p.fragOff < 0x2000) && !p.badL4 && !(p.proto == 17 && p.udpZero)
  }

  /** Such a packet is always vouched for: its checksum, UDP's zero included, is there. */
  lemma GoodIsVouched(p: P.Packet, f: seq<Byte>)
    requires P.Built(p) && p.truncate == 0 && P.Frame(p) <= f && GoodInScope(p)
    ensures Vouched(f)
  {
    hide P.Frame;
    VouchedExactly(p, f);
    if p.family == P.V4 { assert p.opts == []; }
    FieldPlaces(p);
  }

  // ------------------------------------------------------ frames left to the inserter

  /** An untruncated packet with nothing after it is left to the inserter exactly when it
      is in scope, the stack asks for its own checksum over all of it, and it is not too
      long. */
  lemma ByMacExactly(p: P.Packet, start: nat, offset: nat, maxFrame: nat)
    requires P.Built(p) && p.truncate == 0
    ensures var f := P.Frame(p);
      ByMac(f, start, offset, maxFrame) <==>
        && InScope(p) && p.trailer == [] && |f| <= maxFrame
        && start == P.L4Start(p)
        && (if p.proto == 6 then offset == 16 else offset == 6 && p.udpLen == |p.l4|)
  {
    var f := P.Frame(p);
    ParseExact(p, f);
    if InScope(p) {
      P.Parts(p, f);
      FrameLength(p);
      P.LengthSeen(p, f);
    }
  }

  lemma FrameLength(p: P.Packet)
    requires P.Built(p) && p.family != P.NotIp && p.truncate == 0
    ensures |P.Frame(p)| == P.L4Start(p) + |p.l4| + |p.trailer|
  {
  }

  // ------------------------------------------------------ every partial frame leaves right

  /** A field is refused exactly when it does not lie inside the frame. */
  lemma InvalidExactly(len: nat, start: nat, offset: nat)
    ensures Invalid(len, start, offset) <==> !(start + offset < start + offset + 1 < len)
  {
  }

  /** The software path is right for any frame whose field, at an even place, holds the sum
      of whatever pseudo-header its protocol wants. */
  lemma SoftwareRight(f: seq<Byte>, start: nat, offset: nat, ph: seq<Byte>)
    requires !Invalid(|f|, start, offset) && offset % 2 == 0 && |ph| % 2 == 0 && WordSum(ph) > 0
    requires var s, v := OnesSum(ph), Word16(f, start + offset); v == s || (s == 0xFFFF && v == 0)
    ensures OnesSum(ph + SoftwareSummed(f, start, offset)[start..]) == 0xFFFF
  {
    var d := f[start..];
    assert Word16(d, offset) == Word16(f, start + offset);
    FieldStandsForPseudo(ph, d, offset);
    StoredHighFirst(f, start, offset);
    var c := Checksum(d);
    var v: Word := if c == 0 then 0xFFFF else c;
    var z := Put16(d, offset, 0);
    assert SoftwareSummed(f, start, offset)[start..] == Put16(z, offset, v);
    P.CoveredVerifies(ph, z, offset, v);
  }

  /** What is sent of a bounce buffer: the inserter, when on, rewrites what is in scope. */
  function OnWire(buf: seq<Byte>, hw: bool): seq<Byte> { if hw && Parse(buf).L4? then Inserted(buf) else buf }

  /** Whether the inserter is on or off and whatever it covers, a frame in scope whose
      checksum the stack left to fill in leaves with a right one. */
  lemma PartialLeavesRight(f: seq<Byte>, start: nat, offset: nat, hw: bool, maxFrame: nat)
    requires ByMac(f, start, offset, |f|) && HoldsPseudoSum(f)
    ensures !Invalid(|f|, start, offset)
    ensures var w := OnWire(Bounce(f, true, start, offset, hw, maxFrame), hw);
      Parse(w) == Parse(f) && DatagramSum(w) == 0xFFFF
  {
    BothRight(f, start, offset, |f|);
    var soft := SoftwareSummed(f, start, offset);
    InserterSettles(f);
    InserterSettles(soft);
    assert ByMac(f, start, offset, maxFrame) <==> |f| <= maxFrame;
  }
}
