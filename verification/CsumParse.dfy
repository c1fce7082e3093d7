/** The driver's checksum parser, and its scope against the reference judge's. */
module CsumParse {
  import opened InternetChecksum
  import P = Packet

  const TCP_HEADER: nat := 20
  const UDP_HEADER: nat := 8

  datatype Found = Outside | L4(off: nat, proto: Byte, len: nat)

  predicate Tagged(buf: seq<Byte>)
    requires |buf| >= 18
  {
    Word16(buf, 12) == 0x8100 || Word16(buf, 12) == 0x88A8
  }

  function L3Of(buf: seq<Byte>): nat
    requires |buf| >= 18
  {
    if Tagged(buf) then 18 else 14
  }

  function TypeOf(buf: seq<Byte>): Word
    requires |buf| >= 18
  {
    if Tagged(buf) then Word16(buf, 16) else Word16(buf, 12)
  }

  /** emz_csum_parse(): every read is inside the buffer. */
  function Parse(buf: seq<Byte>): Found {
    if |buf| < 18 then Outside
    else
      var l3 := L3Of(buf);
      if TypeOf(buf) == 0x0800 then
        if |buf| < l3 + 20 || buf[l3] / 16 != 4 || buf[l3] % 16 != 5 || Word16(buf, l3 + 6) % 0x4000 != 0 then Outside
        else Within(buf, l3 + 20, l3 + Word16(buf, l3 + 2), buf[l3 + 9])
      else if TypeOf(buf) == 0x86DD then
        if |buf| < l3 + 40 || buf[l3] / 16 != 6 then Outside
        else Within(buf, l3 + 40, l3 + 40 + Word16(buf, l3 + 4), buf[l3 + 6])
      else Outside
  }

  function Within(buf: seq<Byte>, l4: nat, end: nat, proto: Byte): Found
    requires l4 <= |buf|
  {
    if end < l4 || end > |buf| then Outside
    else if proto == P.TCP then
      if end - l4 >= TCP_HEADER then L4(l4, proto, end - l4) else Outside
    else if proto == P.UDP && end - l4 >= UDP_HEADER then
      if UDP_HEADER <= Word16(buf, l4 + 4) <= end - l4 then L4(l4, proto, end - l4) else Outside
    else Outside
  }

  /** What a found L4 header is known to be. */
  lemma FoundFacts(buf: seq<Byte>)
    requires Parse(buf).L4?
    ensures var r := Parse(buf);
      && |buf| >= 18
      && r.off + r.len <= |buf| && r.off % 2 == 0
      && (r.proto == P.TCP || r.proto == P.UDP)
      && r.len >= (if r.proto == P.TCP then TCP_HEADER else UDP_HEADER)
      && (r.proto == P.UDP ==> UDP_HEADER <= Word16(buf, r.off + 4) <= r.len)
      && r.off == L3Of(buf) + (if TypeOf(buf) == 0x0800 then 20 else 40)
      && r.len < 65536
  {
  }

  // ------------------------------------------------------ against the builder

  /** The packets the driver parses. */
  predicate InScope(p: P.Packet) {
    && p.family != P.NotIp
    && (p.family == P.V4 ==> p.ihl == 5 && !p.mf && p.fragOff % 0x2000 == 0)
    && ((p.proto == P.TCP && |p.l4| >= TCP_HEADER)
        || (p.proto == P.UDP && |p.l4| >= UDP_HEADER && UDP_HEADER <= p.udpLen <= |p.l4|))
  }

  lemma EthFacts(p: P.Packet, f: seq<Byte>)
    requires P.L3Offset(p) <= |f| && f[..P.L3Offset(p)] == P.EthHeader(p)
    requires |f| >= 18
    ensures p.family == P.V4 ==> TypeOf(f) == 0x0800
    ensures p.family == P.V6 ==> TypeOf(f) == 0x86DD
    ensures p.family == P.NotIp ==> TypeOf(f) == 0x88B5
    ensures L3Of(f) == P.L3Offset(p)
  {
    var e := P.EthHeader(p);
    assert Word16(f, 12) == Word16(e, 12);
    if p.vlan != P.Untagged { assert Word16(f, 16) == Word16(e, 16); }
  }

  lemma Ip4Facts(p: P.Packet)
    requires P.Built(p) && p.family == P.V4
    ensures var h := P.IpHeader(p);
      && h[0] / 16 == 4 && h[0] % 16 == p.ihl
      && Word16(h, 2) == p.ihl * 4 + |p.l4|
      && Word16(h, 6) == (if p.mf then 0x2000 else 0) + p.fragOff % 0x2000
      && h[9] == p.proto
      && (p.ihl == 5 ==> h[12..20] == p.addrs)
  {
    var h := P.Header4Zero(p);
    assert h[8..12] == [64, p.proto, 0, 0];
    assert h[12..20] == p.addrs;
    assert P.IpHeader(p)[12..20] == h[12..20];
    assert h[6..8] == Be16((if p.mf then 0x2000 else 0) + p.fragOff % 0x2000);
    assert h[6] == h[6..8][0] && h[7] == h[6..8][1];
  }

  lemma Ip6Facts(p: P.Packet)
    requires P.Built(p) && p.family == P.V6
    ensures var h := P.IpHeader(p);
      && h[0] / 16 == 6 && Word16(h, 4) == |p.l4| && h[6] == p.proto && h[8..40] == p.addrs
  {
  }

  lemma UdpLengthKept(p: P.Packet)
    requires P.Built(p) && p.family != P.NotIp && p.proto == P.UDP && |p.l4| >= 8
    ensures Word16(P.L4Bytes(p), 4) == p.udpLen
  {
  }

  /** The parser sees what the builder wrote: it accepts exactly the packets in its
      scope, and finds their L4 header and payload length, whatever follows them. */
  lemma ParseExact(p: P.Packet, f: seq<Byte>)
    requires P.Built(p) && p.truncate == 0 && P.Frame(p) <= f
    ensures Parse(f) == if InScope(p) then L4(P.L4Start(p), p.proto, |p.l4|) else Outside
  {
    if p.family == P.NotIp {
      assert f[..P.L3Offset(p)] == P.EthHeader(p);
      if |f| >= 18 { EthFacts(p, f); }
    } else {
      P.Parts(p, f);
      EthFacts(p, f);
      var l3, l4s := P.L3Offset(p), P.L4Start(p);
      var h, l4 := f[l3..l4s], f[l4s..l4s + |p.l4|];
      if p.proto == P.UDP && |p.l4| >= 8 {
        UdpLengthKept(p);
        assert Word16(f, l4s + 4) == Word16(l4, 4);
      }
      if p.family == P.V4 { ParseExact4(p, f, h); } else { ParseExact6(p, f, h); }
    }
  }

  lemma ParseExact4(p: P.Packet, f: seq<Byte>, h: seq<Byte>)
    requires P.Built(p) && p.family == P.V4 && |f| >= 18
    requires P.L4Start(p) + |p.l4| <= |f|
    requires h == f[P.L3Offset(p)..P.L4Start(p)] == P.IpHeader(p)
    requires TypeOf(f) == 0x0800 && L3Of(f) == P.L3Offset(p)
    requires p.proto == P.UDP && |p.l4| >= 8 ==> Word16(f, P.L4Start(p) + 4) == p.udpLen
    ensures Parse(f) == if InScope(p) then L4(P.L4Start(p), p.proto, |p.l4|) else Outside
  {
    Ip4Facts(p);
    var l3 := P.L3Offset(p);
    assert f[l3] == h[0] && f[l3 + 9] == h[9];
    assert Word16(f, l3 + 2) == Word16(h, 2) && Word16(f, l3 + 6) == Word16(h, 6);
    assert Word16(h, 6) % 0x4000 == 0 <==> !p.mf && p.fragOff % 0x2000 == 0;
  }

  lemma ParseExact6(p: P.Packet, f: seq<Byte>, h: seq<Byte>)
    requires P.Built(p) && p.family == P.V6 && |f| >= 18
    requires P.L4Start(p) + |p.l4| <= |f|
    requires h == f[P.L3Offset(p)..P.L4Start(p)] == P.IpHeader(p)
    requires TypeOf(f) == 0x86DD && L3Of(f) == P.L3Offset(p)
    requires p.proto == P.UDP && |p.l4| >= 8 ==> Word16(f, P.L4Start(p) + 4) == p.udpLen
    ensures Parse(f) == if InScope(p) then L4(P.L4Start(p), p.proto, |p.l4|) else Outside
  {
    Ip6Facts(p);
    var l3 := P.L3Offset(p);
    assert f[l3] == h[0] && f[l3 + 6] == h[6];
    assert Word16(f, l3 + 4) == Word16(h, 4);
  }

  /** The driver's scope lies inside the checker's: a frame it accepts is judged whole,
      with the same L4 offset and length, and its checksum applies, unless the packet
      was asked for a fragment offset that the 13-bit field cannot hold. */
  lemma ScopeContained(p: P.Packet, f: seq<Byte>)
    requires P.Built(p) && p.truncate == 0 && P.Frame(p) <= f
    requires Parse(f).L4?
    ensures var r, v := Parse(f), P.Judge(p, f);
      && v.done && v.l3End == r.off + r.len
      && v.l4Pos == r.off + P.FieldOffset(r.proto)
      && (v.l4Ok <==> p.family == P.V6 || p.fragOff == 0)
  {
    ParseExact(p, f);
    P.JudgeAgrees(p, f);
    if p.family == P.V4 { assert p.opts == []; }
  }

  // ------------------------------------------------------ frames marked on receive

  /** emz_rx_csum_ok() for a frame it may mark, past the first after RX enable. */
  predicate Vouched(buf: seq<Byte>) {
    var r := Parse(buf);
    r.L4? && (r.proto == P.TCP || (FoundFacts(buf); Word16(buf, r.off + 6) != 0))
  }

  /** Behind any pseudo-header: the field holds the checksum, or the other zero, exactly
      when all adds to all ones. */
  lemma HeldExactly(ph: seq<Byte>, d: seq<Byte>, i: nat)
    requires |ph| % 2 == 0 && i % 2 == 0 && i + 2 <= |d|
    ensures var c := Checksum(ph + Put16(d, i, 0));
      OnesSum(ph + d) == 0xFFFF <==> Word16(d, i) == c || (c == 0 && Word16(d, i) == 0xFFFF)
  {
    var v := Word16(d, i);
    var z := Put16(d, i, 0);
    var c := Checksum(ph + z);
    assert Put16(z, i, v) == d;
    P.PutAfter(ph, d, i, 0);
    if OnesSum(ph + d) == 0xFFFF { VerifiesIsChecksum(ph + d, |ph| + i); }
    if v == c || (c == 0 && v == 0xFFFF) { P.CoveredVerifies(ph, z, i, v); }
  }

  /** The judge's good field adds to all ones with pseudo-header and covered bytes; for
      UDP a field of zero is no checksum. */
  lemma GoodMeansAllOnes(p: P.Packet, l4: seq<Byte>, cover: nat)
    requires P.Built(p) && P.Applies(p, cover) && |l4| == |p.l4|
    requires cover <= |l4| && (p.proto != P.UDP ==> cover == |l4|)
    requires P.JudgeL4(p, l4, cover).1
    requires p.proto == P.UDP ==> Word16(l4, 6) != 0
    ensures OnesSum(P.PseudoHeader(p, cover) + l4[..cover]) == 0xFFFF
  {
    var off := P.FieldOffset(p.proto);
    P.TakePut(l4, cover, off, 0);
    assert Word16(l4[..cover], off) == Word16(l4, off);
    HeldExactly(P.PseudoHeader(p, cover), l4[..cover], off);
  }

  lemma GoodSeen(p: P.Packet, f: seq<Byte>)
    requires P.Built(p) && p.family != P.NotIp && p.truncate == 0 && P.Frame(p) <= f
    requires P.Applies(p, P.Coverage(p)) && P.Judge(p, f).l4Good
    ensures P.JudgeL4(p, P.L4Bytes(p), P.Coverage(p)).1
  {
    hide P.Frame, P.L4Bytes, P.L4Checksum;
    P.Parts(p, f);
    P.LengthSeen(p, f);
  }

  /** The covered bytes and the UDP field, read from the frame. */
  lemma CoveredSeen(p: P.Packet, f: seq<Byte>, n: nat)
    requires P.Built(p) && p.family != P.NotIp && p.truncate == 0 && P.Frame(p) <= f && n <= |p.l4|
    ensures P.L4Start(p) + |p.l4| <= |f|
    ensures f[P.L4Start(p)..P.L4Start(p) + n] == P.L4Bytes(p)[..n]
    ensures |p.l4| >= 8 ==> Word16(f, P.L4Start(p) + 6) == Word16(P.L4Bytes(p), 6)
  {
    hide P.Frame, P.L4Bytes;
    P.Parts(p, f);
    Inner(f, P.L4Start(p), |p.l4|, n);
  }

  lemma Inner(f: seq<Byte>, s: nat, m: nat, n: nat)
    requires n <= m && s + m <= |f|
    ensures f[s..s + n] == f[s..s + m][..n]
    ensures m >= 8 ==> Word16(f, s + 6) == Word16(f[s..s + m], 6)
  {
  }

  /** So a frame the checker passed and the driver vouches for is right by the sum
      itself, not only by the checker's word. */
  lemma VouchedIsRight(p: P.Packet, f: seq<Byte>)
    requires P.Built(p) && p.truncate == 0 && P.Frame(p) <= f
    requires p.family == P.V4 ==> p.fragOff == 0
    requires Vouched(f) && P.Judge(p, f).l4Good
    ensures var n := P.Coverage(p);
      && P.L4Start(p) + n <= |f|
      && OnesSum(P.PseudoHeader(p, n) + f[P.L4Start(p)..P.L4Start(p) + n]) == 0xFFFF
  {
    VouchedFacts(p, f);
    VouchedL4(p, f);
    InFrame(p, f);
  }

  lemma InFrame(p: P.Packet, f: seq<Byte>)
    requires P.Built(p) && p.family != P.NotIp && p.truncate == 0 && P.Frame(p) <= f
    requires P.Coverage(p) <= |p.l4|
    requires OnesSum(P.PseudoHeader(p, P.Coverage(p)) + P.L4Bytes(p)[..P.Coverage(p)]) == 0xFFFF
    ensures var n := P.Coverage(p);
      && P.L4Start(p) + n <= |f|
      && OnesSum(P.PseudoHeader(p, n) + f[P.L4Start(p)..P.L4Start(p) + n]) == 0xFFFF
  {
    CoveredSeen(p, f, P.Coverage(p));
  }

  lemma VouchedL4(p: P.Packet, f: seq<Byte>)
    requires P.Built(p) && p.truncate == 0 && P.Frame(p) <= f
    requires p.family == P.V4 ==> p.fragOff == 0
    requires Vouched(f) && P.Judge(p, f).l4Good
    ensures P.Coverage(p) <= |p.l4|
    ensures OnesSum(P.PseudoHeader(p, P.Coverage(p)) + P.L4Bytes(p)[..P.Coverage(p)]) == 0xFFFF
  {
    VouchedFacts(p, f);
    GoodSeen(p, f);
    GoodMeansAllOnes(p, P.L4Bytes(p), P.Coverage(p));
  }

  lemma VouchedFacts(p: P.Packet, f: seq<Byte>)
    requires P.Built(p) && p.truncate == 0 && P.Frame(p) <= f
    requires p.family == P.V4 ==> p.fragOff == 0
    requires Vouched(f)
    ensures p.family != P.NotIp && P.Applies(p, P.Coverage(p)) && P.Coverage(p) <= |p.l4|
    ensures p.proto == P.TCP || (p.proto == P.UDP && |p.l4| >= 8 && Word16(P.L4Bytes(p), 6) != 0)
  {
    ParseExact(p, f);
    if p.family == P.V4 { assert p.opts == []; }
    CoveredSeen(p, f, |p.l4|);
  }
}
