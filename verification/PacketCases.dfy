/** Packets at the edges of the checksum theorems: where the judge, the forced zero and
    the driver's parser do otherwise than their descriptions say. */
module PacketCases {
  import opened InternetChecksum
  import opened Packet
  import CsumParse

  function Zeros(n: nat): (d: seq<Byte>)
    ensures |d| == n
    ensures forall k :: 0 <= k < n ==> d[k] == 0
  {
    seq(n, _ => 0)
  }

  /** A UDP packet over IPv4, all zero but for the first word of its addresses and its
      Length. */
  function Plain(x: Word, size: nat, udpLen: Word, fragOff: nat, badL4: bool): (p: Packet)
    requires 8 <= size < 1000
    ensures Built(p)
  {
    Packet(Untagged, 0, V4, UDP, 5, false, fragOff, Put16(Zeros(8), 0, x), 0, [], Put16(Zeros(size), 4, udpLen),
           [], false, badL4, false, udpLen, 0)
  }

  lemma {:induction false} ZeroSum(d: seq<Byte>)
    requires forall k :: 0 <= k < |d| ==> d[k] == 0
    ensures WordSum(d) == 0
  {
    if |d| >= 2 { ZeroSum(d[2..]); }
  }

  lemma PlainSum(x: Word, size: nat, n: Word, fragOff: nat, badL4: bool)
    requires 8 <= n <= size < 1000
    ensures var p := Plain(x, size, n, fragOff, badL4);
      WordSum(PseudoHeader(p, n) + p.l4[..n]) == x + UDP + n + n
  {
    var p := Plain(x, size, n, fragOff, badL4);
    var z := Zeros(12 + n);
    var a := Put16(z, 0, x);
    var b := Put16(a, 8, UDP);
    var c := Put16(b, 10, n);
    ZeroSum(z);
    SumPut(z, 0, x);
    SumPut(a, 8, UDP);
    SumPut(b, 10, n);
    SumPut(c, 16, n);
    assert PseudoHeader(p, n) + p.l4[..n] == Put16(c, 16, n);
  }

  lemma PlainChecksum(x: Word, size: nat, n: Word, fragOff: nat, badL4: bool)
    requires 8 <= n <= size < 1000 && x as int + UDP + n + n < 65536
    ensures var p := Plain(x, size, n, fragOff, badL4);
      Coverage(p) == n && L4Checksum(p, p.l4, n) == 65535 - (x + UDP + n + n)
  {
    PlainSum(x, size, n, fragOff, badL4);
    var p := Plain(x, size, n, fragOff, badL4);
    assert Take(p.l4, n) == p.l4[..n];
  }

  lemma PlainApplies(x: Word, size: nat, n: Word, badL4: bool)
    requires 8 <= n <= size < 1000
    ensures var p := Plain(x, size, n, 0, badL4); Applies(p, Coverage(p))
  {
  }

  /** A packet whose checksum is 0x0101, spoiled: its field becomes zero, and the judge
      finds it good. */
  lemma SpoiledPasses()
    ensures var p := Plain(0xFEDD, 8, 8, 0, true);
      && Built(p) && p.badL4 && L4Checksum(p, p.l4, Coverage(p)) == 0x0101
      && Judge(p, Frame(p)).l4Ok && Judge(p, Frame(p)).l4Good
  {
    var p := Plain(0xFEDD, 8, 8, 0, true);
    PlainChecksum(0xFEDD, 8, 8, 0, true);
    PlainApplies(0xFEDD, 8, 8, true);
    JudgeAgrees(p, Frame(p));
  }

  /** Ten bytes of UDP whose Length is 8 or 9: the checksum is not forced to zero. */
  lemma NotForced(n: Word)
    requires n == 8 || n == 9
    ensures var p := Plain(0, 10, n, 0, false);
      && Built(p) && |p.l4| >= 10 && Applies(p, Coverage(p)) && Coverage(p) == n
      && L4Checksum(ForceZero(p), ForceZero(p).l4, Coverage(ForceZero(p))) != 0
  {
    var p := Plain(0, 10, n, 0, false);
    PlainApplies(0, 10, n, false);
    PlainChecksum(0, 10, n, 0, false);
    ForcedZero(p);
  }

  /** A fragment offset of 0x2000 does not fit its field: the frame is no fragment, the
      driver parses it, and the judge, who asks the packet, finds no checksum to apply. */
  lemma OffsetTooWide()
    ensures var p := Plain(0, 8, 8, 0x2000, false);
      Built(p) && CsumParse.Parse(Frame(p)).L4? && !Judge(p, Frame(p)).l4Ok
  {
    var p := Plain(0, 8, 8, 0x2000, false);
    CsumParse.ParseExact(p, Frame(p));
    CsumParse.ScopeContained(p, Frame(p));
  }
}
