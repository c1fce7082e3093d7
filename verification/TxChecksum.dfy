/** Who writes a transmitted frame's checksum: the MAC's inserter or the driver's copy
    into the bounce buffer, and that either gives the receiver a right one. */
module TxChecksum {
  import opened InternetChecksum
  import opened CsumParse
  import P = Packet

  const TCP_CHECK: nat := 16
  const UDP_CHECK: nat := 6

  function CheckOffset(proto: Byte): nat { if proto == P.TCP then TCP_CHECK else UDP_CHECK }

  /** emz_tx_csum_by_mac() */
  predicate ByMac(buf: seq<Byte>, start: nat, offset: nat, maxFrame: nat) {
    var r := Parse(buf);
    if !r.L4? || r.off != start || r.off + r.len != |buf| || |buf| > maxFrame then false
    else if r.proto == P.TCP then offset == TCP_CHECK
    else FoundFacts(buf); offset == UDP_CHECK && Word16(buf, r.off + 4) == r.len
  }

  // ------------------------------------------------------ the inserter

  /** The pseudo-header a frame's own IP header gives for n bytes of L4. */
  function PseudoOf(buf: seq<Byte>, n: nat): (ph: seq<Byte>)
    requires Parse(buf).L4? && n < 65536
    ensures |ph| % 2 == 0
  {
    FoundFacts(buf);
    var l3 := L3Of(buf);
    if TypeOf(buf) == 0x0800 then buf[l3 + 12..l3 + 20] + [0, Parse(buf).proto] + Be16(n)
    else buf[l3 + 8..l3 + 40] + [0, 0] + Be16(n) + [0, 0, 0, Parse(buf).proto]
  }

  function CoveredLen(buf: seq<Byte>): (n: nat)
    requires Parse(buf).L4?
    ensures CheckOffset(Parse(buf).proto) + 2 <= n <= Parse(buf).len
  {
    FoundFacts(buf);
    if Parse(buf).proto == P.UDP then Word16(buf, Parse(buf).off + 4) else Parse(buf).len
  }

  function CoveredBytes(buf: seq<Byte>): (d: seq<Byte>)
    requires Parse(buf).L4?
    ensures |d| == CoveredLen(buf)
  {
    FoundFacts(buf);
    buf[Parse(buf).off..Parse(buf).off + CoveredLen(buf)]
  }

  /** The reference checksum of a frame: its field taken as zero. */
  function Reference(buf: seq<Byte>): Word
    requires Parse(buf).L4?
  {
    FoundFacts(buf);
    Checksum(PseudoOf(buf, CoveredLen(buf)) + Put16(CoveredBytes(buf), CheckOffset(Parse(buf).proto), 0))
  }

  function FieldPos(buf: seq<Byte>): (i: nat)
    requires Parse(buf).L4?
    ensures i + 2 <= |buf|
  {
    FoundFacts(buf);
    Parse(buf).off + CheckOffset(Parse(buf).proto)
  }

  /** The frame as the inserter sends it, whatever its field held. */
  function Inserted(buf: seq<Byte>): (r: seq<Byte>)
    requires Parse(buf).L4?
    ensures |r| == |buf|
  {
    Put16(buf, FieldPos(buf), P.Sent(Parse(buf).proto, Reference(buf)))
  }

  /** The datagram's sum: pseudo-header and covered bytes. */
  function DatagramSum(buf: seq<Byte>): Word
    requires Parse(buf).L4?
  {
    FoundFacts(buf);
    OnesSum(PseudoOf(buf, CoveredLen(buf)) + CoveredBytes(buf))
  }

  // ------------------------------------------------------ the software path

  /** csum_fold() of csum_partial() on a little-endian machine, zero stored as
      CSUM_MANGLED_0. */
  function Mangled(d: seq<Byte>): Word {
    var c := 65535 - Fold(LittleSum(d));
    if c == 0 then 0xFFFF else c
  }

  /** A native 16-bit store on that machine. */
  function PutLe(d: seq<Byte>, i: nat, v: Word): (r: seq<Byte>)
    requires i + 2 <= |d|
    ensures |r| == |d|
  {
    d[i := v % 256][i + 1 := v / 256]
  }

  predicate Invalid(len: nat, start: nat, offset: nat) { start >= len || start + offset + 2 > len }

  function SoftwareSummed(f: seq<Byte>, start: nat, offset: nat): (r: seq<Byte>)
    requires !Invalid(|f|, start, offset)
    ensures |r| == |f|
  {
    PutLe(f, start + offset, Mangled(f[start..]))
  }

  /** What emz_tx_copy() leaves in the bounce buffer. */
  function Bounce(f: seq<Byte>, isPartial: bool, start: nat, offset: nat, hw: bool, maxFrame: nat): (r: seq<Byte>)
    requires isPartial ==> !Invalid(|f|, start, offset)
    ensures |r| == |f|
  {
    if !isPartial || (hw && ByMac(f, start, offset, maxFrame)) then f
    else SoftwareSummed(f, start, offset)
  }

  /** skb_copy_bits() of bytes i to j, to the same place in the buffer; it fails when the
      buffer's fragments hold fewer than j bytes of the frame. */
  method CopyBits(f: seq<Byte>, held: nat, i: nat, j: nat, buf: array<Byte>) returns (ok: bool)
    requires i <= j <= |f| <= buf.Length
    modifies buf
    ensures ok <==> j <= held
    ensures ok ==> forall k :: i <= k < j ==> buf[k] == f[k]
    ensures forall k :: 0 <= k < i || j <= k < buf.Length ==> buf[k] == old(buf[k])
  {
    var k := i;
    while k < j && k < held
      invariant i <= k <= j
      invariant forall m :: i <= m < k ==> buf[m] == f[m]
      invariant forall m :: 0 <= m < i || k <= m < buf.Length ==> buf[m] == old(buf[m])
    {
      buf[k] := f[k];
      k := k + 1;
    }
    ok := j <= held;
  }

  /** The fold, the mangling and the store, csum being the sum of f from start on. */
  method StoreSum(f: seq<Byte>, start: nat, offset: nat, csum: nat, buf: array<Byte>)
    requires |f| <= buf.Length && buf[..|f|] == f
    requires !Invalid(|f|, start, offset) && csum == LittleSum(f[start..])
    modifies buf
    ensures buf[..|f|] == SoftwareSummed(f, start, offset)
    ensures buf[|f|..] == old(buf[|f|..])
  {
    var c: Word := 65535 - Fold(csum);
    if c == 0 { c := 0xFFFF; }
    var field := start + offset;
    buf[field], buf[field + 1] := c % 256, c / 256;
    assert buf[..|f|] == PutLe(f, field, c);
  }

  /** Whether the copies of one call find their bytes: all of the frame in one, or, for a
      frame summed as it is copied, what lies before the summed part. */
  predicate Copies(len: nat, held: nat, isPartial: bool, start: nat, hw: bool) {
    held >= if isPartial && !hw then start else len
  }

  /** emz_tx_copy(): the frame f into buf; refused exactly when the checksum fields asked
      for do not lie in the frame or a copy fails. */
  method TxCopy(f: seq<Byte>, held: nat, isPartial: bool, start: nat, offset: nat, hw: bool, maxFrame: nat,
                buf: array<Byte>)
    returns (ok: bool)
    requires |f| <= buf.Length
    modifies buf
    ensures ok <==> !(isPartial && Invalid(|f|, start, offset)) && Copies(|f|, held, isPartial, start, hw)
    ensures ok ==> buf[..|f|] == Bounce(f, isPartial, start, offset, hw, maxFrame)
    ensures buf[|f|..] == old(buf[|f|..])
  {
    if !isPartial {
      ok := CopyBits(f, held, 0, |f|, buf);
      if ok { assert buf[..|f|] == f; }
      return;
    }
    if start >= |f| || start + offset + 2 > |f| { return false; }
    if hw {
      ok := CopyBits(f, held, 0, |f|, buf);
      if !ok { return; }
      assert buf[..|f|] == f;
      if ByMac(buf[..|f|], start, offset, maxFrame) { return true; }
      StoreSum(f, start, offset, LittleSum(buf[..|f|][start..]), buf);
    } else {
      ok := CopyBits(f, held, 0, start, buf);
      if !ok { return; }
      var rest := CopyBits(f, |f|, start, |f|, buf);
      assert buf[..|f|] == f;
      StoreSum(f, start, offset, LittleSum(f[start..]), buf);
    }
    return true;
  }

  // ------------------------------------------------------ both are right

  /** What the stack leaves in the field of a CHECKSUM_PARTIAL frame: the folded sum of
      the pseudo-header, in either form of zero. */
  predicate HoldsPseudoSum(f: seq<Byte>)
    requires Parse(f).L4?
  {
    FoundFacts(f);
    var s := OnesSum(PseudoOf(f, CoveredLen(f)));
    Word16(f, FieldPos(f)) == s || (s == 0xFFFF && Word16(f, FieldPos(f)) == 0)
  }

  lemma PseudoCounts(f: seq<Byte>)
    requires Parse(f).L4?
    ensures WordSum(PseudoOf(f, CoveredLen(f))) > 0
  {
    FoundFacts(f);
    var ph := PseudoOf(f, CoveredLen(f));
    P.SomeByteCounts(ph, if TypeOf(f) == 0x0800 then 9 else 39);
  }

  /** Summing the bytes with the pseudo-header's sum in the field is summing the
      pseudo-header and the bytes with the field zero. */
  lemma FieldStandsForPseudo(ph: seq<Byte>, d: seq<Byte>, i: nat)
    requires |ph| % 2 == 0 && i % 2 == 0 && i + 2 <= |d| && WordSum(ph) > 0
    requires var s := OnesSum(ph); Word16(d, i) == s || (s == 0xFFFF && Word16(d, i) == 0)
    ensures var c := Checksum(ph + Put16(d, i, 0));
      Checksum(d) == c || (c == 0 && Checksum(d) == 0xFFFF)
  {
    var z := Put16(d, i, 0);
    var v: int := Word16(d, i);
    SumPut(d, i, 0);
    SumConcat(ph, z);
    FoldSpec(WordSum(ph));
    FoldSpec(WordSum(d));
    var t := WordSum(ph) + WordSum(z);
    if WordSum(d) == 0 {
      FoldUnique(t, 0xFFFF, Rounds(WordSum(ph)));
    } else if v == OnesSum(ph) {
      FoldUnique(t, OnesSum(d), Rounds(WordSum(d)) + Rounds(WordSum(ph)));
    } else {
      FoldUnique(t, OnesSum(d), Rounds(WordSum(d)) + Rounds(WordSum(ph)) + 1);
    }
  }

  lemma SwapStores(s: Word)
    ensures var c, m := 65535 - s, 65535 - Swap16(s);
      && m % 256 == c / 256 && m / 256 == c % 256
      && (c == 0 <==> m == 0)
  {
    var h, l: int := s / 256, s % 256;
    assert Swap16(s) == 256 * l + h;
    assert 65535 - Swap16(s) == 256 * (255 - l) + (255 - h);
    assert 65535 - s == 256 * (255 - h) + (255 - l);
  }

  /** The bytes the software path stores are the mangled checksum, high byte first. */
  lemma StoredHighFirst(f: seq<Byte>, start: nat, offset: nat)
    requires !Invalid(|f|, start, offset)
    ensures var c := Checksum(f[start..]);
      SoftwareSummed(f, start, offset) == Put16(f, start + offset, if c == 0 then 0xFFFF else c)
  {
    ByteOrderIndependent(f[start..]);
    SwapStores(OnesSum(f[start..]));
  }

  /** For every frame the driver would leave to the inserter, both ways send a datagram
      that adds to all ones, in the same bytes, but for a TCP checksum of zero: sent as
      0xFFFF by the driver and as 0x0000 by the MAC. */
  lemma SoftwareAgrees(f: seq<Byte>, start: nat, offset: nat, maxFrame: nat)
    requires ByMac(f, start, offset, maxFrame) && HoldsPseudoSum(f)
    ensures !Invalid(|f|, start, offset) && start + offset == FieldPos(f)
    ensures var zero := Parse(f).proto == P.TCP && Reference(f) == 0;
      SoftwareSummed(f, start, offset) == (if zero then Put16(f, FieldPos(f), 0xFFFF) else Inserted(f))
  {
    FoundFacts(f);
    PseudoCounts(f);
    var r := Parse(f);
    var d := f[start..];
    assert d == CoveredBytes(f);
    FieldStandsForPseudo(PseudoOf(f, CoveredLen(f)), d, offset);
    StoredHighFirst(f, start, offset);
  }

  // ------------------------------------------------------ and what right means

  /** Writing the field changes neither what is parsed nor the reference. */
  lemma FieldOnly(f: seq<Byte>, v: Word)
    requires Parse(f).L4?
    ensures var g := Put16(f, FieldPos(f), v);
      && Parse(g) == Parse(f)
      && CoveredLen(g) == CoveredLen(f) && PseudoOf(g, CoveredLen(g)) == PseudoOf(f, CoveredLen(f))
      && CoveredBytes(g) == Put16(CoveredBytes(f), CheckOffset(Parse(f).proto), v)
      && Reference(g) == Reference(f)
  {
    FoundFacts(f);
    var g := Put16(f, FieldPos(f), v);
    var r := Parse(f);
    assert forall k :: 0 <= k < r.off + 6 ==> g[k] == f[k];
    assert g[..r.off + 6] == f[..r.off + 6];
    SameParse(f, g);
    var n, o := CoveredLen(f), CheckOffset(r.proto);
    assert CoveredBytes(g) == Put16(CoveredBytes(f), o, v);
    assert Put16(CoveredBytes(g), o, 0) == Put16(CoveredBytes(f), o, 0);
  }

  /** Parsing reads nothing past the UDP Length. */
  lemma SameParse(f: seq<Byte>, g: seq<Byte>)
    requires Parse(f).L4? && |g| == |f|
    requires Parse(f).off + 6 <= |f| && g[..Parse(f).off + 6] == f[..Parse(f).off + 6]
    ensures Parse(g) == Parse(f)
    ensures CoveredLen(g) == CoveredLen(f)
    ensures PseudoOf(g, CoveredLen(g)) == PseudoOf(f, CoveredLen(f))
  {
    FoundFacts(f);
    var m := Parse(f).off + 6;
    assert forall k :: 0 <= k < m ==> g[k] == g[..m][k] && f[k] == f[..m][k];
    var l3 := L3Of(f);
    assert L3Of(g) == l3 && TypeOf(g) == TypeOf(f);
    assert g[l3 + 12..l3 + 20] == f[l3 + 12..l3 + 20];
    if TypeOf(f) != 0x0800 { assert g[l3 + 8..l3 + 40] == f[l3 + 8..l3 + 40]; }
  }

  /** A datagram adds to all ones exactly when its field holds the reference checksum,
      or the other zero. */
  lemma RightExactly(f: seq<Byte>, v: Word)
    requires Parse(f).L4?
    ensures var g := Put16(f, FieldPos(f), v);
      && Parse(g) == Parse(f)
      && (DatagramSum(g) == 0xFFFF <==> v == Reference(f) || (Reference(f) == 0 && v == 0xFFFF))
  {
    FieldOnly(f, v);
    var o, d := CheckOffset(Parse(f).proto), CoveredBytes(f);
    HeldExactly(PseudoOf(f, CoveredLen(f)), Put16(d, o, v), o);
    assert Put16(Put16(d, o, v), o, 0) == Put16(d, o, 0);
    assert Word16(Put16(d, o, v), o) == v;
  }

  /** Both ways are right. */
  lemma BothRight(f: seq<Byte>, start: nat, offset: nat, maxFrame: nat)
    requires ByMac(f, start, offset, maxFrame) && HoldsPseudoSum(f)
    ensures !Invalid(|f|, start, offset)
    ensures var soft, hard := SoftwareSummed(f, start, offset), Inserted(f);
      && Parse(soft) == Parse(f) == Parse(hard)
      && DatagramSum(soft) == 0xFFFF && DatagramSum(hard) == 0xFFFF
      && (soft != hard <==> Parse(f).proto == P.TCP && Reference(f) == 0)
  {
    SoftwareAgrees(f, start, offset, maxFrame);
    RightExactly(f, P.Sent(Parse(f).proto, Reference(f)));
    RightExactly(f, 0xFFFF);
    var i := FieldPos(f);
    assert Word16(Put16(f, i, 0xFFFF), i) != Word16(Put16(f, i, 0), i);
    FoundFacts(f);
  }

  /** The inserter leaves a right frame as it is, but for the other zero. */
  lemma InserterKeepsRight(f: seq<Byte>)
    requires Parse(f).L4? && DatagramSum(f) == 0xFFFF && Reference(f) != 0
    ensures Inserted(f) == f
  {
    hide Parse;
    hide Reference;
    hide OnesSum;
    hide PseudoOf;
    var i := FieldPos(f);
    RightExactly(f, Word16(f, i));
    assert Put16(f, i, Word16(f, i)) == f;
  }

  /** What it sends is right, and it would send it again. */
  lemma InserterSettles(f: seq<Byte>)
    requires Parse(f).L4?
    ensures Parse(Inserted(f)) == Parse(f)
    ensures DatagramSum(Inserted(f)) == 0xFFFF
    ensures Inserted(Inserted(f)) == Inserted(f)
  {
    var i := FieldPos(f);
    var v := P.Sent(Parse(f).proto, Reference(f));
    RightExactly(f, v);
    FieldOnly(f, v);
    assert Put16(Put16(f, i, v), i, v) == Put16(f, i, v);
  }

  // ------------------------------------------------------ against the builder

  lemma AddressesSeen(p: P.Packet, f: seq<Byte>)
    requires P.Built(p) && p.truncate == 0 && P.Frame(p) <= f
    requires p.family == P.V6 || (p.family == P.V4 && p.ihl == 5)
    ensures var l3 := P.L3Offset(p);
      if p.family == P.V4 then l3 + 20 <= |f| && f[l3 + 12..l3 + 20] == p.addrs
      else l3 + 40 <= |f| && f[l3 + 8..l3 + 40] == p.addrs
  {
    P.Parts(p, f);
    var l3, l4s := P.L3Offset(p), P.L4Start(p);
    var h := f[l3..l4s];
    if p.family == P.V4 {
      Ip4Facts(p);
      assert f[l3 + 12..l3 + 20] == h[12..20];
    } else {
      Ip6Facts(p);
      assert f[l3 + 8..l3 + 40] == h[8..40];
    }
  }

  lemma TypeSeen(p: P.Packet, f: seq<Byte>)
    requires P.Built(p) && p.truncate == 0 && P.Frame(p) <= f && |f| >= 18
    requires p.family != P.NotIp
    ensures TypeOf(f) == if p.family == P.V4 then 0x0800 else 0x86DD
    ensures L3Of(f) == P.L3Offset(p)
  {
    P.Parts(p, f);
    EthFacts(p, f);
  }

  lemma CoverIsBuilders(p: P.Packet, f: seq<Byte>)
    requires P.Built(p) && p.truncate == 0 && P.Frame(p) <= f && InScope(p)
    ensures Parse(f) == L4(P.L4Start(p), p.proto, |p.l4|)
    ensures CoveredLen(f) == P.Coverage(p) <= |p.l4|
  {
    hide P.Frame;
    ParseExact(p, f);
    FoundFacts(f);
    P.LengthSeen(p, f);
  }

  lemma PseudoIsBuilders(p: P.Packet, f: seq<Byte>)
    requires P.Built(p) && p.truncate == 0 && P.Frame(p) <= f && InScope(p)
    ensures Parse(f).L4?
    ensures PseudoOf(f, CoveredLen(f)) == P.PseudoHeader(p, P.Coverage(p))
  {
    hide Parse;
    hide P.Frame;
    hide TypeOf;
    hide L3Of;
    CoverIsBuilders(p, f);
    FoundFacts(f);
    AddressesSeen(p, f);
    TypeSeen(p, f);
  }

  lemma ReferenceIsBuilders(p: P.Packet, f: seq<Byte>)
    requires P.Built(p) && p.truncate == 0 && P.Frame(p) <= f && InScope(p)
    requires P.Applies(p, P.Coverage(p))
    ensures Parse(f) == L4(P.L4Start(p), p.proto, |p.l4|)
    ensures Reference(f) == P.L4Checksum(p, p.l4, P.Coverage(p))
    ensures Word16(f, FieldPos(f)) == P.FieldValue(p)
  {
    hide Parse;
    hide P.Frame;
    hide P.PseudoHeader;
    hide PseudoOf;
    hide OnesSum;
    CoverIsBuilders(p, f);
    PseudoIsBuilders(p, f);
    var n, o := P.Coverage(p), P.FieldOffset(p.proto);
    CoveredSeen(p, f, n);
    assert CoveredBytes(f) == P.L4Bytes(p)[..n];
    P.TakePut(p.l4, n, o, P.FieldValue(p));
    P.PutBack(p.l4[..n], o, P.FieldValue(p));
    assert Word16(f, FieldPos(f)) == Word16(CoveredBytes(f), o);
  }

  /** The driver's frame-level reference is the builder's: on a fault-free packet in
      scope the inserter writes what the builder wrote, whatever the field held. */
  lemma InserterIsBuilders(p: P.Packet, f: seq<Byte>, held: Word)
    requires P.Built(p) && p.truncate == 0 && P.Frame(p) <= f && InScope(p)
    requires P.Applies(p, P.Coverage(p)) && !p.badL4 && !(p.proto == P.UDP && p.udpZero)
    ensures Parse(f).L4?
    ensures var g := Put16(f, FieldPos(f), held);
      Parse(g).L4? && Inserted(g) == f
  {
    ReferenceIsBuilders(p, f);
    Restored(f, held);
  }

  lemma Restored(f: seq<Byte>, held: Word)
    requires Parse(f).L4? && Word16(f, FieldPos(f)) == P.Sent(Parse(f).proto, Reference(f))
    ensures var g := Put16(f, FieldPos(f), held);
      Parse(g).L4? && Inserted(g) == f
  {
    hide Parse;
    hide Reference;
    hide CoveredBytes;
    hide PseudoOf;
    FieldOnly(f, held);
    var i := FieldPos(f);
    assert Put16(Put16(f, i, held), i, Word16(f, i)) == f;
  }
}
