/** MII framing: the encoder, the two decoders of the nibble stream and what they
    agree on, and the scoreboard. */
module Mii {
  import opened Crc32
  import Saf

  const PREAMBLE_BYTE: bv8 := 0x55
  const SFD: bv8 := 0xD5
  const PREAMBLE_LEN: nat := 7
  const FCS_LEN: nat := 4
  const FIVES: nat := 15

  /** The transmit pins in one clock cycle. */
  datatype Pins = Pins(en: bool, txd: bv4)

  // ------------------------------------------------------ encoder

  function Join(lo: bv4, hi: bv4): bv8 { lo as bv8 | (hi as bv8 << 4) }

  function LowNib(b: bv8): bv4 { (b & 0xF) as bv4 }

  function HighNib(b: bv8): bv4 { (b >> 4) as bv4 }

  lemma Rejoined(b: bv8)
    ensures Join(LowNib(b), HighNib(b)) == b
  {
  }

  function Nibs(d: seq<bv8>): (r: seq<bv4>)
    ensures |r| == 2 * |d|
  {
    if d == [] then [] else [LowNib(d[0]), HighNib(d[0])] + Nibs(d[1..])
  }

  function Fives(n: nat): (r: seq<bv4>)
    ensures |r| == n
  {
    seq(n, _ => 5)
  }

  /** Preamble, SFD nibble, frame and FCS, low nibbles first. */
  function WireNibs(f: seq<bv8>, fives: nat): seq<bv4> {
    Fives(fives) + [0xD] + Nibs(f + FcsBytes(f))
  }

  // ------------------------------------------------------ what a trace holds

  /** The nibbles since transmit enable last rose, if it is still up. */
  function Open(t: seq<Pins>): (r: seq<bv4>)
    decreases |t|
  {
    if t == [] || !t[|t| - 1].en then [] else Open(t[..|t| - 1]) + [t[|t| - 1].txd]
  }

  /** The runs of transmit enable that have ended, in order. */
  function Runs(t: seq<Pins>): seq<seq<bv4>>
    decreases |t|
  {
    if t == [] then []
    else
      var u := t[..|t| - 1];
      if !t[|t| - 1].en && Open(u) != [] then Runs(u) + [Open(u)] else Runs(u)
  }

  lemma OneMore(t: seq<Pins>, x: Pins)
    ensures Open(t + [x]) == if x.en then Open(t) + [x.txd] else []
    ensures Runs(t + [x]) == if !x.en && Open(t) != [] then Runs(t) + [Open(t)] else Runs(t)
  {
    assert (t + [x])[..|t|] == t;
  }

  /** Bytes paired from nibbles; an odd last nibble is left over. */
  function Bytes(n: seq<bv4>): (r: seq<bv8>)
    ensures |r| == |n| / 2
    ensures forall i :: 0 <= i < |n| / 2 ==> r[i] == Join(n[2 * i], n[2 * i + 1])
  {
    seq(|n| / 2, i requires 0 <= i < |n| / 2 => Join(n[2 * i], n[2 * i + 1]))
  }

  // ------------------------------------------------------ the monitor

  datatype Fault = OddNibbles(n: nat) | Runt(n: nat) | BadPreamble | FcsMismatch(n: nat)

  datatype Verdict = Rejected(fault: Fault) | Frame(payload: seq<bv8>, fcsGood: bool)

  predicate PreambleGood(data: seq<bv8>)
    requires |data| > PREAMBLE_LEN
  {
    (forall k :: 0 <= k < PREAMBLE_LEN ==> data[k] == PREAMBLE_BYTE) && data[PREAMBLE_LEN] == SFD
  }

  function JudgeBytes(data: seq<bv8>): Verdict {
    var hdr := PREAMBLE_LEN + 1;
    if |data| < hdr + FCS_LEN then Rejected(Runt(|data|))
    else if !PreambleGood(data) then Rejected(BadPreamble)
    else
      var body := data[hdr..];
      var cut := |body| - FCS_LEN;
      Frame(body[..cut], FcsOk(body[..cut], body[cut..]))
  }

  /** One run of transmit enable, judged. */
  function Judge(nibbles: seq<bv4>): Verdict {
    if |nibbles| % 2 != 0 then Rejected(OddNibbles(|nibbles|)) else JudgeBytes(Bytes(nibbles))
  }

  function Payload(v: Verdict): seq<seq<bv8>> { if v.Frame? then [v.payload] else [] }

  function Faults(v: Verdict): seq<Fault> {
    match v
    case Rejected(fault) => [fault]
    case Frame(p, good) => if good then [] else [FcsMismatch(|p|)]
  }

  function FcsErrors(v: Verdict): nat { if v.Frame? && !v.fcsGood then 1 else 0 }

  function Payloads(runs: seq<seq<bv4>>): seq<seq<bv8>> {
    if runs == [] then [] else Payloads(runs[..|runs| - 1]) + Payload(Judge(runs[|runs| - 1]))
  }

  function AllFaults(runs: seq<seq<bv4>>): seq<Fault> {
    if runs == [] then [] else AllFaults(runs[..|runs| - 1]) + Faults(Judge(runs[|runs| - 1]))
  }

  function AllFcsErrors(runs: seq<seq<bv4>>): nat {
    if runs == [] then 0 else AllFcsErrors(runs[..|runs| - 1]) + FcsErrors(Judge(runs[|runs| - 1]))
  }

  lemma OneMoreRun(runs: seq<seq<bv4>>, n: seq<bv4>)
    ensures Payloads(runs + [n]) == Payloads(runs) + Payload(Judge(n))
    ensures AllFaults(runs + [n]) == AllFaults(runs) + Faults(Judge(n))
    ensures AllFcsErrors(runs + [n]) == AllFcsErrors(runs) + FcsErrors(Judge(n))
  {
    hide Judge;
    assert (runs + [n])[..|runs|] == runs;
  }

  lemma NothingYet()
    ensures Open([]) == [] && Runs([]) == []
    ensures Payloads([]) == [] && AllFaults([]) == [] && AllFcsErrors([]) == 0
  {
  }

  class Monitor {
    var payloads: seq<seq<bv8>>
    var fcsErrors: nat
    var framingErrors: seq<Fault>

    constructor ()
      ensures payloads == [] && fcsErrors == 0 && framingErrors == []
    {
      payloads := [];
      fcsErrors := 0;
      framingErrors := [];
    }

    /** Everything found in the ended runs of a trace is added, in order. */
    method Run(trace: seq<Pins>)
      modifies this
      ensures payloads == old(payloads) + Payloads(Runs(trace))
      ensures fcsErrors == old(fcsErrors) + AllFcsErrors(Runs(trace))
      ensures framingErrors == old(framingErrors) + AllFaults(Runs(trace))
    {
      hide Open, Runs, Judge, Payloads, AllFaults, AllFcsErrors;
      NothingYet();
      var nibbles: seq<bv4> := [];
      var active := false;
      for i := 0 to |trace|
        invariant nibbles == Open(trace[..i]) && (active <==> nibbles != [])
        invariant payloads == old(payloads) + Payloads(Runs(trace[..i]))
        invariant fcsErrors == old(fcsErrors) + AllFcsErrors(Runs(trace[..i]))
        invariant framingErrors == old(framingErrors) + AllFaults(Runs(trace[..i]))
      {
        var x := trace[i];
        ghost var runs := Runs(trace[..i]);
        OneMore(trace[..i], x);
        assert trace[..i + 1] == trace[..i] + [x];
        if x.en {
          nibbles := nibbles + [x.txd];
          active := true;
        } else if active {
          OneMoreRun(runs, nibbles);
          Finish(nibbles);
          nibbles := [];
          active := false;
        }
      }
      assert trace[..|trace|] == trace;
    }

    method Finish(nibbles: seq<bv4>)
      modifies this
      ensures payloads == old(payloads) + Payload(Judge(nibbles))
      ensures fcsErrors == old(fcsErrors) + FcsErrors(Judge(nibbles))
      ensures framingErrors == old(framingErrors) + Faults(Judge(nibbles))
    {
      if |nibbles| % 2 != 0 {
        framingErrors := framingErrors + [OddNibbles(|nibbles|)];
        return;
      }
      var data := Bytes(nibbles);
      var hdr := PREAMBLE_LEN + 1;
      if |data| < hdr + FCS_LEN {
        framingErrors := framingErrors + [Runt(|data|)];
        return;
      }
      if (exists k :: 0 <= k < PREAMBLE_LEN && data[k] != PREAMBLE_BYTE) || data[PREAMBLE_LEN] != SFD {
        framingErrors := framingErrors + [BadPreamble];
        return;
      }
      var body := data[hdr..];
      var cut := |body| - FCS_LEN;
      var payload, wire := body[..cut], body[cut..];
      if !FcsOk(payload, wire) {
        fcsErrors := fcsErrors + 1;
        framingErrors := framingErrors + [FcsMismatch(|payload|)];
      }
      payloads := payloads + [payload];
    }
  }

  // ------------------------------------------------------ the benches' capture

  /** What the capture hands its callbacks. */
  datatype Event = OnByte(i: nat, b: bv8) | OnFrame(n: nat)

  function ByteEvents(n: seq<bv4>): (r: seq<Event>)
    ensures |r| == |n| / 2
  {
    seq(|Bytes(n)|, i requires 0 <= i < |Bytes(n)| => OnByte(i, Bytes(n)[i]))
  }

  function Events(runs: seq<seq<bv4>>): seq<Event> {
    if runs == [] then []
    else
      var last := runs[|runs| - 1];
      Events(runs[..|runs| - 1]) + ByteEvents(last) + [OnFrame(|last| / 2)]
  }

  lemma MoreEvents(runs: seq<seq<bv4>>, n: seq<bv4>)
    ensures Events(runs + [n]) == Events(runs) + ByteEvents(n) + [OnFrame(|n| / 2)]
  {
    assert (runs + [n])[..|runs|] == runs;
  }

  lemma NoEventsYet()
    ensures Open([]) == [] && Runs([]) == [] && Events([]) == [] && ByteEvents([]) == []
  {
  }

  class NibbleCapture {
    var enD: bool
    var nsel: bool
    var lown: bv4
    var widx: nat

    constructor ()
      ensures !enD && !nsel && widx == 0
    {
      enD, nsel, lown, widx := false, false, 0, 0;
    }

    /** One clock edge: rstN, and the pins. */
    method Clock(rstN: bool, x: Pins) returns (out: seq<Event>)
      modifies this
      ensures !rstN ==> out == [] && !enD && !nsel && widx == 0
      ensures rstN ==> enD == x.en
      ensures rstN && x.en && !old(nsel) ==> out == [] && lown == x.txd && nsel && widx == old(widx)
      ensures rstN && x.en && old(nsel) ==> out == [OnByte(old(widx), Join(old(lown), x.txd))]
                                            && !nsel && widx == old(widx) + 1
      ensures rstN && !x.en && old(enD) ==> out == [OnFrame(old(widx))] && !nsel && widx == 0
      ensures rstN && !x.en && !old(enD) ==> out == [] && nsel == old(nsel) && widx == old(widx)
    {
      out := [];
      if !rstN {
        enD, nsel, widx := false, false, 0;
        return;
      }
      var wasEn := enD;
      enD := x.en;
      if x.en {
        if !nsel {
          lown := x.txd;
          nsel := true;
        } else {
          out := [OnByte(widx, Join(lown, x.txd))];
          widx := widx + 1;
          nsel := false;
        }
      } else if wasEn {
        out := [OnFrame(widx)];
        widx := 0;
        nsel := false;
      }
    }

    /** Out of reset, from a fresh start: the callbacks of each ended run, then the bytes
        of the run still open. */
    method RunAll(trace: seq<Pins>) returns (out: seq<Event>)
      requires !enD && !nsel && widx == 0
      modifies this
      ensures out == Events(Runs(trace)) + ByteEvents(Open(trace))
    {
      hide Open, Runs, Events, ByteEvents;
      out := [];
      NoEventsYet();
      for i := 0 to |trace|
        invariant out == Events(Runs(trace[..i])) + ByteEvents(Open(trace[..i]))
        invariant enD <==> Open(trace[..i]) != []
        invariant widx == |Open(trace[..i])| / 2
        invariant nsel <==> |Open(trace[..i])| % 2 == 1
        invariant nsel ==> lown == Open(trace[..i])[|Open(trace[..i])| - 1]
      {
        var x := trace[i];
        ghost var n, runs := Open(trace[..i]), Runs(trace[..i]);
        OneMore(trace[..i], x);
        assert trace[..i + 1] == trace[..i] + [x];
        MoreBytes(n, x.txd);
        MoreEvents(runs, n);
        var e := Clock(true, x);
        out := out + e;
      }
      assert trace[..|trace|] == trace;
    }
  }

  lemma MoreBytes(n: seq<bv4>, x: bv4)
    ensures ByteEvents(n + [x]) ==
      if |n| % 2 == 1 then ByteEvents(n) + [OnByte(|n| / 2, Join(n[|n| - 1], x))] else ByteEvents(n)
  {
    var m := n + [x];
    assert forall i :: 0 <= i < |n| / 2 ==> Bytes(m)[i] == Bytes(n)[i];
  }

  // ------------------------------------------------------ round trip

  lemma {:induction false} BytesConcat(a: seq<bv4>, b: seq<bv4>)
    requires |a| % 2 == 0
    ensures Bytes(a + b) == Bytes(a) + Bytes(b)
  {
    forall i | 0 <= i < |a + b| / 2 ensures Bytes(a + b)[i] == (Bytes(a) + Bytes(b))[i] {
      if i >= |a| / 2 {
        var j := i - |a| / 2;
        assert (a + b)[2 * i] == b[2 * j] && (a + b)[2 * i + 1] == b[2 * j + 1];
      }
    }
  }

  lemma OnePair(b: bv8)
    ensures Bytes([LowNib(b), HighNib(b)]) == [b]
  {
    hide Join, LowNib, HighNib;
    Rejoined(b);
  }

  lemma NibsFirst(d: seq<bv8>)
    ensures d == [] ==> Nibs(d) == []
    ensures d != [] ==> Nibs(d) == [LowNib(d[0]), HighNib(d[0])] + Nibs(d[1..])
  {
  }

  lemma {:induction false} BytesOfNibs(d: seq<bv8>)
    ensures Bytes(Nibs(d)) == d
  {
    hide Nibs, Bytes, Join, LowNib, HighNib;
    NibsFirst(d);
    if d != [] {
      BytesOfNibs(d[1..]);
      BytesConcat([LowNib(d[0]), HighNib(d[0])], Nibs(d[1..]));
      OnePair(d[0]);
      assert d == [d[0]] + d[1..];
    }
  }

  function Preamble(n: nat): (r: seq<bv8>)
    ensures |r| == n
  {
    seq(n, _ => PREAMBLE_BYTE)
  }

  lemma PreambleNibbles()
    ensures Join(5, 5) == PREAMBLE_BYTE
    ensures Join(5, 0xD) == SFD
    ensures SFD != PREAMBLE_BYTE
  {
  }

  /** An odd number of fives is so many preamble bytes and the SFD. */
  lemma WireBytes(f: seq<bv8>, fives: nat)
    requires fives % 2 == 1
    ensures |WireNibs(f, fives)| % 2 == 0
    ensures Bytes(WireNibs(f, fives)) == Preamble(fives / 2) + [SFD] + (f + FcsBytes(f))
  {
    hide Join;
    var a := Fives(fives) + [0xD];
    PreambleNibbles();
    forall i | 0 <= i < |a| / 2 ensures Bytes(a)[i] == (Preamble(fives / 2) + [SFD])[i] {
      assert a[2 * i] == 5;
    }
    assert Bytes(a) == Preamble(fives / 2) + [SFD];
    BytesConcat(a, Nibs(f + FcsBytes(f)));
    BytesOfNibs(f + FcsBytes(f));
    assert WireNibs(f, fives) == a + Nibs(f + FcsBytes(f));
  }

  lemma OddNibblesSent(f: seq<bv8>, fives: nat)
    requires fives % 2 == 0
    ensures |WireNibs(f, fives)| % 2 == 1
  {
  }

  lemma JudgesFifteen(f: seq<bv8>)
    ensures Judge(WireNibs(f, FIVES)) == Frame(f, true)
  {
    hide Bytes, Join, WireNibs, FcsOk, FcsBytes;
    WireBytes(f, FIVES);
    var data := Bytes(WireNibs(f, FIVES));
    var body := data[PREAMBLE_LEN + 1..];
    assert body == f + FcsBytes(f);
    assert body[..|body| - FCS_LEN] == f && body[|body| - FCS_LEN..] == FcsBytes(f);
    ResidueExactly(f, FcsBytes(f));
  }

  /** The monitor takes an encoded frame back apart exactly when it was sent with fifteen
      fives. */
  lemma JudgesEncoded(f: seq<bv8>, fives: nat)
    ensures fives == 15 ==> Judge(WireNibs(f, fives)) == Frame(f, true)
    ensures fives != 15 ==> Judge(WireNibs(f, fives)).Rejected?
  {
    hide WireNibs, Bytes, Join, FcsOk, FcsBytes;
    if fives == FIVES {
      JudgesFifteen(f);
    } else if fives % 2 == 0 {
      OddNibblesSent(f, fives);
    } else {
      WireBytes(f, fives);
      var data := Bytes(WireNibs(f, fives));
      PreambleNibbles();
      if fives > FIVES {
        assert data[PREAMBLE_LEN] == Preamble(fives / 2)[PREAMBLE_LEN];
      } else {
        assert data[fives / 2] == SFD;
      }
    }
  }

  lemma JoinExactly(lo: bv4, hi: bv4)
    ensures Join(lo, hi) == 0x55 <==> lo == 5 && hi == 5
    ensures Join(lo, hi) == 0xD5 <==> lo == 5 && hi == 0xD
    ensures LowNib(Join(lo, hi)) == lo && HighNib(Join(lo, hi)) == hi
  {
  }

  lemma {:induction false} NibsOfBytes(n: seq<bv4>)
    requires |n| % 2 == 0
    ensures Nibs(Bytes(n)) == n
    decreases |n|
  {
    hide Join, LowNib, HighNib;
    if n != [] {
      NibsOfBytes(n[2..]);
      JoinExactly(n[0], n[1]);
      assert Bytes(n)[0] == Join(n[0], n[1]);
      assert Bytes(n)[1..] == Bytes(n[2..]);
      assert n == [n[0], n[1]] + n[2..];
    }
  }

  /** Fifteen nibbles of 5 and one of 13. */
  predicate Opened(n: seq<bv4>) { |n| >= 16 && (forall i :: 0 <= i < 15 ==> n[i] == 5) && n[15] == 0xD }

  lemma PreambleExactly(n: seq<bv4>)
    requires |n| >= 24 && |n| % 2 == 0
    ensures PreambleGood(Bytes(n)) <==> Opened(n)
  {
    hide Join;
    forall i | 0 <= i < 8
      ensures Bytes(n)[i] == 0x55 <==> n[2 * i] == 5 && n[2 * i + 1] == 5
      ensures Bytes(n)[i] == 0xD5 <==> n[2 * i] == 5 && n[2 * i + 1] == 0xD
    {
      JoinExactly(n[2 * i], n[2 * i + 1]);
    }
    if Opened(n) {
      assert PreambleGood(Bytes(n));
    }
    if PreambleGood(Bytes(n)) {
      forall i | 0 <= i < 15 ensures n[i] == 5 {
        assert Bytes(n)[i / 2] == if i / 2 < 7 then 0x55 else 0xD5;
        assert i == 2 * (i / 2) || i == 2 * (i / 2) + 1;
      }
      assert Bytes(n)[7] == 0xD5;
    }
  }

  /** What the monitor accepts, in nibbles: an even number, at least 24, opened by
      preamble and SFD; and what it reports otherwise. */
  lemma JudgeExactly(n: seq<bv4>)
    ensures var v := Judge(n);
      && (v.Frame? <==> |n| % 2 == 0 && |n| >= 24 && Opened(n))
      && (v == Rejected(OddNibbles(|n|)) <==> |n| % 2 == 1)
      && (v == Rejected(Runt(|n| / 2)) <==> |n| % 2 == 0 && |n| < 24)
      && (v == Rejected(BadPreamble) <==> |n| % 2 == 0 && |n| >= 24 && !Opened(n))
  {
    hide Bytes, Opened, PreambleGood, FcsOk;
    if |n| % 2 == 0 && |n| >= 24 { PreambleExactly(n); }
  }

  /** The payload and FCS of an accepted run, low nibbles first, whether or not they
      match. */
  lemma FrameExactly(n: seq<bv4>)
    requires |n| % 2 == 0 && |n| >= 24 && Opened(n)
    ensures var v := Judge(n);
      && v.Frame?
      && Nibs(v.payload) == n[16..|n| - 8]
      && (v.fcsGood <==> n[|n| - 8..] == Nibs(FcsBytes(v.payload)))
  {
    hide Bytes, Opened, PreambleGood, FcsOk, FcsBytes, Nibs;
    PreambleExactly(n);
    FrameParts(n);
    var p, fcs := Bytes(n[16..|n| - 8]), Bytes(n[|n| - 8..]);
    NibsOfBytes(n[16..|n| - 8]);
    NibsOfBytes(n[|n| - 8..]);
    ResidueExactly(p, fcs);
    BytesOfNibs(FcsBytes(p));
  }

  lemma FrameParts(n: seq<bv4>)
    requires |n| % 2 == 0 && |n| >= 24
    ensures var body := Bytes(n)[8..];
      && body[..|body| - 4] == Bytes(n[16..|n| - 8])
      && body[|body| - 4..] == Bytes(n[|n| - 8..])
  {
    hide Join;
  }

  // ------------------------------------------------------ whole streams

  /** A frame on the wire and the idle cycles after it. */
  datatype Sent = Sent(nibs: seq<bv4>, idle: nat)

  function Enabled(n: seq<bv4>): seq<Pins> { seq(|n|, i requires 0 <= i < |n| => Pins(true, n[i])) }

  function Idle(n: nat): seq<Pins> { seq(n, _ => Pins(false, 0)) }

  function Stream(lead: nat, list: seq<Sent>): seq<Pins> {
    if list == [] then Idle(lead)
    else
      var s := list[|list| - 1];
      Stream(lead, list[..|list| - 1]) + Enabled(s.nibs) + Idle(s.idle)
  }

  function AllNibs(list: seq<Sent>): (r: seq<seq<bv4>>)
    ensures |r| == |list|
    ensures forall k :: 0 <= k < |list| ==> r[k] == list[k].nibs
  {
    seq(|list|, k requires 0 <= k < |list| => list[k].nibs)
  }

  lemma {:induction false} AfterEnabled(t: seq<Pins>, n: seq<bv4>)
    ensures Open(t + Enabled(n)) == Open(t) + n
    ensures Runs(t + Enabled(n)) == Runs(t)
    decreases |n|
  {
    hide Open, Runs;
    if n == [] {
      assert t + Enabled(n) == t;
    } else {
      var m := n[..|n| - 1];
      AfterEnabled(t, m);
      assert t + Enabled(n) == t + Enabled(m) + [Pins(true, n[|n| - 1])];
      OneMore(t + Enabled(m), Pins(true, n[|n| - 1]));
    }
  }

  lemma {:induction false} AfterIdle(t: seq<Pins>, n: nat)
    ensures n > 0 ==> Open(t + Idle(n)) == []
    ensures Runs(t + Idle(n)) == if n > 0 && Open(t) != [] then Runs(t) + [Open(t)] else Runs(t)
    decreases n
  {
    if n == 0 {
      assert t + Idle(n) == t;
    } else {
      AfterIdle(t, n - 1);
      assert t + Idle(n) == t + Idle(n - 1) + [Pins(false, 0)];
      OneMore(t + Idle(n - 1), Pins(false, 0));
      if n == 1 { assert t + Idle(0) == t; }
    }
  }

  /** With an idle cycle after each, the runs found are the ones sent. */
  lemma {:induction false} RunsOfStream(lead: nat, list: seq<Sent>)
    requires forall s :: s in list ==> s.nibs != [] && s.idle >= 1
    ensures Runs(Stream(lead, list)) == AllNibs(list)
    ensures Open(Stream(lead, list)) == []
  {
    hide Runs, Open, Enabled;
    if list == [] {
      NothingYet();
      AfterIdle([], lead);
      assert [] + Idle(lead) == Idle(lead);
    } else {
      var n := |list| - 1;
      var t, s := Stream(lead, list[..n]), list[n];
      assert s in list;
      RunsOfStream(lead, list[..n]);
      AfterEnabled(t, s.nibs);
      AfterIdle(t + Enabled(s.nibs), s.idle);
      assert Open(t + Enabled(s.nibs)) == s.nibs;
      assert AllNibs(list) == AllNibs(list[..n]) + [s.nibs];
    }
  }

  /** Each frame encoded with fifteen fives. */
  predicate Encodes(list: seq<Sent>, frames: seq<seq<bv8>>) {
    && |list| == |frames|
    && forall k :: 0 <= k < |list| ==> list[k].nibs == WireNibs(frames[k], FIVES) && list[k].idle >= 1
  }

  lemma OneMoreGood(runs: seq<seq<bv4>>, f: seq<bv8>)
    ensures Payloads(runs + [WireNibs(f, FIVES)]) == Payloads(runs) + [f]
    ensures AllFaults(runs + [WireNibs(f, FIVES)]) == AllFaults(runs)
    ensures AllFcsErrors(runs + [WireNibs(f, FIVES)]) == AllFcsErrors(runs)
  {
    hide Judge, WireNibs, Payloads, AllFaults, AllFcsErrors;
    JudgesFifteen(f);
    OneMoreRun(runs, WireNibs(f, FIVES));
  }

  function Encoded(frames: seq<seq<bv8>>): seq<seq<bv4>> {
    if frames == [] then [] else Encoded(frames[..|frames| - 1]) + [WireNibs(frames[|frames| - 1], FIVES)]
  }

  lemma {:induction false} PayloadsOfEncoded(frames: seq<seq<bv8>>)
    ensures Payloads(Encoded(frames)) == frames
    ensures AllFaults(Encoded(frames)) == [] && AllFcsErrors(Encoded(frames)) == 0
  {
    hide WireNibs, Payloads, AllFaults, AllFcsErrors;
    if frames == [] {
      NothingYet();
    } else {
      var n := |frames| - 1;
      PayloadsOfEncoded(frames[..n]);
      OneMoreGood(Encoded(frames[..n]), frames[n]);
      assert frames == frames[..n] + [frames[n]];
    }
  }

  lemma {:induction false} EncodedAll(runs: seq<seq<bv4>>, frames: seq<seq<bv8>>)
    requires |runs| == |frames|
    requires forall k :: 0 <= k < |runs| ==> runs[k] == WireNibs(frames[k], FIVES)
    ensures runs == Encoded(frames)
  {
    hide WireNibs;
    if runs != [] {
      var n := |runs| - 1;
      EncodedAll(runs[..n], frames[..n]);
      assert runs == runs[..n] + [runs[n]];
    }
  }

  /** Round trip: any list of payloads, sent with at least one idle cycle after each,
      comes back as that list with no error. */
  lemma RoundTrip(lead: nat, list: seq<Sent>, frames: seq<seq<bv8>>)
    requires Encodes(list, frames)
    ensures var runs := Runs(Stream(lead, list));
      Payloads(runs) == frames && AllFaults(runs) == [] && AllFcsErrors(runs) == 0
  {
    RunsOfStream(lead, list);
    EncodedAll(AllNibs(list), frames);
    PayloadsOfEncoded(frames);
  }

  // ------------------------------------------------------ the decoders agree

  /** What a bench keeps of the capture's callbacks: frames taken, and the buffer. */
  datatype Kept = Kept(frames: seq<seq<bv8>>, buf: seq<bv8>)

  function Keep(k: Kept, e: Event): Kept {
    match e
    case OnByte(i, b) => k.(buf := (if i <= |k.buf| then k.buf[..i] else k.buf) + [b])
    case OnFrame(n) => Kept(k.frames + [if n <= |k.buf| then k.buf[..n] else k.buf], [])
  }

  function KeepAll(events: seq<Event>): Kept {
    if events == [] then Kept([], [])
    else Keep(KeepAll(events[..|events| - 1]), events[|events| - 1])
  }

  lemma KeepOne(before: seq<Event>, e: Event)
    ensures KeepAll(before + [e]) == Keep(KeepAll(before), e)
  {
    assert (before + [e])[..|before|] == before;
  }

  lemma FirstEvents(n: seq<bv4>, m: nat)
    requires 0 < m <= |n| / 2
    ensures ByteEvents(n)[..m] == ByteEvents(n)[..m - 1] + [OnByte(m - 1, Bytes(n)[m - 1])]
    ensures Bytes(n)[..m] == Bytes(n)[..m - 1] + [Bytes(n)[m - 1]]
  {
    hide Join;
  }

  lemma {:induction false} KeepBytes(before: seq<Event>, n: seq<bv4>, m: nat)
    requires KeepAll(before).buf == [] && m <= |n| / 2
    ensures KeepAll(before + ByteEvents(n)[..m]) == Kept(KeepAll(before).frames, Bytes(n)[..m])
    decreases m
  {
    hide Join, KeepAll, ByteEvents, Bytes;
    if m == 0 {
      assert before + ByteEvents(n)[..m] == before;
    } else {
      var most := before + ByteEvents(n)[..m - 1];
      KeepBytes(before, n, m - 1);
      FirstEvents(n, m);
      assert before + ByteEvents(n)[..m] == most + [OnByte(m - 1, Bytes(n)[m - 1])];
      KeepOne(most, OnByte(m - 1, Bytes(n)[m - 1]));
    }
  }

  function AllBytes(runs: seq<seq<bv4>>): (r: seq<seq<bv8>>)
    ensures |r| == |runs|
  {
    seq(|runs|, k requires 0 <= k < |runs| => Bytes(runs[k]))
  }

  lemma KeepNone()
    ensures KeepAll(Events([])) == Kept(AllBytes([]), [])
  {
  }

  lemma {:induction false} KeepRuns(runs: seq<seq<bv4>>)
    ensures KeepAll(Events(runs)) == Kept(AllBytes(runs), [])
  {
    hide ByteEvents, Bytes, KeepAll;
    if runs == [] {
      KeepNone();
    } else {
      var n, last := |runs| - 1, runs[|runs| - 1];
      var before := Events(runs[..n]);
      KeepRuns(runs[..n]);
      KeepBytes(before, last, |last| / 2);
      assert ByteEvents(last)[..|last| / 2] == ByteEvents(last) && Bytes(last)[..|last| / 2] == Bytes(last);
      var es := Events(runs);
      assert es == before + ByteEvents(last) + [OnFrame(|last| / 2)];
      KeepOne(before + ByteEvents(last), OnFrame(|last| / 2));
      assert AllBytes(runs) == AllBytes(runs[..n]) + [Bytes(last)];
    }
  }

  /** On every trace, whatever is on the pins, the two decoders see the same frames: as
      many, and each verdict of the monitor is the one on the bytes the capture kept,
      but for runs of an odd number of nibbles, which only the monitor rejects. */
  lemma DecodersAgree(t: seq<Pins>, k: nat)
    requires k < |Runs(t)|
    ensures var kept := KeepAll(Events(Runs(t)) + ByteEvents(Open(t)));
      && |kept.frames| == |Runs(t)|
      && Judge(Runs(t)[k]) == if |Runs(t)[k]| % 2 == 1 then Rejected(OddNibbles(|Runs(t)[k]|))
                              else JudgeBytes(kept.frames[k])
  {
    hide FcsOk, ByteEvents, Join, Runs, Open;
    var runs, n := Runs(t), Open(t);
    KeepRuns(runs);
    KeepBytes(Events(runs), n, |n| / 2);
    assert ByteEvents(n)[..|n| / 2] == ByteEvents(n);
    assert AllBytes(runs)[k] == Bytes(runs[k]);
  }

  /** A frame damaged on the wire within four consecutive bytes behind the SFD is counted
      as an FCS error. */
  lemma DamageSeen(f: seq<bv8>, run: seq<bv4>, i: nat, k: nat)
    requires |run| == |WireNibs(f, FIVES)| && k <= 4 && i + k <= |f| + FCS_LEN
    requires var got, sent := Bytes(run), Bytes(WireNibs(f, FIVES));
      && got != sent
      && got[..PREAMBLE_LEN + 1 + i] == sent[..PREAMBLE_LEN + 1 + i]
      && got[PREAMBLE_LEN + 1 + i + k..] == sent[PREAMBLE_LEN + 1 + i + k..]
    ensures Judge(run).Frame? && !Judge(run).fcsGood
    ensures FcsErrors(Judge(run)) == 1 && Faults(Judge(run)) == [FcsMismatch(|f|)]
    ensures Payload(Judge(run)) == [Bytes(run)[8..8 + |f|]]
  {
    hide Join, WireNibs, FcsOk, FcsBytes, CrcRaw;
    WireBytes(f, FIVES);
    DamagedBody(f, Bytes(run), i, k);
    assert Bytes(run)[8..][..|f|] == Bytes(run)[8..8 + |f|];
  }

  lemma DamagedBody(f: seq<bv8>, got: seq<bv8>, i: nat, k: nat)
    requires |got| == PREAMBLE_LEN + 1 + |f| + FCS_LEN && k <= 4 && i + k <= |f| + FCS_LEN
    requires var sent := Preamble(PREAMBLE_LEN) + [SFD] + (f + FcsBytes(f));
      && got != sent
      && got[..PREAMBLE_LEN + 1 + i] == sent[..PREAMBLE_LEN + 1 + i]
      && got[PREAMBLE_LEN + 1 + i + k..] == sent[PREAMBLE_LEN + 1 + i + k..]
    ensures PreambleGood(got)
    ensures var body := got[PREAMBLE_LEN + 1..];
      !FcsOk(body[..|f|], body[|f|..])
  {
    hide FcsOk, FcsBytes, CrcRaw;
    var hdr := PREAMBLE_LEN + 1;
    var head, s := Preamble(PREAMBLE_LEN) + [SFD], f + FcsBytes(f);
    var sent := head + s;
    assert got[..hdr] == got[..hdr + i][..hdr] == sent[..hdr + i][..hdr] == head;
    assert forall j :: 0 <= j < hdr ==> got[j] == got[..hdr][j];
    var g := got[hdr..];
    assert g[..i] == got[..hdr + i][hdr..] && s[..i] == sent[..hdr + i][hdr..];
    assert g[i + k..] == got[hdr + i + k..] && s[i + k..] == sent[hdr + i + k..];
    assert got == got[..hdr] + g;
    BytesDetected(f, g, i, k);
  }

  // ------------------------------------------------------ scoreboard

  class Scoreboard {
    const expected: seq<seq<bv8>>
    var errors: nat

    constructor (expected: seq<seq<bv8>>)
      ensures this.expected == expected && errors == 0
    {
      this.expected := expected;
      errors := 0;
    }

    /** Passes exactly when the payloads observed are the expected ones. */
    method Check(observed: seq<seq<bv8>>) returns (ok: bool)
      modifies this
      ensures errors >= old(errors)
      ensures ok <==> errors == 0
      ensures errors == old(errors) <==> observed == expected
    {
      if |observed| != |expected| { errors := errors + 1; }
      var n := if |observed| < |expected| then |observed| else |expected|;
      for i := 0 to n
        invariant errors >= old(errors)
        invariant errors == old(errors) <==> |observed| == |expected| && observed[..i] == expected[..i]
      {
        assert observed[..i + 1] == observed[..i] + [observed[i]];
        assert expected[..i + 1] == expected[..i] + [expected[i]];
        if expected[i] != observed[i] { errors := errors + 1; }
      }
      assert observed[..|observed|] == observed && expected[..|expected|] == expected;
      ok := errors == 0;
    }
  }

  /** The randomized suite's chain: what the policy puts on the wire, sent and monitored,
      passes the scoreboard. */
  method EndToEnd(segments: seq<Saf.Segment>, maxFrame: int, lead: nat, list: seq<Sent>) returns (ok: bool)
    requires Encodes(list, Saf.Expected(Saf.Beats(segments), maxFrame))
    ensures ok
  {
    var frames := Saf.SafExpected(segments, maxFrame);
    RoundTrip(lead, list, frames);
    var monitor := new Monitor();
    monitor.Run(Stream(lead, list));
    var board := new Scoreboard(frames);
    ok := board.Check(monitor.payloads);
  }
}
