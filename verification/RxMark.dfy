/** When a received frame may be marked checksum-verified: the checker's setting, the
    flushes around it, and the frames that wait in the stream meanwhile. */
module RxMark {
  import opened InternetChecksum
  import CsumParse
  import PacketFacts
  import P = Packet

  /** A frame in the stream; checked if the MAC took all of it with the checker on. */
  datatype Frame = Frame(buf: seq<Byte>, checked: bool)

  datatype Delivered = Delivered(frame: Frame, marked: bool)

  /** emz_rx_flush(): 0 for an empty stream, -ETIMEDOUT, -EIO. */
  datatype Flush = Empty | TimedOut | Failed

  datatype State = State(
    csumHw: bool,            // rx_csum_hw
    mark: bool,              // rx_csum_mark
    skip: nat,               // rx_mark_skip
    up: bool,                // datapath_up
    checker: bool,           // the MAC's RX_CSUM bit
    rxOn: bool,              // the MAC's RX_EN bit
    cut: bool,               // the stream ends in a frame cut short, not yet completed
    stream: seq<Frame>,      // between the MAC and NAPI
    delivered: seq<Delivered>)

  datatype Step =
    | Receive(buf: seq<Byte>)             // the MAC takes a frame
    | Deliver                             // NAPI hands the next one on
    | Drop                                // or drops it: short, or no buffer
    | Down(cutNow: bool, left: nat)       // RX off, possibly within a frame, flush, stop
    | Apply(rx: bool)                     // emz_csum_apply()
    | Up(flush: Flush, left: nat)         // emz_datapath_up()

  const INIT: State := State(false, false, 0, false, false, false, false, [], [])

  predicate Enabled(s: State, x: Step) {
    match x
    case Receive(_) => s.rxOn
    case Deliver => s.up && s.stream != []
    case Drop => s.up && s.stream != []
    case Down(_, left) => s.up && left <= |s.stream|
    case Apply(_) => !s.up
    case Up(_, left) => !s.up && left <= |s.stream|
  }

  /** The last n frames: a flush takes from the front. */
  function LastOf(q: seq<Frame>, n: nat): seq<Frame>
    requires n <= |q|
  {
    q[|q| - n..]
  }

  /** emz_rx_csum_ok() */
  predicate Marks(s: State, buf: seq<Byte>) { s.mark && s.skip == 0 && CsumParse.Vouched(buf) }

  function Next(s: State, x: Step): State
    requires Enabled(s, x)
  {
    match x
    case Receive(buf) =>
      // a start left in the stream is completed by this frame's end
      s.(stream := s.stream + [Frame(buf, s.checker && !s.cut)], cut := false)
    case Deliver =>
      var f := s.stream[0];
      s.(stream := s.stream[1..],
         skip := if s.mark && s.skip > 0 then s.skip - 1 else s.skip,
         delivered := s.delivered + [Delivered(f, Marks(s, f.buf))])
    case Drop => s.(stream := s.stream[1..])
    case Down(cutNow, left) =>
      s.(up := false, rxOn := false, cut := s.cut || cutNow, stream := LastOf(s.stream, left))
    case Apply(rx) => s.(csumHw := rx, checker := rx)
    case Up(flush, left) =>
      var q := if flush.Empty? then [] else LastOf(s.stream, left);
      if flush.Failed? then s.(stream := q)
      else s.(stream := q, mark := s.csumHw && flush.Empty?, skip := 1, rxOn := true, up := true)
  }

  predicate Run(s: State, xs: seq<Step>, t: State)
    decreases |xs|
  {
    if xs == [] then s == t else Enabled(s, xs[0]) && Run(Next(s, xs[0]), xs[1..], t)
  }

  // ------------------------------------------------------ the invariant

  predicate AllChecked(q: seq<Frame>, from: nat) { forall k :: from <= k < |q| ==> q[k].checked }

  predicate NoneWrong(d: seq<Delivered>) { forall k :: 0 <= k < |d| && d[k].marked ==> d[k].frame.checked }

  predicate Inv(s: State) {
    && s.csumHw == s.checker && s.skip <= 1
    && (s.up ==> s.rxOn)
    && (s.rxOn ==> s.up)
    && (s.up && s.mark ==>
          && s.checker
          && AllChecked(s.stream, s.skip)
          && (s.cut ==> s.skip == 1 && s.stream == []))
    && NoneWrong(s.delivered)
  }

  lemma StepKeeps(s: State, x: Step)
    requires Inv(s) && Enabled(s, x)
    ensures Inv(Next(s, x))
  {
  }

  lemma {:induction false} RunKeeps(s: State, xs: seq<Step>, t: State)
    requires Inv(s) && Run(s, xs, t)
    ensures Inv(t)
    decreases |xs|
  {
    if xs != [] {
      StepKeeps(s, xs[0]);
      RunKeeps(Next(s, xs[0]), xs[1..], t);
    }
  }

  /** Over any run from start-up, of any feature changes, rebuilds, flushes and frames in
      between, a frame delivered as verified was taken whole by the MAC with the checker
      on, and lies in the scope the driver parses. */
  lemma MarkedWasChecked(xs: seq<Step>, t: State, k: nat)
    requires Run(INIT, xs, t) && k < |t.delivered| && t.delivered[k].marked
    ensures t.delivered[k].frame.checked
    ensures CsumParse.Parse(t.delivered[k].frame.buf).L4?
  {
    RunKeeps(INIT, xs, t);
    MarkedInScope(INIT, xs, t);
  }

  predicate AllVouched(d: seq<Delivered>) {
    forall k :: 0 <= k < |d| && d[k].marked ==> CsumParse.Vouched(d[k].frame.buf)
  }

  lemma VouchedStep(s: State, x: Step)
    requires AllVouched(s.delivered) && Enabled(s, x)
    ensures AllVouched(Next(s, x).delivered)
  {
    hide CsumParse.Vouched;
  }

  lemma {:induction false} MarkedInScope(s: State, xs: seq<Step>, t: State)
    requires Run(s, xs, t) && AllVouched(s.delivered)
    ensures AllVouched(t.delivered)
    decreases |xs|
  {
    hide AllVouched, Next, Enabled;
    if xs != [] {
      VouchedStep(s, xs[0]);
      MarkedInScope(Next(s, xs[0]), xs[1..], t);
    }
  }

  predicate NoDown(xs: seq<Step>) { forall x :: x in xs ==> !x.Down? }

  /** Marking is complete as well: while the datapath stays up with marking on, over any
      run, what is delivered past the frames still to be left out is marked exactly when
      it is vouched for.  After a start that is all but the first. */
  lemma {:induction false} MarkedExactly(s: State, xs: seq<Step>, t: State)
    requires s.up && s.mark && Run(s, xs, t) && NoDown(xs)
    ensures s.delivered <= t.delivered
    ensures forall k :: |s.delivered| <= k < |t.delivered| ==>
      (t.delivered[k].marked <==> k >= |s.delivered| + s.skip && CsumParse.Vouched(t.delivered[k].frame.buf))
    decreases |xs|
  {
    hide CsumParse.Vouched;
    if xs != [] {
      var u := Next(s, xs[0]);
      assert xs[0] in xs && forall x :: x in xs[1..] ==> x in xs;
      MarkedExactly(u, xs[1..], t);
      if xs[0].Deliver? {
        var n := |s.delivered|;
        assert t.delivered[n] == u.delivered[n];
      }
    }
  }

  /** So for the packets themselves: a delivered one past those left out is marked exactly
      when it is in scope with a TCP checksum, or a UDP checksum that is there; a
      fault-free one in scope, TCP or UDP, always. */
  lemma PacketMarkedExactly(s: State, xs: seq<Step>, t: State, k: nat, p: P.Packet)
    requires s.up && s.mark && Run(s, xs, t) && NoDown(xs)
    requires |s.delivered| + s.skip <= k < |t.delivered|
    requires P.Built(p) && p.truncate == 0 && P.Frame(p) <= t.delivered[k].frame.buf
    ensures t.delivered[k].marked <==>
      CsumParse.InScope(p) && (p.proto == 6 || Word16(P.L4Bytes(p), 6) != 0)
    ensures PacketFacts.GoodInScope(p) ==> t.delivered[k].marked
  {
    hide Run, NoDown, P.Frame, P.L4Bytes, P.Built, CsumParse.Vouched, CsumParse.InScope;
    MarkedExactly(s, xs, t);
    var f := t.delivered[k].frame.buf;
    PacketFacts.VouchedExactly(p, f);
    if PacketFacts.GoodInScope(p) { PacketFacts.GoodIsVouched(p, f); }
  }

  /** What the MAC takes and NAPI delivers meanwhile, frame for frame and in order. */
  predicate Passing(xs: seq<Step>) { forall x :: x in xs ==> x.Receive? || x.Deliver? }

  function Bufs(q: seq<Frame>): (r: seq<seq<Byte>>)
    ensures |r| == |q|
  {
    seq(|q|, k requires 0 <= k < |q| => q[k].buf)
  }

  function DeliveredBufs(d: seq<Delivered>): (r: seq<seq<Byte>>)
    ensures |r| == |d|
  {
    seq(|d|, k requires 0 <= k < |d| => d[k].frame.buf)
  }

  function Received(xs: seq<Step>): seq<seq<Byte>> {
    if xs == [] then [] else (if xs[0].Receive? then [xs[0].buf] else []) + Received(xs[1..])
  }

  function Frames(s: State): seq<seq<Byte>> { DeliveredBufs(s.delivered) + Bufs(s.stream) }

  lemma PassingStep(s: State, x: Step)
    requires Enabled(s, x) && (x.Receive? || x.Deliver?)
    ensures Frames(Next(s, x)) == Frames(s) + (if x.Receive? then [x.buf] else [])
  {
  }

  lemma {:induction false} InOrder(s: State, xs: seq<Step>, t: State)
    requires Run(s, xs, t) && Passing(xs)
    ensures Frames(t) == Frames(s) + Received(xs)
    decreases |xs|
  {
    hide Next, Enabled, Frames;
    if xs != [] {
      var x := xs[0];
      assert x in xs && forall y :: y in xs[1..] ==> y in xs;
      PassingStep(s, x);
      InOrder(Next(s, x), xs[1..], t);
      var one := if x.Receive? then [x.buf] else [];
      assert Received(xs) == one + Received(xs[1..]);
    }
  }

  /** A start with the checker on and a clean flush is such a state, one frame to be left
      out. */
  lemma UpMarks(s: State, left: nat)
    requires Enabled(s, Up(Empty, left)) && s.csumHw
    ensures var t := Next(s, Up(Empty, left));
      t.up && t.mark && t.skip == 1
  {
  }

  /** In particular the second frame of the interface's life, if vouched for. */
  lemma SecondIsMarked(first: seq<Byte>, buf: seq<Byte>, t: State)
    requires CsumParse.Vouched(buf)
    requires Run(INIT, [Apply(true), Up(Empty, 0), Receive(first), Deliver, Receive(buf), Deliver], t)
    ensures |t.delivered| == 2 && !t.delivered[0].marked && t.delivered[1].marked
  {
    hide CsumParse.Vouched;
    var s1 := Next(INIT, Apply(true));
    var s2 := Next(s1, Up(Empty, 0));
    var s3 := Next(s2, Receive(first));
    var s4 := Next(s3, Deliver);
    var s5 := Next(s4, Receive(buf));
    RunSteps(INIT, [Apply(true), Up(Empty, 0), Receive(first), Deliver, Receive(buf), Deliver], t);
    RunSteps(s1, [Up(Empty, 0), Receive(first), Deliver, Receive(buf), Deliver], t);
    RunSteps(s2, [Receive(first), Deliver, Receive(buf), Deliver], t);
    RunSteps(s3, [Deliver, Receive(buf), Deliver], t);
    RunSteps(s4, [Receive(buf), Deliver], t);
    RunSteps(s5, [Deliver], t);
  }

  lemma RunSteps(s: State, xs: seq<Step>, t: State)
    requires xs != [] && Run(s, xs, t)
    ensures Enabled(s, xs[0])
    ensures Run(Next(s, xs[0]), xs[1..], t)
  {
  }

  /** Why the first frame is left out: RX off may cut a frame, and the next one, with the
      checker on and the flush clean, then completes it. */
  lemma FirstMayBeUnchecked(buf: seq<Byte>) returns (xs: seq<Step>, t: State)
    ensures Run(INIT, xs, t)
    ensures t.mark && t.stream == [Frame(buf, false)] && t.skip == 1
  {
    var s1 := Next(INIT, Up(Empty, 0));
    var s2 := Next(s1, Down(true, 0));
    var s3 := Next(s2, Apply(true));
    var s4 := Next(s3, Up(Empty, 0));
    t := Next(s4, Receive(buf));
    xs := [Up(Empty, 0), Down(true, 0), Apply(true), Up(Empty, 0), Receive(buf)];
    assert Run(t, [], t);
    assert Run(s4, [Receive(buf)], t);
    assert Run(s3, [Up(Empty, 0), Receive(buf)], t);
    assert Run(s2, [Apply(true), Up(Empty, 0), Receive(buf)], t);
    assert Run(s1, [Down(true, 0), Apply(true), Up(Empty, 0), Receive(buf)], t);
  }

  /** Why a flush that timed out turns marking off: frames taken unchecked may still
      wait behind the checker's new setting, past the one left out. */
  lemma {:induction false} WaitingUnchecked(buf: seq<Byte>, s: State, n: nat)
    returns (xs: seq<Step>, t: State)
    requires s.up && s.rxOn && !s.checker
    ensures Run(s, xs, t)
    ensures t.up && t.checker && !t.mark && |t.stream| == |s.stream| + n
    ensures s.stream <= t.stream
    ensures forall k :: |s.stream| <= k < |t.stream| ==> !t.stream[k].checked
    decreases n
  {
    if n > 0 {
      var s1 := Next(s, Receive(buf));
      xs, t := WaitingUnchecked(buf, s1, n - 1);
      assert s.stream <= s1.stream;
      assert t.stream[|s.stream|] == s1.stream[|s.stream|];
      xs := [Receive(buf)] + xs;
    } else {
      var q := |s.stream|;
      var s1 := Next(s, Down(false, q));
      var s2 := Next(s1, Apply(true));
      t := Next(s2, Up(TimedOut, q));
      xs := [Down(false, q), Apply(true), Up(TimedOut, q)];
      assert Run(t, [], t);
      assert Run(s2, [Up(TimedOut, q)], t);
      assert Run(s1, [Apply(true), Up(TimedOut, q)], t);
    }
  }

  // ------------------------------------------------------ the driver's fields

  class Driver {
    const hasTxCsum: bool
    const hasRxCsum: bool
    var txCsumMac: bool
    var txCsumHw: bool
    var csumHw: bool
    var mark: bool
    var skip: nat
    var up: bool
    ghost var m: State       // with the MAC and the stream around them

    ghost predicate Ok()
      reads this
    {
      csumHw == m.csumHw && mark == m.mark && skip == m.skip && up == m.up && Inv(m)
    }

    constructor (hasTxCsum: bool, hasRxCsum: bool)
      ensures Ok() && m == INIT && !txCsumHw
      ensures this.hasTxCsum == hasTxCsum && this.hasRxCsum == hasRxCsum
    {
      this.hasTxCsum, this.hasRxCsum, txCsumMac := hasTxCsum, hasRxCsum, false;
      txCsumHw, csumHw, mark, skip, up := false, false, false, 0, false;
      m := INIT;
    }

    /** emz_rx_csum_ok() for the frame NAPI delivers. */
    method CsumOk(buf: seq<Byte>) returns (ok: bool)
      requires Ok() && Enabled(m, Deliver) && buf == m.stream[0].buf
      modifies `skip, `m
      ensures Ok() && m == Next(old(m), Deliver)
      ensures ok == m.delivered[|m.delivered| - 1].marked
    {
      StepKeeps(m, Deliver);
      m := Next(m, Deliver);
      if !mark { return false; }
      if skip > 0 {
        skip := skip - 1;
        return false;
      }
      var r := CsumParse.Parse(buf);
      if !r.L4? { return false; }
      CsumParse.FoundFacts(buf);
      ok := r.proto == CsumParse.P.TCP || Word16(buf, r.off + 6) != 0;
    }

    /** The parts of emz_datapath_down() that matter here; cutNow and left are the
        MAC's and the stream's choice. */
    method DatapathDown(ghost cutNow: bool, ghost left: nat)
      requires Ok() && left <= |m.stream|
      modifies `up, `m
      ensures Ok() && !up
      ensures m == if old(up) then Next(old(m), Down(cutNow, left)) else old(m)
    {
      if !up { return; }
      StepKeeps(m, Down(cutNow, left));
      m := Next(m, Down(cutNow, left));
      up := false;
    }

    method CsumApply(tx: bool, rx: bool)
      requires Ok() && !up
      modifies `txCsumHw, `csumHw, `m
      ensures Ok() && txCsumHw == tx && csumHw == rx && m == Next(old(m), Apply(rx))
    {
      StepKeeps(m, Apply(rx));
      m := Next(m, Apply(rx));
      txCsumHw := tx;
      csumHw := rx;
    }

    /** emz_datapath_up() from its flush on. */
    method DatapathUp(flush: Flush, ghost left: nat) returns (ok: bool)
      requires Ok() && !up && left <= |m.stream|
      modifies `mark, `skip, `up, `m
      ensures Ok() && m == Next(old(m), Up(flush, left)) && ok == up == !flush.Failed?
    {
      StepKeeps(m, Up(flush, left));
      m := Next(m, Up(flush, left));
      if flush.Failed? { return false; }
      mark := csumHw && flush.Empty?;
      skip := 1;
      up := true;
      return true;
    }

    /** The settings change between a stop and a start. */
    method Reconfigure(tx: bool, rx: bool, flush: Flush, ghost cutNow: bool, ghost left: nat, ghost left2: nat)
      returns (ok: bool)
      requires Ok() && up && left2 <= left <= |m.stream|
      modifies `txCsumHw, `csumHw, `mark, `skip, `up, `m
      ensures Ok() && txCsumHw == tx && csumHw == rx && ok == up == !flush.Failed?
      ensures Run(old(m), [Down(cutNow, left), Apply(rx), Up(flush, left2)], m)
    {
      hide Run, Inv;
      ghost var s := m;
      DatapathDown(cutNow, left);
      CsumApply(tx, rx);
      ok := DatapathUp(flush, left2);
      DownApplyUp(s, Down(cutNow, left), Apply(rx), Up(flush, left2));
    }

    static lemma DownApplyUp(s: State, x: Step, y: Step, z: Step)
      requires Enabled(s, x) && Enabled(Next(s, x), y) && Enabled(Next(Next(s, x), y), z)
      ensures Run(s, [x, y, z], Next(Next(Next(s, x), y), z))
    {
      hide Next, Enabled;
      assert [x, y, z][1..] == [y, z] && [y, z][1..] == [z] && [z][1..] == [];
      var t := Next(Next(Next(s, x), y), z);
      assert Run(t, [], t);
      assert Run(Next(Next(s, x), y), [z], t);
    }

    /** emz_csum_config() for the features NETIF_F_HW_CSUM and NETIF_F_RXCSUM: the settings
        change only with the datapath down, and a datapath that does not come up again
        closes the interface. */
    method CsumConfig(hwCsum: bool, rxCsum: bool, txMac: bool, flush: Flush,
                      ghost cutNow: bool, ghost left: nat, ghost left2: nat)
      returns (closed: bool)
      requires Ok() && left2 <= left <= |m.stream|
      modifies this
      ensures Ok() && txCsumMac == txMac && txCsumHw == (hasTxCsum && txMac && hwCsum) && csumHw == (hasRxCsum && rxCsum)
      ensures var change := !(old(txCsumHw) == txCsumHw && old(csumHw) == csumHw);
        && (!change ==> m == old(m) && !closed)
        && (change && !old(up) ==> m == Next(old(m), Apply(csumHw)) && !closed)
        && (change && old(up) ==>
              && Run(old(m), [Down(cutNow, left), Apply(csumHw), Up(flush, left2)], m)
              && closed == flush.Failed? == !up)
    {
      hide Run, Next, Inv;
      var tx := hasTxCsum && txMac && hwCsum;
      var rx := hasRxCsum && rxCsum;
      txCsumMac := txMac;
      if tx == txCsumHw && rx == csumHw { return false; }
      if !up {
        CsumApply(tx, rx);
        return false;
      }
      var ok := Reconfigure(tx, rx, flush, cutNow, left, left2);
      // dev_close() brings the datapath down, which it already is
      return !ok;
    }
  }
}
