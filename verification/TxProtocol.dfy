/** The transmit half of the driver's datapath as a step machine.

    Five actors share one ring: emz_start_xmit (one call at a time, under the
    queue lock), emz_tx_complete in NAPI, the DMA provider with its completion
    callback, the MAC behind it, and the stop / drain / restart path.  A step is
    one shared read or write of one actor; steps of different actors interleave
    freely and are sequentially consistent.  A program counter holds the locals
    an actor still needs.

    Here the ring is the sequence of frames in flight, oldest first, and counts
    are exact; TxRing has the driver's array and its 32-bit wrapping indices, and
    takes the same steps. */
module TxProtocol {

  const TX_RING: nat := 64
  const TX_WAKE: nat := TX_RING / 4
  const TX_BUF_LEN: nat := 1536
  const LAG: nat := 0x8000_0000

  /** Where the DMA provider has a slot's descriptor: nowhere (not submitted, or
      its callback has started), submitted, started, or with its frame handed on. */
  datatype Desc = NoDesc | Pending | Issued | Moved

  /** struct emz_tx_slot (status as a flag), the provider's view of it, and how
      often done was set since the slot was last filled. */
  datatype Slot = Slot(len: nat, failed: bool, done: bool, desc: Desc, marks: nat)

  /** emz_start_xmit, by the next shared access. */
  datatype Xmit =
    | XIdle
    | XFree      // first emz_tx_free
    | XBusy      // no slot: stop the queue, return BUSY
    | XGate      // length and reset_pending
    | XCopy      // bounce copy and descriptor
    | XFill      // slot fields, netdev_sent_queue
    | XPublish   // store-release of tx_head
    | XSubmit
    | XFailStatus
    | XFailCount
    | XFailGate
    | XFailDone
    | XFull      // second emz_tx_free
    | XStop
    | XIssue
    | XRecheck   // third emz_tx_free, after the barrier
    | XStart
    | XFlush

  /** emz_tx_complete: pkts slots scanned so far, limit of them published when
      it read tx_head. */
  datatype Napi =
    | NIdle
    | NScan(pkts: nat, bytes: nat, limit: nat)
    | NBql(pkts: nat, bytes: nat)
    | NRelease(pkts: nat)
    | NTest       // netif_queue_stopped
    | NTestFree   // emz_tx_free >= EMZ_TX_WAKE
    | NWake

  /** emz_tx_dma_done for the frame published as number at since up. */
  datatype Callback =
    | CIdle
    | CCount(at: nat)
    | CGate(at: nat)
    | CDone(at: nat, failed: bool)

  /** Up; NAPI off; NAPI and xmit off, inside emz_tx_drain; channels stopped, after a
      drain that was sure or not (tx_mac_unsure). */
  datatype Phase = Up | NapiOff | Drain(pc: DrainPc) | Down(sure: bool)

  datatype DrainPc =
    | DIssue
    | DScan(i: nat)
    | DSent             // read tx_head - tx_failed
    | DWait(sent: int)  // compare with the MAC's count
    | DReturn(sure: bool)

  /** Frame and byte counts; the first four and BQL's two since up, the rest over
      the interface's whole life. */
  datatype Books = Books(
    okDone: nat, failDone: nat,   // slots marked done, by result
    moved: nat, macSent: nat,     // handed on by the DMA, sent by the MAC
    bqlSent: nat, bqlDone: nat,
    accepted: nat, dropped: nat, errors: nat, sent: nat, discarded: nat)

  datatype State = State(
    win: seq<Slot>,     // slots [tx_tail, tx_head)
    draft: Slot,        // the slot xmit fills, not yet published
    reclaimed: nat,     // tx_tail, never wrapped
    gate: bool,         // reset_pending
    txFailed: nat,      // tx_failed
    stopped: bool,      // the queue's driver-off bit
    owed: bool,         // a descriptor was submitted since the last issue
    phase: Phase, x: Xmit, n: Napi, c: Callback,
    len: nat, more: bool,   // of the current or last xmit call: skb->len, xmit_more
    b: Books)

  datatype Step =
    | Call(len: nat, more: bool)      // the stack calls emz_start_xmit
    | XmitStep(ok: bool)
    | NapiStep
    | Move(at: nat)                   // the DMA hands frame at on to the MAC
    | CbStart(at: nat, failed: bool)
    | CbStep
    | MacSend
    | StopNapi
    | StopTx
    | DrainStep(timeout: bool, reported: nat)
    | DmaStop
    | Restart
    | RequestReset                    // the receive side, the watchdog or the TX timeout raises the gate

  /** tx_head, never wrapped. */
  function Published(s: State): nat { s.reclaimed + |s.win| }

  /** emz_tx_free */
  function Free(s: State): int { TX_RING - |s.win| }

  predicate InWindow(s: State, at: nat) { s.reclaimed <= at < Published(s) }

  function Get(s: State, at: nat): Slot
    requires InWindow(s, at)
  {
    s.win[at - s.reclaimed]
  }

  function Put(s: State, at: nat, v: Slot): seq<Slot>
    requires InWindow(s, at)
  {
    s.win[at - s.reclaimed := v]
  }

  /** dma_async_issue_pending */
  function IssueAll(w: seq<Slot>): (r: seq<Slot>)
    ensures |r| == |w|
    ensures forall i :: 0 <= i < |w| ==> r[i] == if w[i].desc.Pending? then w[i].(desc := Issued) else w[i]
  {
    seq(|w|, i requires 0 <= i < |w| => if w[i].desc.Pending? then w[i].(desc := Issued) else w[i])
  }

  // ---------------------------------------------------------------- steps

  /** When a step can happen.  The provider completes what it was given, in any
      order; a failed completion's frame was not handed on. */
  predicate Enabled(s: State, e: Step) {
    match e
    case Call(_, _) => s.x.XIdle? && !s.stopped && (s.phase.Up? || s.phase.NapiOff?)
    case XmitStep(_) => !s.x.XIdle? && (Submitting(s.x) ==> s.win != [])
    case NapiStep => (!s.n.NIdle? || s.phase.Up?) && Taken(s.n) <= |s.win| && (s.n.NScan? ==> s.n.limit <= |s.win|)
    case Move(at) => !s.phase.Down? && InWindow(s, at) && (Get(s, at).desc.Pending? || Get(s, at).desc.Issued?)
    case CbStart(at, failed) =>
      && !s.phase.Down? && s.c.CIdle? && InWindow(s, at)
      && Get(s, at).desc in (if failed then {Pending, Issued} else {Moved})
    case CbStep => !s.c.CIdle? && InWindow(s, s.c.at)
    case MacSend => s.b.macSent < s.b.moved
    case StopNapi => s.phase.Up? && s.n.NIdle?
    case StopTx => s.phase.NapiOff? && s.x.XIdle?
    case DrainStep(_, reported) =>
      && s.phase.Drain? && !s.phase.pc.DReturn? && (s.phase.pc.DScan? ==> s.phase.pc.i <= |s.win|)
      // the count read may lag behind the MAC, never run ahead of it
      && (s.phase.pc.DWait? ==> reported <= s.b.macSent && s.b.moved - reported <= LAG)
    case DmaStop => s.phase.Drain? && s.phase.pc.DReturn? && s.c.CIdle?
    // after a drain in doubt, emz_tx_settle lets the MAC send what is queued before
    // tx_mac_base is taken
    case Restart => s.phase.Down? && (!s.phase.sure ==> s.b.macSent == s.b.moved)
    case RequestReset => true
  }

  predicate Submitting(x: Xmit) { (x.XSubmit? || x.XFailStatus? || x.XFailCount? || x.XFailGate? || x.XFailDone?) }

  /** Slots NAPI has scanned and not yet released. */
  function Taken(n: Napi): nat {
    match n
    case NScan(pkts, _, _) => pkts
    case NBql(pkts, _) => pkts
    case NRelease(pkts) => pkts
    case _ => 0
  }

  function Marked(v: Slot): Slot { v.(done := true, marks := v.marks + 1) }

  /** One access of emz_start_xmit.  ok is the outcome of the copy with its
      descriptor, and of dmaengine_submit; elsewhere it is not looked at. */
  function Xmitting(s: State, ok: bool): State
    requires Enabled(s, XmitStep(ok))
  {
    match s.x
    case XFree => if Free(s) == 0 then s.(x := XBusy) else s.(x := XGate, b := s.b.(accepted := s.b.accepted + 1))
    case XBusy => s.(x := XIdle, stopped := true)
    case XGate =>
      if s.len > TX_BUF_LEN || s.gate then s.(x := XFlush, b := s.b.(dropped := s.b.dropped + 1)) else s.(x := XCopy)
    case XCopy => if ok then s.(x := XFill) else s.(x := XFlush, b := s.b.(dropped := s.b.dropped + 1))
    case XFill =>
      s.(x := XPublish, draft := Slot(s.len, false, false, NoDesc, 0), b := s.b.(bqlSent := s.b.bqlSent + s.len))
    case XPublish => s.(x := XSubmit, win := s.win + [s.draft])
    case XSubmit =>
      if ok then s.(x := XFull, win := Put(s, Newest(s), Get(s, Newest(s)).(desc := Pending)), owed := true)
      else s.(x := XFailStatus)
    case XFailStatus => s.(x := XFailCount, win := Put(s, Newest(s), Get(s, Newest(s)).(failed := true)))
    case XFailCount => s.(x := XFailGate, txFailed := s.txFailed + 1)
    case XFailGate => s.(x := XFailDone, gate := true)
    case XFailDone =>
      s.(x := XFull, win := Put(s, Newest(s), Marked(Get(s, Newest(s)))), b := s.b.(failDone := s.b.failDone + 1))
    case XFull => s.(x := if Free(s) == 0 then XStop else XFlush)
    case XStop => s.(x := XIssue, stopped := true)
    case XIssue => s.(x := XRecheck, win := IssueAll(s.win), owed := false)
    case XRecheck => s.(x := if Free(s) >= TX_WAKE then XStart else XIdle)
    case XStart => s.(x := XIdle, stopped := false)
    case XFlush => if s.more then s.(x := XIdle) else s.(x := XIdle, win := IssueAll(s.win), owed := false)
  }

  function Newest(s: State): nat
    requires s.win != []
  {
    Published(s) - 1
  }

  /** One access of emz_tx_complete. */
  function Completing(s: State): State
    requires Enabled(s, NapiStep)
  {
    match s.n
    case NIdle => s.(n := NScan(0, 0, |s.win|))
    case NScan(pkts, bytes, limit) =>
      if pkts >= limit || !s.win[pkts].done then
        s.(n := if pkts == 0 then NIdle else NBql(pkts, bytes))
      else
        s.(n := NScan(pkts + 1, bytes + s.win[pkts].len, limit),
           b := s.b.(errors := s.b.errors + (if s.win[pkts].failed then 1 else 0),
                     sent := s.b.sent + (if s.win[pkts].failed then 0 else 1)))
    case NBql(pkts, bytes) => s.(n := NRelease(pkts), b := s.b.(bqlDone := s.b.bqlDone + bytes))
    case NRelease(pkts) => s.(n := NTest, win := s.win[pkts..], reclaimed := s.reclaimed + pkts)
    case NTest => s.(n := if s.stopped then NTestFree else NIdle)
    case NTestFree => s.(n := if Free(s) >= TX_WAKE then NWake else NIdle)
    case NWake => s.(n := NIdle, stopped := false)
  }

  /** One access of emz_tx_dma_done after the status. */
  function Callbacking(s: State): State
    requires Enabled(s, CbStep)
  {
    match s.c
    case CCount(at) => s.(c := CGate(at), txFailed := s.txFailed + 1)
    case CGate(at) => s.(c := CDone(at, true), gate := true)
    case CDone(at, failed) =>
      s.(c := CIdle, win := Put(s, at, Marked(Get(s, at))),
         b := s.b.(okDone := s.b.okDone + (if failed then 0 else 1),
                   failDone := s.b.failDone + (if failed then 1 else 0)))
  }

  /** One access of emz_tx_drain. */
  function Draining(s: State, timeout: bool, reported: nat): State
    requires Enabled(s, DrainStep(timeout, reported))
  {
    match s.phase.pc
    case DIssue => s.(phase := Drain(DScan(0)), win := IssueAll(s.win), owed := false)
    case DScan(i) =>
      if i == |s.win| then s.(phase := Drain(DSent))
      else if s.win[i].done then s.(phase := Drain(DScan(i + 1)))
      else if timeout then s.(phase := Drain(DReturn(false)))
      else s
    case DSent => s.(phase := Drain(DWait(Published(s) - s.txFailed)))
    case DWait(sent) =>
      if reported >= sent then s.(phase := Drain(DReturn(true)))
      else if timeout then s.(phase := Drain(DReturn(false)))
      else s
  }

  /** emz_datapath_up: an empty ring, an open gate, an awake queue.  What was still
      in the old ring is lost. */
  function Restarted(s: State): State {
    s.(win := [], gate := false, txFailed := 0, stopped := false, phase := Up, reclaimed := 0, owed := false,
       b := s.b.(okDone := 0, failDone := 0, moved := 0, macSent := 0, bqlSent := 0, bqlDone := 0,
                 discarded := s.b.discarded + |s.win|))
  }

  function Apply(s: State, e: Step): State
    requires Enabled(s, e)
  {
    match e
    case Call(len, more) => s.(x := XFree, len := len, more := more)
    case XmitStep(ok) => Xmitting(s, ok)
    case NapiStep => Completing(s)
    case Move(at) => s.(win := Put(s, at, Get(s, at).(desc := Moved)), b := s.b.(moved := s.b.moved + 1))
    case CbStart(at, failed) =>
      s.(win := Put(s, at, Get(s, at).(failed := failed, desc := NoDesc)),
         c := if failed then CCount(at) else CDone(at, false))
    case CbStep => Callbacking(s)
    case MacSend => s.(b := s.b.(macSent := s.b.macSent + 1))
    case StopNapi => s.(phase := NapiOff)
    case StopTx => s.(phase := Drain(DIssue), stopped := true)
    case DrainStep(timeout, reported) => Draining(s, timeout, reported)
    case DmaStop => s.(phase := Down(s.phase.pc.sure))
    case Restart => Restarted(s)
    case RequestReset => s.(gate := true)
  }

  /** After probe: no datapath yet. */
  const INIT := State([], Slot(0, false, false, NoDesc, 0), 0, false, 0, true, false, Down(true), XIdle, NIdle, CIdle,
                      0, false, Books(0, 0, 0, 0, 0, 0, 0, 0, 0, 0, 0))
}
