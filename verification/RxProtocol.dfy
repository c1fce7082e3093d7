/** The receive half of the driver's datapath as a step machine: emz_rx_poll in
    NAPI, the DMA provider with its callback, the stack that gives buffers back,
    and the rebuild.  The ring is seen from rx_tail on; RxRing has the array. */
module RxProtocol {

  const RX_RING: nat := 128
  const RX_BUF_LEN: nat := 1536
  const ETH_HLEN: nat := 14

  /** A page fragment. */
  type Buf = nat

  /** The provider holds nothing of the slot, or a descriptor for a buffer. */
  datatype Desc = NoDesc | Posted(buf: Buf)

  /** struct emz_rx_slot; frame is the number, since up, of the frame in it. */
  datatype Slot = Slot(buf: Buf, len: nat, failed: bool, done: bool, desc: Desc, frame: nat)

  type Ring = r: seq<Slot> | |r| == RX_RING witness seq(RX_RING, _ => Slot(0, 0, false, false, NoDesc, 0))

  /** emz_rx_poll: at the loop's head; with a good frame; in emz_rx_submit, before it
      clears done, before its look at the gate, and with a descriptor; after a repost
      that failed. */
  datatype Napi = NIdle | NCheck | NTake | NSubmit | NGate | NPost | NFail

  /** emz_rx_dma_done for slot number at since up. */
  datatype Callback = CIdle | CGate(at: nat) | CDone(at: nat)

  /** A frame given to the stack. */
  datatype Delivery = Delivery(frame: nat, buf: Buf, len: nat)

  datatype State = State(
    ring: Ring,           // slots from rx_tail on
    taken: nat,           // slots consumed and posted again since up
    started: nat,         // completions started since up
    gate: bool,           // reset_pending
    n: Napi, c: Callback,
    budget: nat,          // frames the poll may still take
    pool: set<Buf>, held: set<Buf>, gone: set<Buf>,   // free, with the stack, of destroyed pools
    first: Buf, next: Buf,   // the current pool's first fragment, the first not yet used
    received: seq<nat>,   // lengths of the frames received since up
    delivered: seq<Delivery>)

  /** What becomes of a frame NAPI takes. */
  datatype Fate = NoBuffer | NoSkb(spare: Buf) | Deliver(spare: Buf)

  datatype Step =
    | Poll(budget: nat)
    | NapiStep
    | Take(fate: Fate)
    | Post(ok: bool)
    | CbStart(residue: nat, failed: bool)
    | CbStep
    | StackFrees(buf: Buf)
    | RequestReset     // the transmit side, the watchdog or the TX timeout raises the gate
    | Rebuild

  /** Slots whose descriptor has completed, from rx_tail on. */
  function Completed(s: State): int { s.started - s.taken }

  /** page_pool_alloc_frag gives a free fragment or a new one. */
  predicate Available(s: State, b: Buf) { b in s.pool || b == s.next }

  predicate Enabled(s: State, e: Step) {
    match e
    case Poll(_) => s.n.NIdle?
    case NapiStep => s.n.NCheck? || s.n.NSubmit? || s.n.NGate? || s.n.NFail?
    case Take(fate) => s.n.NTake? && (fate.NoBuffer? || Available(s, fate.spare))
    case Post(_) => s.n.NPost?
    case CbStart(_, _) => s.c.CIdle? && 0 <= Completed(s) < RX_RING && s.ring[Completed(s)].desc.Posted?
    case CbStep => !s.c.CIdle? && s.taken <= s.c.at < s.taken + RX_RING
    case StackFrees(b) => b in s.held
    case RequestReset => true
    case Rebuild => s.n.NIdle? && s.c.CIdle?
  }

  function Checking(s: State): State {
    var slot := s.ring[0];
    if s.budget == 0 || !slot.done then s.(n := NIdle)
    else if slot.failed then s.(n := NIdle, ring := s.ring[0 := slot.(done := false)])
    else s.(n := NTake)
  }

  function Without(s: State, b: Buf): State {
    if b in s.pool then s.(pool := s.pool - {b}) else s.(next := s.next + 1)
  }

  /** The slot's buffer goes to the stack or back to the pool once a new one is in
      its place; a short frame, or one there is no buffer for, leaves it. */
  function Taking(s: State, fate: Fate): State {
    var slot := s.ring[0];
    var t := s.(n := NSubmit, budget := if s.budget > 0 then s.budget - 1 else 0);
    if slot.len < ETH_HLEN || fate.NoBuffer? then t
    else
      var u := Without(t, fate.spare).(ring := s.ring[0 := slot.(buf := fate.spare)]);
      if fate.NoSkb? then u.(pool := u.pool + {slot.buf})
      else u.(held := u.held + {slot.buf}, delivered := s.delivered + [Delivery(slot.frame, slot.buf, slot.len)])
  }

  /** The completion is consumed whether or not the slot can be posted again. */
  function Submitting(s: State): State {
    s.(n := NGate, ring := s.ring[0 := s.ring[0].(done := false)])
  }

  function Looking(s: State): State { s.(n := if s.gate then NFail else NPost) }

  function Posting(s: State, ok: bool): State {
    if !ok then s.(n := NFail)
    else s.(n := NCheck, ring := s.ring[1..] + [s.ring[0].(desc := Posted(s.ring[0].buf))], taken := s.taken + 1)
  }

  function Written(residue: nat): nat { if residue < RX_BUF_LEN then RX_BUF_LEN - residue else 0 }

  /** The provider completes descriptors in the order it was given them. */
  function CallbackStart(s: State, residue: nat, failed: bool): State
    requires Enabled(s, CbStart(residue, failed))
  {
    var k := Completed(s);
    s.(ring := s.ring[k := s.ring[k].(len := Written(residue), failed := failed, desc := NoDesc, frame := s.started)],
       c := if failed then CGate(s.started) else CDone(s.started),
       started := s.started + 1, received := s.received + [Written(residue)])
  }

  function Callbacking(s: State): State
    requires Enabled(s, CbStep)
  {
    if s.c.CGate? then s.(c := CDone(s.c.at), gate := true)
    else s.(c := CIdle, ring := s.ring[s.c.at - s.taken := s.ring[s.c.at - s.taken].(done := true)])
  }

  function NewRing(first: Buf): Ring {
    seq(RX_RING, i requires 0 <= i < RX_RING => Slot(first + i, 0, false, false, Posted(first + i), 0))
  }

  function Bufs(r: seq<Slot>): set<Buf> { set v <- r :: v.buf }

  /** A fragment goes back to its own pool, which a rebuild may have destroyed. */
  function Freed(s: State, b: Buf): State {
    if b >= s.first then s.(held := s.held - {b}, pool := s.pool + {b})
    else s.(held := s.held - {b}, gone := s.gone + {b})
  }

  /** emz_datapath_down and up: a new pool and a ring of its buffers. */
  function Rebuilt(s: State): State {
    s.(ring := NewRing(s.next), taken := 0, started := 0, gate := false, pool := {},
       first := s.next, next := s.next + RX_RING,
       gone := s.gone + s.pool + Bufs(s.ring), received := [], delivered := [])
  }

  function Apply(s: State, e: Step): State
    requires Enabled(s, e)
  {
    match e
    case Poll(budget) => s.(n := NCheck, budget := budget)
    case NapiStep =>
      if s.n.NCheck? then Checking(s) else if s.n.NSubmit? then Submitting(s)
      else if s.n.NGate? then Looking(s) else s.(n := NIdle, gate := true)
    case Take(fate) => Taking(s, fate)
    case Post(ok) => Posting(s, ok)
    case CbStart(residue, failed) => CallbackStart(s, residue, failed)
    case CbStep => Callbacking(s)
    case StackFrees(b) => Freed(s, b)
    case RequestReset => s.(gate := true)
    case Rebuild => Rebuilt(s)
  }

  /** emz_datapath_up on a new interface. */
  const INIT := State(NewRing(0), 0, 0, false, NIdle, CIdle, 0, {}, {}, {}, 0, RX_RING, [], [])
}
