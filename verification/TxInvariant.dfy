/** What every step of the transmit machine keeps. */
module TxInvariant {
  import opened TxProtocol

  /** Ways to weigh a slot: its length; 1 while it is not done; 1 while its frame has left
      the DMA but its callback has not started; 1 once it is done, by its result. */
  datatype Weight = Bytes | Undone | Handed | DoneFailed | DoneGood

  function Weigh(k: Weight, v: Slot): nat {
    match k
    case Bytes => v.len
    case Undone => if v.done then 0 else 1
    case Handed => if v.desc.Moved? then 1 else 0
    case DoneFailed => if v.done && v.failed then 1 else 0
    case DoneGood => if v.done && !v.failed then 1 else 0
  }

  function Sum(k: Weight, w: seq<Slot>): nat {
    if w == [] then 0 else Sum(k, w[..|w| - 1]) + Weigh(k, w[|w| - 1])
  }

  lemma {:induction false} SumSplit(k: Weight, v: seq<Slot>, w: seq<Slot>)
    ensures Sum(k, v + w) == Sum(k, v) + Sum(k, w)
  {
    if w == [] {
      assert v + w == v;
    } else {
      assert (v + w)[..|v + w| - 1] == v + w[..|w| - 1];
      SumSplit(k, v, w[..|w| - 1]);
    }
  }

  lemma SumAppend(w: seq<Slot>, v: Slot)
    ensures forall k {:trigger Sum(k, w + [v])} :: Sum(k, w + [v]) == Sum(k, w) + Weigh(k, v)
  {
    assert (w + [v])[..|w|] == w;
  }

  lemma SumCut(w: seq<Slot>, m: nat)
    requires m <= |w|
    ensures forall k {:trigger Sum(k, w)} :: Sum(k, w) == Sum(k, w[..m]) + Sum(k, w[m..])
  {
    assert w == w[..m] + w[m..];
    forall k { SumSplit(k, w[..m], w[m..]); }
  }

  /** Writing one slot moves a sum by that slot's change alone. */
  lemma {:induction false} SumWrite(k: Weight, w: seq<Slot>, i: nat, v: Slot)
    requires i < |w|
    ensures Sum(k, w[i := v]) == Sum(k, w) - Weigh(k, w[i]) + Weigh(k, v)
  {
    var n := |w| - 1;
    if i == n {
      assert w[i := v][..n] == w[..n];
    } else {
      assert w[i := v][..n] == w[..n][i := v];
      SumWrite(k, w[..n], i, v);
    }
  }

  lemma {:induction false} SumSame(k: Weight, w: seq<Slot>, v: seq<Slot>)
    requires |w| == |v| && forall i :: 0 <= i < |w| ==> Weigh(k, w[i]) == Weigh(k, v[i])
    ensures Sum(k, w) == Sum(k, v)
  {
    if w != [] { SumSame(k, w[..|w| - 1], v[..|v| - 1]); }
  }

  /** A sum is zero exactly when nothing in the window has that weight. */
  lemma {:induction false} SumZero(k: Weight, w: seq<Slot>)
    ensures Sum(k, w) == 0 <==> forall i :: 0 <= i < |w| ==> Weigh(k, w[i]) == 0
  {
    if w != [] {
      SumZero(k, w[..|w| - 1]);
      assert forall i :: 0 <= i < |w| - 1 ==> w[..|w| - 1][i] == w[i];
    }
  }

  // ------------------------------------------------------------ invariant

  predicate Holding(x: Xmit) { (x.XGate? || x.XCopy? || x.XFill? || x.XPublish?) }

  /** xmit or the callback is about to mark slot i of the window done. */
  predicate Held(s: State, i: int) {
    CallbackAt(s, i) || (Submitting(s.x) && i + 1 == |s.win|)
  }

  predicate CallbackAt(s: State, i: int) { !s.c.CIdle? && s.c.at - s.reclaimed == i }

  /** done is set once, by whoever holds the slot, and a failed slot is done only
      behind the gate. */
  predicate SlotOk(v: Slot, held: bool, gate: bool) {
    && v.marks == (if v.done then 1 else 0)
    && (v.done ==> v.desc.NoDesc? && !held && (v.failed ==> gate))
    && (!v.done ==> (v.desc.NoDesc? <==> held))
  }

  ghost predicate SlotsInv(s: State) {
    && |s.win| <= TX_RING
    && (forall i :: 0 <= i < |s.win| ==> SlotOk(s.win[i], Held(s, i), s.gate))
  }

  ghost predicate HoldersInv(s: State) {
    && (!s.c.CIdle? ==>
        && InWindow(s, s.c.at)
        && !(Submitting(s.x) && s.c.at == Published(s) - 1)
        && Get(s, s.c.at).failed == !(s.c.CDone? && !s.c.failed)
        && (s.c.CDone? && s.c.failed ==> s.gate))
    && (Submitting(s.x) ==> s.win != [])
    && ((s.x.XFailCount? || s.x.XFailGate? || s.x.XFailDone?) ==> s.win[|s.win| - 1].failed)
    && (s.x.XFailDone? ==> s.gate)
    && (s.x.XPublish? ==> s.draft == Slot(s.len, false, false, NoDesc, 0))
  }

  ghost predicate XmitInv(s: State) {
    && (!s.x.XIdle? ==> (s.phase.Up? || s.phase.NapiOff?))
    && (Holding(s.x) || s.x.XFlush? ==> |s.win| < TX_RING)
    && (s.x.XStart? ==> Free(s) >= TX_WAKE)
    && (!s.x.XIdle? && s.stopped ==> (s.x.XIssue? || s.x.XRecheck? || s.x.XStart?))
  }

  /** Only while descriptors are owed to issue_pending is one pending. */
  ghost predicate IssueInv(s: State) {
    && (!s.owed ==> forall i :: 0 <= i < |s.win| ==> !s.win[i].desc.Pending?)
    && (s.x.XPublish? && !s.owed ==> !s.draft.desc.Pending?)
    && (s.owed && ((s.x.XIdle? || s.x.XFree?) || Holding(s.x)) ==> |s.win| < TX_RING)
    && (s.owed ==> !s.x.XBusy? && !s.x.XRecheck? && !s.x.XStart?)
    && (s.x.XIdle? && !s.more ==> !s.owed)
  }

  ghost predicate AllDone(w: seq<Slot>, n: nat) {
    n <= |w| && forall i :: 0 <= i < n ==> w[i].done
  }

  ghost predicate NapiInv(s: State) {
    && (!s.n.NIdle? ==> s.phase.Up?)
    && AllDone(s.win, Taken(s.n))
    && (s.n.NScan? || s.n.NBql? ==> s.n.bytes == Sum(Bytes, s.win[..Taken(s.n)]))
    && (s.n.NScan? ==> s.n.pkts <= s.n.limit <= |s.win|)
  }

  /** Bytes BQL was told to expect and not yet told of: NAPI reports a batch just
      before it releases the slots. */
  function Unreported(s: State): nat
    requires Taken(s.n) <= |s.win|
  {
    Sum(Bytes, s.win[if s.n.NRelease? then s.n.pkts else 0..]) + if s.x.XPublish? then s.len else 0
  }

  /** Frames and bytes are conserved. */
  ghost predicate BooksInv(s: State) {
    && Taken(s.n) <= |s.win|
    && s.b.accepted == s.b.dropped + s.b.errors + s.b.sent + s.b.discarded + |s.win| - Taken(s.n) + (if Holding(s.x) then 1 else 0)
    && s.b.bqlSent == s.b.bqlDone + Unreported(s)
  }

  /** Every published frame is marked done once, by result; what the DMA handed on
      and what tx_failed counts follow the same split. */
  ghost predicate DoneInv(s: State) {
    && Published(s) == s.b.okDone + s.b.failDone + Sum(Undone, s.win)
    && s.b.moved == s.b.okDone + Sum(Handed, s.win) + (if s.c.CDone? && !s.c.failed then 1 else 0)
    && s.txFailed == s.b.failDone + (if s.c.CGate? || (s.c.CDone? && s.c.failed) then 1 else 0)
                     + (if (s.x.XFailGate? || s.x.XFailDone?) then 1 else 0)
    && s.b.macSent <= s.b.moved
    && (s.b.failDone > 0 && !s.phase.Down? ==> s.gate)
  }

  ghost predicate DrainInv(s: State) {
    && (s.phase.Drain? || s.phase.Down? ==> s.x.XIdle? && s.n.NIdle?)
    && (s.phase.Down? ==> s.c.CIdle? && (s.phase.sure ==> s.b.macSent == s.b.moved))
    && (s.phase.Drain? ==>
        match s.phase.pc
        case DIssue => true
        case DScan(i) => AllDone(s.win, i)
        case DSent => AllDone(s.win, |s.win|)
        case DWait(sent) => AllDone(s.win, |s.win|) && sent == Published(s) - s.txFailed
        case DReturn(sure) => sure ==> AllDone(s.win, |s.win|) && s.b.macSent == s.b.moved)
  }

  ghost predicate Inv(s: State) {
    && SlotsInv(s) && HoldersInv(s) && XmitInv(s) && IssueInv(s)
    && NapiInv(s) && BooksInv(s) && DoneInv(s) && DrainInv(s)
  }
}
