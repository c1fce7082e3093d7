/** Whole passes of the other actors, each alone: a callback, a refused submission, a
    NAPI pass, a drain that gives up. */
module TxPasses {
  import opened TxProtocol
  import opened TxInvariant
  import opened TxSteps
  import opened TxBooks
  import opened TxTheorems

  // ------------------------------------------------------ one completion

  /** The rest of emz_tx_dma_done, at once. */
  function CalledBack(s: State, n: nat): State
    decreases n
  {
    if n == 0 || !Enabled(s, CbStep) then s else CalledBack(Callbacking(s), n - 1)
  }

  /** A completion marks its own slot done with the result the DMA gave; a failed one is
      counted and raises the gate, a good one does neither. */
  lemma CompletionMarks(s: State, at: nat, failed: bool)
    requires Enabled(s, CbStart(at, failed))
    ensures var t, i := CalledBack(Apply(s, CbStart(at, failed)), 3), at - s.reclaimed;
      && t.c.CIdle? && |t.win| == |s.win|
      && t.win[i].done && t.win[i].failed == failed && t.win[i].desc.NoDesc? && t.win[i].len == s.win[i].len
      && (forall j :: 0 <= j < |s.win| && j != i ==> t.win[j] == s.win[j])
      && t.gate == (s.gate || failed) && t.txFailed == s.txFailed + (if failed then 1 else 0)
      && t.b == (if failed then s.b.(failDone := s.b.failDone + 1) else s.b.(okDone := s.b.okDone + 1))
  {
    var s0 := Apply(s, CbStart(at, failed));
    assert InWindow(s0, at);
    if failed {
      var s1 := Callbacking(s0);
      var s2 := Callbacking(s1);
      var s3 := Callbacking(s2);
      assert s2.c == CDone(at, true) && s2.gate && s2.win == s0.win;
      assert CalledBack(s0, 3) == CalledBack(s1, 2) == CalledBack(s2, 1) == CalledBack(s3, 0);
    } else {
      var s1 := Callbacking(s0);
      assert CalledBack(s0, 3) == CalledBack(s1, 2) == s1;
    }
  }

  // ------------------------------------------------------ what a call does instead

  /** A full ring: the queue is stopped and the frame stays with the stack. */
  lemma BusyCall(s: State, len: nat, more: bool)
    requires Enabled(s, Call(len, more)) && |s.win| == 64
    ensures var s1 := Apply(s, Call(len, more));
      && Enabled(s1, XmitStep(true)) && Enabled(Xmitting(s1, true), XmitStep(true))
      && Xmitting(Xmitting(s1, true), true) == s1.(x := XIdle, stopped := true)
  {
    var s2 := Xmitting(Apply(s, Call(len, more)), true);
    assert s2.x.XBusy?;
  }

  /** A failed copy drops the frame, and the call still starts what is pending unless more
      are promised. */
  lemma CopyFails(s: State)
    requires s.x.XCopy?
    ensures Enabled(s, XmitStep(false)) && Enabled(Xmitting(s, false), XmitStep(true))
    ensures Xmitting(Xmitting(s, false), true) ==
      s.(x := XIdle, win := if s.more then s.win else IssueAll(s.win), owed := s.owed && s.more,
         b := s.b.(dropped := s.b.dropped + 1))
  {
  }

  function Refused(s: State, n: nat): State
    decreases n
  {
    if n == 0 || !Enabled(s, XmitStep(false)) then s else Refused(Xmitting(s, false), n - 1)
  }

  lemma RefusedOne(s: State, n: nat)
    requires n > 0 && Enabled(s, XmitStep(false))
    ensures Refused(s, n) == Refused(Xmitting(s, false), n - 1)
  {
    hide Xmitting;
  }

  lemma SubmitRefused(s: State)
    requires s.x.XSubmit? && s.win != []
    ensures Enabled(s, XmitStep(false)) && Xmitting(s, false) == s.(x := XFailStatus)
  {
  }

  lemma StatusFails(s: State)
    requires s.x.XFailStatus? && s.win != []
    ensures var i := |s.win| - 1;
      && Enabled(s, XmitStep(false))
      && Xmitting(s, false) == s.(x := XFailCount, win := s.win[i := s.win[i].(failed := true)])
  {
  }

  lemma RefusedTwo(s: State)
    requires s.x.XSubmit? && s.win != []
    ensures var i := |s.win| - 1;
      Refused(s, 5) == Refused(s.(x := XFailCount, win := s.win[i := s.win[i].(failed := true)]), 3)
  {
    hide *;
    SubmitRefused(s);
    RefusedOne(s, 5);
    StatusFails(s.(x := XFailStatus));
    RefusedOne(s.(x := XFailStatus), 4);
  }

  lemma FailureCounts(s: State)
    requires s.x.XFailCount? && s.win != []
    ensures Enabled(s, XmitStep(false)) && Xmitting(s, false) == s.(x := XFailGate, txFailed := s.txFailed + 1)
  {
  }

  lemma GateRises(s: State)
    requires s.x.XFailGate? && s.win != []
    ensures Enabled(s, XmitStep(false)) && Xmitting(s, false) == s.(x := XFailDone, gate := true)
  {
  }

  lemma RefusedFour(s: State)
    requires s.x.XFailCount? && s.win != []
    ensures Refused(s, 3) == Refused(s.(x := XFailDone, txFailed := s.txFailed + 1, gate := true), 1)
  {
    hide *;
    FailureCounts(s);
    RefusedOne(s, 3);
    GateRises(s.(x := XFailGate, txFailed := s.txFailed + 1));
    RefusedOne(s.(x := XFailGate, txFailed := s.txFailed + 1), 2);
  }

  lemma RefusedFive(s: State)
    requires s.x.XFailDone? && s.win != []
    ensures var i := |s.win| - 1;
      Refused(s, 1) == s.(x := XFull, win := s.win[i := s.win[i].(done := true, marks := s.win[i].marks + 1)],
                          b := s.b.(failDone := s.b.failDone + 1))
  {
    assert Refused(s, 1) == Refused(Xmitting(s, false), 0);
  }

  /** A refused descriptor is a failed completion: its slot done and failed, counted, and
      the gate up. */
  lemma RefusedMarks(s: State)
    requires s.x.XSubmit? && s.win != []
    ensures var i := |s.win| - 1;
      Refused(s, 5) == s.(x := XFull, gate := true, txFailed := s.txFailed + 1,
        win := s.win[i := s.win[i].(failed := true, done := true, marks := s.win[i].marks + 1)],
        b := s.b.(failDone := s.b.failDone + 1))
  {
    hide Refused;
    var i := |s.win| - 1;
    RefusedTwo(s);
    var s2 := s.(x := XFailCount, win := s.win[i := s.win[i].(failed := true)]);
    RefusedFour(s2);
    RefusedFive(s2.(x := XFailDone, txFailed := s2.txFailed + 1, gate := true));
  }

  // ------------------------------------------------------ one NAPI pass

  /** emz_tx_complete up to its return. */
  function Passed(s: State, n: nat): State
    decreases n
  {
    if n == 0 || s.n.NIdle? || !Enabled(s, NapiStep) then s else Passed(Completing(s), n - 1)
  }

  function Bytes(w: seq<Slot>): nat { if w == [] then 0 else w[0].len + Bytes(w[1..]) }

  function Count(w: seq<Slot>, failed: bool): nat {
    if w == [] then 0 else (if w[0].failed == failed then 1 else 0) + Count(w[1..], failed)
  }

  /** The done slots the window starts with are exactly p. */
  predicate DoneRun(w: seq<Slot>, p: nat) {
    p <= |w| && (forall i :: 0 <= i < p ==> w[i].done) && (p < |w| ==> !w[p].done)
  }

  lemma ScanTakes(s: State, n: nat)
    requires s.n.NScan? && s.n.pkts < s.n.limit == |s.win| && s.win[s.n.pkts].done && n > 0
    ensures var v := s.win[s.n.pkts];
      Passed(s, n) == Passed(
        s.(n := NScan(s.n.pkts + 1, s.n.bytes + v.len, s.n.limit),
           b := s.b.(errors := s.b.errors + (if v.failed then 1 else 0), sent := s.b.sent + (if v.failed then 0 else 1))),
        n - 1)
  {
  }

  lemma ScanStops(s: State, n: nat)
    requires s.n.NScan? && s.n.limit == |s.win| && n > 0 && 0 < s.n.pkts <= |s.win|
    requires s.n.pkts == |s.win| || !s.win[s.n.pkts].done
    ensures Passed(s, n) == Passed(s.(n := NBql(s.n.pkts, s.n.bytes)), n - 1)
  {
  }

  /** From pkts scanned, the scan goes on to the end of the done slots. */
  lemma {:induction false} ScanGoesOn(s: State, p: nat, n: nat)
    requires s.n.NScan? && s.n.limit == |s.win| && DoneRun(s.win, p) && s.n.pkts <= p
    requires p > 0 && n > p - s.n.pkts
    ensures var k, w := s.n.pkts, s.win[s.n.pkts..p];
      Passed(s, n) == Passed(
        s.(n := NBql(p, s.n.bytes + Bytes(w)),
           b := s.b.(errors := s.b.errors + Count(w, true), sent := s.b.sent + Count(w, false))),
        n - (p - k) - 1)
    decreases p - s.n.pkts
  {
    hide Passed;
    var k, w := s.n.pkts, s.win[s.n.pkts..p];
    if k < p {
      var v := s.win[k];
      var t := s.(
        n := NScan(k + 1, s.n.bytes + v.len, s.n.limit),
        b := s.b.(errors := s.b.errors + (if v.failed then 1 else 0), sent := s.b.sent + (if v.failed then 0 else 1)));
      ScanTakes(s, n);
      assert w[0] == v && w[1..] == s.win[k + 1..p];
      ScanGoesOn(t, p, n - 1);
    } else {
      assert w == [];
      ScanStops(s, n);
    }
  }

  /** The books once such slots are counted and reported. */
  function Counted(b: Books, w: seq<Slot>, bytes: nat): Books {
    b.(bqlDone := b.bqlDone + bytes, errors := b.errors + Count(w, true), sent := b.sent + Count(w, false))
  }

  lemma ScansAll(s: State, p: nat)
    requires s.n == NScan(0, 0, |s.win|) && DoneRun(s.win, p) && p > 0
    ensures Passed(s, p + 6) == Passed(s.(n := NBql(p, Bytes(s.win[..p])), b := Counted(s.b, s.win[..p], 0)), 5)
  {
    hide Bytes, Count, Passed;
    ScanGoesOn(s, p, p + 6);
    assert s.win[0..p] == s.win[..p];
  }

  lemma CountedWhole(b: Books, w: seq<Slot>, bytes: nat)
    ensures var c := Counted(b, w, 0);
      c.(bqlDone := c.bqlDone + bytes) == Counted(b, w, bytes)
  {
  }

  /** A pass that begins when p slots from the tail are done reclaims those p slots,
      reports their bytes to BQL, counts each by its result, and starts a stopped queue
      when that leaves 16 slots or more. */
  lemma NapiReclaims(s: State, p: nat)
    requires s.n.NIdle? && s.phase.Up? && DoneRun(s.win, p) && p > 0 && |s.win| <= 64
    ensures var w := s.win[..p];
      Passed(Apply(s, NapiStep), p + 6) ==
        s.(win := s.win[p..], reclaimed := s.reclaimed + p, stopped := s.stopped && |s.win| - p > 48,
           b := Counted(s.b, w, Bytes(w)))
  {
    hide Bytes, Counted, Passed, Apply;
    PassStarts(s);
    var s1 := s.(n := NScan(0, 0, |s.win|));
    ScansAll(s1, p);
    var w := s.win[..p];
    PassEnds(s1.(n := NBql(p, Bytes(w)), b := Counted(s.b, w, 0)), p, Bytes(w));
    CountedWhole(s.b, w, Bytes(w));
  }

  lemma PassStarts(s: State)
    requires s.n.NIdle? && s.phase.Up?
    ensures Enabled(s, NapiStep) && Apply(s, NapiStep) == s.(n := NScan(0, 0, |s.win|))
  {
  }

  lemma PassOne(s: State, n: nat)
    requires n > 0 && !s.n.NIdle? && Enabled(s, NapiStep)
    ensures Passed(s, n) == Passed(Completing(s), n - 1)
  {
    hide Completing;
  }

  lemma Reports(s: State, p: nat, bytes: nat)
    requires s.n == NBql(p, bytes) && p <= |s.win|
    ensures Enabled(s, NapiStep)
    ensures Completing(s) == s.(n := NRelease(p), b := s.b.(bqlDone := s.b.bqlDone + bytes))
  {
  }

  lemma Releases(s: State, p: nat)
    requires s.n == NRelease(p) && p <= |s.win|
    ensures Enabled(s, NapiStep)
    ensures Completing(s) == s.(n := NTest, win := s.win[p..], reclaimed := s.reclaimed + p)
  {
  }

  lemma PassWakes(s: State)
    requires s.n == NTest && |s.win| <= 64
    ensures Passed(s, 3) == s.(n := NIdle, stopped := s.stopped && |s.win| > 48)
  {
    var s1 := Completing(s);
    assert Passed(s, 3) == Passed(s1, 2);
    if s.stopped {
      var s2 := Completing(s1);
      assert Passed(s1, 2) == Passed(s2, 1);
      if s2.n.NWake? { assert Passed(s2, 1) == Passed(Completing(s2), 0); }
    }
  }

  lemma PassEnds(s: State, p: nat, bytes: nat)
    requires s.n == NBql(p, bytes) && p <= |s.win| <= 64
    ensures Passed(s, 5) ==
      s.(n := NIdle, b := s.b.(bqlDone := s.b.bqlDone + bytes), win := s.win[p..], reclaimed := s.reclaimed + p,
         stopped := s.stopped && |s.win| - p > 48)
  {
    hide *;
    var s1 := s.(n := NRelease(p), b := s.b.(bqlDone := s.b.bqlDone + bytes));
    Reports(s, p, bytes);
    PassOne(s, 5);
    Releases(s1, p);
    PassOne(s1, 4);
    PassWakes(s1.(n := NTest, win := s.win[p..], reclaimed := s.reclaimed + p));
  }

  // ------------------------------------------------------ a drain that gives up

  /** The drain first starts all that is pending, then waits: it goes on past a frame only
      once it is done, and a timeout before that, or before the MAC's count is reached,
      ends it in doubt. */
  lemma DrainWaits(s: State, reported: nat, timeout: bool)
    requires Enabled(s, DrainStep(timeout, reported))
    ensures var t := Draining(s, timeout, reported);
      && (s.phase.pc.DIssue? ==> forall i :: 0 <= i < |t.win| ==> !t.win[i].desc.Pending?)
      && (s.phase.pc.DScan? && s.phase.pc.i < |s.win| && !s.win[s.phase.pc.i].done ==>
            t.phase == if timeout then Drain(DReturn(false)) else s.phase)
      && (s.phase.pc.DWait? && reported < s.phase.pc.sent ==>
            t.phase == if timeout then Drain(DReturn(false)) else s.phase)
  {
  }
}
