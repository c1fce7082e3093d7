/** What the transmit path does for a frame when nothing stands in its way. */
module TxProgress {
  import opened TxProtocol
  import opened TxInvariant
  import opened TxSteps
  import opened TxBooks
  import opened TxTheorems

  // ------------------------------------------------------ one call alone

  /** xmit takes up to n of its steps, copies and submissions succeeding, until it has
      returned. */
  function Alone(s: State, n: nat): State
    decreases n
  {
    if n == 0 || !Enabled(s, XmitStep(true)) then s else Alone(Xmitting(s, true), n - 1)
  }

  const CALL: nat := 12

  /** A call of emz_start_xmit, start to return. */
  function Called(s: State, len: nat, more: bool): State
    requires Enabled(s, Call(len, more))
  {
    Alone(Apply(s, Call(len, more)), CALL)
  }

  ghost predicate Rests(s: State, t: State) {
    && t.n == s.n && t.c == s.c && t.phase == s.phase && t.reclaimed == s.reclaimed
    && t.gate == s.gate && t.txFailed == s.txFailed && t.len == s.len && t.more == s.more
  }

  lemma UpToGate(s: State)
    requires s.x.XFree? && |s.win| < 64 && !s.gate && s.len <= 1536
    ensures var t := Alone(s, 2);
      && t.x.XCopy? && t.win == s.win && t.stopped == s.stopped && Rests(s, t)
      && t.b == s.b.(accepted := s.b.accepted + 1)
    ensures Alone(s, CALL) == Alone(Alone(s, 2), CALL - 2)
  {
    var s1 := Xmitting(s, true);
    assert s1.x.XGate? && Rests(s, s1);
    assert Alone(s, 2) == Alone(s1, 1) == Alone(Xmitting(s1, true), 0);
    assert Alone(s, CALL) == Alone(s1, CALL - 1) == Alone(Xmitting(s1, true), CALL - 2);
  }

  lemma UpToSubmit(s: State)
    requires s.x.XCopy?
    ensures var t := Alone(s, 3);
      && t.x.XSubmit? && t.win == s.win + [Slot(s.len, false, false, NoDesc, 0)]
      && t.stopped == s.stopped && Rests(s, t) && t.b == s.b.(bqlSent := s.b.bqlSent + s.len)
    ensures Alone(s, CALL - 2) == Alone(Alone(s, 3), CALL - 5)
  {
    var s1 := Xmitting(s, true);
    assert s1 == s.(x := XFill);
    var s2 := Xmitting(s1, true);
    assert s2.x.XPublish? && Rests(s, s2) && s2.win == s.win;
    var s3 := Xmitting(s2, true);
    assert s3 == s2.(x := XSubmit, win := s2.win + [s2.draft]);
    assert Alone(s, 3) == Alone(s1, 2) == Alone(s2, 1) == Alone(s3, 0);
    assert Alone(s, CALL - 2) == Alone(s1, CALL - 3) == Alone(s2, CALL - 4) == Alone(s3, CALL - 5);
  }

  lemma UpToFull(s: State)
    requires s.x.XSubmit? && s.win != []
    ensures var t, i := Alone(s, 1), |s.win| - 1;
      && t.x.XFull? && t.win == s.win[i := s.win[i].(desc := Pending)]
      && t.stopped == s.stopped && Rests(s, t) && t.b == s.b
    ensures Alone(s, CALL - 5) == Alone(Alone(s, 1), CALL - 6)
  {
    assert Alone(s, 1) == Alone(Xmitting(s, true), 0);
  }

  lemma UpToReturn(s: State)
    requires s.x.XFull? && |s.win| < 64
    ensures var t := Alone(s, CALL - 6);
      && t.x.XIdle? && t.win == (if s.more then s.win else IssueAll(s.win)) && t.stopped == s.stopped
      && Rests(s, t) && t.b == s.b
  {
    var s1 := Xmitting(s, true);
    assert s1.x.XFlush? && s1.win == s.win && Rests(s, s1) && s1.b == s.b;
    var s2 := Xmitting(s1, true);
    assert s2.x.XIdle?;
    assert Alone(s, CALL - 6) == Alone(s1, CALL - 7) == Alone(s2, CALL - 8) == s2;
  }

  lemma UpToReturnFull(s: State)
    requires s.x.XFull? && |s.win| == 64
    ensures var t := Alone(s, CALL - 6);
      && t.x.XIdle? && t.win == IssueAll(s.win) && t.stopped && Rests(s, t) && t.b == s.b
  {
    var s1 := Xmitting(s, true);
    assert s1.x.XStop? && s1.win == s.win && Rests(s, s1) && s1.b == s.b;
    var s2 := Xmitting(s1, true);
    assert s2.x.XIssue? && s2.win == s.win && Rests(s, s2) && s2.b == s.b && s2.stopped;
    var s3 := Xmitting(s2, true);
    assert s3.x.XRecheck? && s3.win == IssueAll(s.win) && Rests(s, s3) && s3.b == s.b && s3.stopped;
    var s4 := Xmitting(s3, true);
    assert s4.x.XIdle?;
    assert Alone(s, CALL - 6) == Alone(s1, CALL - 7) == Alone(s2, CALL - 8) == Alone(s3, CALL - 9) == Alone(s4, CALL - 10) == s4;
  }

  /** With the gate down, a free slot and a frame that fits, a call publishes the frame,
      submits it, and unless more are promised starts all that is pending; the queue ends
      stopped exactly when that took the last slot. */
  lemma CallSends(s: State, len: nat, more: bool)
    requires Enabled(s, Call(len, more)) && |s.win| < 64 && !s.gate && len <= 1536
    ensures var t, w := Called(s, len, more), s.win + [Slot(len, false, false, Pending, 0)];
      && t.x.XIdle? && t.win == (if more && |w| < 64 then w else IssueAll(w))
      && (t.stopped <==> |w| == 64) && !t.gate && t.txFailed == s.txFailed
      && t.b == s.b.(accepted := s.b.accepted + 1, bqlSent := s.b.bqlSent + len)
  {
    hide Alone, Xmitting, IssueAll;
    var s0 := Apply(s, Call(len, more));
    assert s0 == s.(x := XFree, len := len, more := more);
    UpToGate(s0);
    var s1 := Alone(s0, 2);
    UpToSubmit(s1);
    var s2 := Alone(s1, 3);
    UpToFull(s2);
    var s3 := Alone(s2, 1);
    var w := s.win + [Slot(len, false, false, Pending, 0)];
    assert s3.win == w;
    if |w| == 64 { UpToReturnFull(s3); } else { UpToReturn(s3); }
  }

  /** Behind the gate, or too long for the bounce buffer, a frame is dropped and counted,
      and what earlier calls submitted is started unless more are promised. */
  lemma CallDrops(s: State, len: nat, more: bool)
    requires Enabled(s, Call(len, more)) && |s.win| < 64 && (s.gate || len > 1536)
    ensures var t := Called(s, len, more);
      && t.x.XIdle? && t.win == (if more then s.win else IssueAll(s.win)) && t.stopped == s.stopped
      && t.b == s.b.(accepted := s.b.accepted + 1, dropped := s.b.dropped + 1)
  {
    var s0 := Apply(s, Call(len, more));
    var s1 := Xmitting(s0, true);
    assert s1.x.XGate?;
    var s2 := Xmitting(s1, true);
    assert s2.x.XFlush?;
    var s3 := Xmitting(s2, true);
    assert s3.x.XIdle?;
    assert Alone(s0, CALL) == Alone(s1, CALL - 1) == Alone(s2, CALL - 2) == Alone(s3, CALL - 3) == s3;
  }

  /** A rebuild opens the gate and the queue: the first call after it sends its frame,
      whatever failed before. */
  lemma RestartSends(s: State, len: nat, more: bool)
    requires Inv(s) && Enabled(s, Restart) && len <= 1536
    ensures var r := Apply(s, Restart);
      && Enabled(r, Call(len, more))
      && Called(r, len, more).win == (if more then [Slot(len, false, false, Pending, 0)] else [Slot(len, false, false, Issued, 0)])
  {
    var r := Apply(s, Restart);
    RestartOpens(s);
    hide Apply, Called;
    CallSends(r, len, more);
    var w := [Slot(len, false, false, Pending, 0)];
    assert r.win + w == w;
    assert IssueAll(w) == [Slot(len, false, false, Issued, 0)];
  }

  lemma RestartOpens(s: State)
    requires Inv(s) && Enabled(s, Restart)
    ensures var r := Apply(s, Restart);
      r.phase.Up? && r.x.XIdle? && !r.stopped && !r.gate && r.win == [] && r.reclaimed == 0 && r.txFailed == 0
    ensures Enabled(Apply(s, Restart), Call(0, false))
  {
  }

  // ------------------------------------------------------ nothing outgrows its buffer

  /** Frames past the length check fit a bounce buffer. */
  ghost predicate Fits(s: State) {
    && (s.x.XCopy? || s.x.XFill? || s.x.XPublish? ==> s.len <= 1536)
    && (forall i :: 0 <= i < |s.win| ==> s.win[i].len <= 1536)
  }

  lemma FitsByEarly(s: State, e: Step)
    requires Fits(s) && Enabled(s, e) && e.XmitStep? && Early(s.x) && !s.x.XPublish?
    ensures Fits(Apply(s, e))
  {
    EarlyWindow(s, e);
  }

  lemma FitsByPublish(s: State, e: Step)
    requires Fits(s) && HoldersInv(s) && Enabled(s, e) && e.XmitStep? && s.x.XPublish?
    ensures Fits(Apply(s, e))
  {
    hide Apply;
    XmitPublishes(s, e);
  }

  ghost predicate PastPublish(s: State, t: State) {
    t.len == s.len && !(t.x.XCopy? || t.x.XFill? || t.x.XPublish?)
  }

  lemma LateMoves(s: State, e: Step)
    requires Enabled(s, e) && e.XmitStep? && Late(s.x)
    ensures PastPublish(s, Apply(s, e))
  {
  }

  lemma WriteMoves(s: State, e: Step)
    requires Enabled(s, e) && e.XmitStep? && Writing(s.x)
    ensures PastPublish(s, Apply(s, e))
  {
  }

  lemma FlushMoves(s: State, e: Step)
    requires Enabled(s, e) && e.XmitStep? && Flushing(s.x)
    ensures PastPublish(s, Apply(s, e))
  {
  }

  lemma FitsByLater(s: State, e: Step)
    requires Fits(s) && Enabled(s, e) && e.XmitStep? && !Early(s.x)
    ensures Fits(Apply(s, e))
  {
    hide Apply;
    if Late(s.x) {
      LateMoves(s, e);
      LateWindow(s, e);
    } else if Writing(s.x) {
      WriteMoves(s, e);
      WriteWindow(s, e);
    } else {
      FlushMoves(s, e);
      FlushWindow(s, e);
    }
  }

  lemma OthersLeaveXmit(s: State, e: Step)
    requires Enabled(s, e) && !e.XmitStep? && !e.Call?
    ensures Apply(s, e).x == s.x && Apply(s, e).len == s.len
  {
    if e.DrainStep? { DrainSettles(s, e); }
  }

  lemma FitsByNapi(s: State, e: Step)
    requires Fits(s) && Enabled(s, e) && e.NapiStep?
    ensures Fits(Apply(s, e))
  {
    if !s.n.NRelease? { NapiReads(s, e); }
  }

  lemma FitsByOthers(s: State, e: Step)
    requires Fits(s) && Enabled(s, e) && ByOthers(e)
    ensures Fits(Apply(s, e))
  {
  }

  lemma FitsKept(s: State, e: Step)
    requires Fits(s) && HoldersInv(s) && Enabled(s, e)
    ensures Fits(Apply(s, e))
  {
    hide Apply;
    if e.XmitStep? {
      if s.x.XPublish? { FitsByPublish(s, e); } else if Early(s.x) { FitsByEarly(s, e); } else { FitsByLater(s, e); }
    } else if ByOthers(e) { FitsByOthers(s, e); }
    else if e.NapiStep? { FitsByNapi(s, e); }
    else {
      OthersLeaveXmit(s, e);
      if e.DrainStep? { DrainWindow(s, e); } else if e.CbStep? { CallbackWindow(s, e); } else { DmaWindow(s, e); }
    }
  }

  lemma {:induction false} FitsOverRun(s: State, es: seq<Step>)
    requires Inv(s) && Fits(s) && Runs(s, es)
    ensures Fits(Final(s, es))
    decreases |es|
  {
    hide Apply, Fits;
    if es != [] {
      FitsKept(s, es[0]);
      StepKeeps(s, es[0]);
      FitsOverRun(Apply(s, es[0]), es[1..]);
    }
  }

  lemma EmptyFits(s: State)
    requires s.win == [] && s.x.XIdle?
    ensures Fits(s)
  {
  }

  lemma ReachesFits(s: State, t: State)
    requires Reaches(s, t) && Inv(s) && Fits(s)
    ensures Fits(t)
  {
    var es :| Runs(s, es) && Final(s, es) == t;
    FitsOverRun(s, es);
  }

  /** No frame in flight, in any reachable state, is longer than its bounce buffer. */
  lemma AllFit(s: State, i: nat)
    requires Reaches(INIT, s) && i < |s.win|
    ensures s.win[i].len <= 1536
  {
    hide Inv;
    InitInv();
    EmptyFits(INIT);
    ReachesFits(INIT, s);
  }

  // ------------------------------------------------------ a drain with nothing to wait for

  /** n reads of the drain, each time the MAC's true count, none timing out. */
  predicate Drains(s: State, n: nat)
    decreases n
  {
    n == 0 || (Enabled(s, DrainStep(false, s.b.macSent)) && Drains(Draining(s, false, s.b.macSent), n - 1))
  }

  function Drained(s: State, n: nat): State
    requires Drains(s, n)
    decreases n
  {
    if n == 0 then s else Drained(Draining(s, false, s.b.macSent), n - 1)
  }

  lemma DrainOne(s: State)
    requires s.phase.Drain? && s.phase.pc.DScan? && s.phase.pc.i < |s.win| && s.win[s.phase.pc.i].done
    ensures Enabled(s, DrainStep(false, s.b.macSent))
    ensures Draining(s, false, s.b.macSent) == s.(phase := Drain(DScan(s.phase.pc.i + 1)))
  {
  }

  lemma {:induction false} ScansThrough(s: State)
    requires s.phase.Drain? && s.phase.pc.DScan? && s.phase.pc.i <= |s.win| && AllDone(s.win, |s.win|)
    requires s.b.macSent == s.b.moved && Published(s) - s.txFailed == s.b.moved
    ensures Drains(s, |s.win| - s.phase.pc.i + 3)
    ensures Drained(s, |s.win| - s.phase.pc.i + 3).phase == Drain(DReturn(true))
    decreases |s.win| - s.phase.pc.i
  {
    var k := |s.win| - s.phase.pc.i + 3;
    if s.phase.pc.i < |s.win| {
      DrainOne(s);
      var t := s.(phase := Drain(DScan(s.phase.pc.i + 1)));
      ScansThrough(t);
      assert Drains(t, k - 1);
    } else {
      var t := s.(phase := Drain(DSent));
      assert Draining(s, false, s.b.macSent) == t;
      var u := s.(phase := Drain(DWait(s.b.moved)));
      assert Draining(t, false, s.b.macSent) == u;
      var v := s.(phase := Drain(DReturn(true)));
      assert Draining(u, false, s.b.macSent) == v;
      assert Drains(v, 0) && Drains(u, 1) && Drains(t, 2) && Drains(s, 3);
      assert Drained(s, 3) == Drained(t, 2) == Drained(u, 1) == Drained(v, 0) == v;
    }
  }

  /** With every frame done and sent by the MAC, a drain left alone returns, sure. */
  lemma DrainReturns(s: State)
    requires Inv(s) && s.phase.Drain? && s.phase.pc == DScan(0) && AllDone(s.win, |s.win|) && s.b.macSent == s.b.moved
    ensures Drains(s, |s.win| + 3)
    ensures Drained(s, |s.win| + 3).phase == Drain(DReturn(true))
  {
    SentIsMoved(s);
    ScansThrough(s);
  }

  // ------------------------------------------------------ waking with room

  lemma XmitWakes(s: State, e: Step)
    requires XmitInv(s) && Enabled(s, e) && e.XmitStep? && s.stopped && !Apply(s, e).stopped
    ensures |s.win| <= 48
  {
  }

  lemma OthersWakeNone(s: State, e: Step)
    requires Enabled(s, e) && !e.XmitStep? && !e.NapiStep? && !e.Restart? && s.stopped
    ensures Apply(s, e).stopped
  {
    if e.DrainStep? { hide Apply; DrainIs(s, e); }
  }

  lemma NapiWakes(s: State, e: Step)
    requires WakesFree(s) && Enabled(s, e) && e.NapiStep? && s.stopped && !Apply(s, e).stopped
    ensures |s.win| <= 48
  {
  }

  /** A stopped queue is started again with at least 16 slots free: by xmit always, by NAPI
      when its wake follows its tests at once. */
  lemma WakesWithRoom(s: State, e: Step)
    requires Inv(s) && WakesFree(s) && Enabled(s, e) && !e.Restart?
    requires s.stopped && !Apply(s, e).stopped
    ensures |s.win| <= 48
  {
    hide Apply;
    if e.XmitStep? { XmitWakes(s, e); } else if e.NapiStep? { NapiWakes(s, e); } else { OthersWakeNone(s, e); }
  }
}
